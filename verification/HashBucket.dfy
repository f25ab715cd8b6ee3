/** The rollout bucket: a loop in signed 32-bit arithmetic, equal to a fold modulo 2^32. */
module HashBucket {

  // A UTF-16 code unit, and a text of them.
  type CodeUnit = x: int | 0 <= x < 0x1_0000
  type Text = seq<CodeUnit>

  const MODULUS := 0x1_0000_0000
  const COLON: CodeUnit := 58

  type Word = x: int | 0 <= x < 0x1_0000_0000

  function Xor(a: Word, b: Word): Word {
    ((a as bv32) ^ (b as bv32)) as int
  }

  function ToUint32(x: int): Word {
    x % MODULUS
  }

  function ToInt32(w: Word): int {
    if w >= 0x8000_0000 then w - MODULUS else w
  }

  // Multiply by 33, exclusive-or with the next unit, modulo 2^32.
  function Fold(s: Text): Word {
    if s == [] then 5381
    else Xor(ToUint32(Fold(s[..|s| - 1]) * 33), s[|s| - 1])
  }

  function Joined(user: Text, key: Text): Text {
    user + [COLON] + key
  }

  function Bucket(user: Text, key: Text): (b: nat)
    ensures b < 100
  {
    Fold(Joined(user, key)) % 100
  }

  lemma SignedTimes33(h: int)
    requires -0x8000_0000 <= h < 0x8000_0000
    ensures ToUint32(h * 33) == ToUint32(ToUint32(h) * 33)
  {
    if h < 0 {
      assert ToUint32(h) == h + MODULUS;
      assert (h + MODULUS) * 33 == h * 33 + 33 * MODULUS;
    }
  }

  // One turn of the source's loop on a signed 32-bit number.
  function SignedStep(h: int, u: CodeUnit): int {
    ToInt32(Xor(ToUint32(h * 33), u))
  }

  // A turn stays in signed 32-bit range, its product is exact in a double, and modulo 2^32 it is the unsigned step.
  lemma SignedStepIsUnsignedStep(h: int, u: CodeUnit)
    requires -0x8000_0000 <= h < 0x8000_0000
    ensures -0x8000_0000 <= SignedStep(h, u) < 0x8000_0000
    ensures -0x20_0000_0000_0000 < h * 33 < 0x20_0000_0000_0000
    ensures ToUint32(SignedStep(h, u)) == Xor(ToUint32(ToUint32(h) * 33), u)
  {
    SignedTimes33(h);
    SignedIsUnsigned(Xor(ToUint32(h * 33), u));
  }

  lemma SignedIsUnsigned(w: Word)
    ensures -0x8000_0000 <= ToInt32(w) < 0x8000_0000 && ToUint32(ToInt32(w)) == w
  {}

  method ComputeBucket(user: Text, key: Text) returns (bucket: nat)
    ensures bucket == Bucket(user, key)
  {
    var str := Joined(user, key);
    var hash := 5381;
    for i := 0 to |str|
      invariant -0x8000_0000 <= hash < 0x8000_0000
      invariant ToUint32(hash) == Fold(str[..i])
    {
      SignedStepIsUnsignedStep(hash, str[i]);
      FoldStep(str, i);
      hash := SignedStep(hash, str[i]);
    }
    assert str[..|str|] == str;
    bucket := ToUint32(hash) % 100;
  }

  lemma FoldStep(s: Text, i: nat)
    requires i < |s|
    ensures Fold(s[..i + 1]) == Xor(ToUint32(Fold(s[..i]) * 33), s[i])
  {
    assert s[..i + 1][..i] == s[..i];
  }

  /** The empty text hashes to 5381 and each unit turns a hash h into h * 33, exclusive-or the unit, modulo 2^32. */
  lemma FoldExactly(s: Text, u: CodeUnit)
    ensures Fold([]) == 5381
    ensures Fold(s + [u]) == Xor((Fold(s) * 33) % 0x1_0000_0000, u)
  {
    assert (s + [u])[..|s|] == s;
  }

  lemma XorOfBits(a: Word, b: Word)
    ensures Xor(a, b) == ((a as bv32) ^ (b as bv32)) as int
  {}

  /** The bucket is the hash of user, colon and key, modulo 100. */
  lemma BucketExactly(user: Text, key: Text)
    ensures Bucket(user, key) == Fold(user + [58] + key) % 100
  {}
}
