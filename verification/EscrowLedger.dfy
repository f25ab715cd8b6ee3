/**
 * The external ledger: integer balances and the log of accepted payments. A payment that overdraws or is not
 * positive is refused, and any payment may be refused for reasons outside the model.
 */
module EscrowLedger {
  import opened Sums

  type Key = string
  type EscrowId = string

  // A party's own account, or the account generated for one escrow.
  datatype Account = Party(key: Key) | Custody(id: EscrowId)

  datatype Payment = Payment(from: Account, to: Account, amount: int)

  datatype Ledger = Ledger(balances: map<Account, int>, log: seq<Payment>)

  function Balance(l: Ledger, a: Account): int {
    if a in l.balances then l.balances[a] else 0
  }

  predicate Accepts(l: Ledger, p: Payment, net: bool) {
    net && 0 < p.amount <= Balance(l, p.from)
  }

  function Pay(l: Ledger, p: Payment): Ledger {
    var debited := l.(balances := l.balances[p.from := Balance(l, p.from) - p.amount]);
    Ledger(debited.balances[p.to := Balance(debited, p.to) + p.amount], l.log + [p])
  }

  // The sum of the logged payments from one account to another.
  function Paid(log: seq<Payment>, from: Account, to: Account): int {
    if log == [] then 0
    else
      var last := log[|log| - 1];
      Paid(log[..|log| - 1], from, to) + (if last.from == from && last.to == to then last.amount else 0)
  }

  ghost function TotalMoney(l: Ledger): int {
    Sum(l.balances)
  }

  lemma PayEffect(l: Ledger, p: Payment)
    requires p.from != p.to
    ensures Balance(Pay(l, p), p.from) == Balance(l, p.from) - p.amount
    ensures Balance(Pay(l, p), p.to) == Balance(l, p.to) + p.amount
    ensures forall a :: a != p.from && a != p.to ==> Balance(Pay(l, p), a) == Balance(l, a)
    ensures forall from, to :: Paid(Pay(l, p).log, from, to)
              == Paid(l.log, from, to) + (if from == p.from && to == p.to then p.amount else 0)
    ensures TotalMoney(Pay(l, p)) == TotalMoney(l)
  {
    assert Pay(l, p).log[..|l.log|] == l.log;
    var debited := l.balances[p.from := Balance(l, p.from) - p.amount];
    SumUpdate(l.balances, p.from, Balance(l, p.from) - p.amount);
    SumUpdate(debited, p.to, Balance(l.(balances := debited), p.to) + p.amount);
  }

  class StellarLedger {
    var balances: map<Account, int>
    var log: seq<Payment>

    ghost function State(): Ledger
      reads this
    {
      Ledger(balances, log)
    }

    constructor (balances: map<Account, int>)
      ensures State() == Ledger(balances, [])
    {
      this.balances := balances;
      log := [];
    }

    /** Submits one payment; net is whether the network lets it through. The hash is its place in the log. */
    method Submit(p: Payment, net: bool) returns (ok: bool, hash: nat)
      modifies this
      ensures ok <==> Accepts(old(State()), p, net)
      ensures State() == if ok then Pay(old(State()), p) else old(State())
      ensures hash == |old(log)|
    {
      hash := |log|;
      var available := if p.from in balances then balances[p.from] else 0;
      ok := net && 0 < p.amount <= available;
      if ok {
        balances := balances[p.from := available - p.amount];
        var held := if p.to in balances then balances[p.to] else 0;
        balances := balances[p.to := held + p.amount];
        log := log + [p];
      }
    }
  }
}
