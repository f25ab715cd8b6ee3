/** Counting requests inside a moving window, and what a limiter that decides by such a count guarantees. */
module SlidingWindow {

  // How many of the times lie strictly after the cutoff.
  function CountAfter(times: seq<int>, cutoff: int): nat {
    if times == [] then 0
    else CountAfter(times[..|times| - 1], cutoff) + (if times[|times| - 1] > cutoff then 1 else 0)
  }

  datatype Request = Request(time: int, admitted: bool)

  function Times(rs: seq<Request>): (ts: seq<int>)
    ensures |ts| == |rs| && forall i :: 0 <= i < |rs| ==> ts[i] == rs[i].time
  {
    seq(|rs|, i requires 0 <= i < |rs| => rs[i].time)
  }

  // How many admitted requests fall into the window (from, to].
  function AdmittedIn(rs: seq<Request>, from: int, to: int): nat {
    if rs == [] then 0
    else
      var last := rs[|rs| - 1];
      AdmittedIn(rs[..|rs| - 1], from, to) + (if last.admitted && from < last.time <= to then 1 else 0)
  }

  // Each request was admitted exactly when fewer than limit earlier requests lie inside its window.
  predicate Limited(rs: seq<Request>, window: int, limit: int) {
    rs == [] ||
    (var init, last := rs[..|rs| - 1], rs[|rs| - 1];
     Limited(init, window, limit) && (last.admitted <==> CountAfter(Times(init), last.time - window) < limit))
  }

  predicate Nondecreasing(times: seq<int>) {
    forall i, j :: 0 <= i <= j < |times| ==> times[i] <= times[j]
  }

  lemma {:induction false} CountMonotone(times: seq<int>, low: int, high: int)
    requires low <= high
    ensures CountAfter(times, high) <= CountAfter(times, low)
  {
    if times != [] {
      CountMonotone(times[..|times| - 1], low, high);
    }
  }

  lemma {:induction false} NoneAfter(times: seq<int>, cutoff: int)
    requires forall i :: 0 <= i < |times| ==> times[i] <= cutoff
    ensures CountAfter(times, cutoff) == 0
  {
    if times != [] {
      NoneAfter(times[..|times| - 1], cutoff);
    }
  }

  predicate NoneBetween(rs: seq<Request>, low: int, high: int) {
    forall i :: 0 <= i < |rs| ==> !(low < rs[i].time <= high)
  }

  lemma {:induction false} SameCountExactlyWhenNoneBetween(rs: seq<Request>, low: int, high: int)
    requires low <= high
    ensures CountAfter(Times(rs), high) <= CountAfter(Times(rs), low)
    ensures CountAfter(Times(rs), high) == CountAfter(Times(rs), low) <==> NoneBetween(rs, low, high)
  {
    if rs != [] {
      var init := rs[..|rs| - 1];
      assert Times(rs)[..|rs| - 1] == Times(init);
      SameCountExactlyWhenNoneBetween(init, low, high);
      assert NoneBetween(rs, low, high) <==> NoneBetween(init, low, high) && !(low < rs[|rs| - 1].time <= high);
    }
  }

  lemma {:induction false} AllAfter(times: seq<int>, cutoff: int)
    requires forall i :: 0 <= i < |times| ==> cutoff < times[i]
    ensures CountAfter(times, cutoff) == |times|
  {
    if times != [] {
      AllAfter(times[..|times| - 1], cutoff);
    }
  }

  lemma {:induction false} AdmittedWithin(rs: seq<Request>, from: int, to: int)
    ensures AdmittedIn(rs, from, to) <= CountAfter(Times(rs), from)
  {
    if rs != [] {
      assert Times(rs)[..|rs| - 1] == Times(rs[..|rs| - 1]);
      AdmittedWithin(rs[..|rs| - 1], from, to);
    }
  }

  /** No window of the configured length ever admits more than the limit. */
  lemma {:induction false} WindowNeverOverfull(rs: seq<Request>, window: int, limit: int, from: int)
    requires Limited(rs, window, limit)
    ensures AdmittedIn(rs, from, from + window) <= if limit < 0 then 0 else limit
  {
    if rs != [] {
      var n := |rs| - 1;
      var init, last := rs[..n], rs[n];
      WindowNeverOverfull(init, window, limit, from);
      if last.admitted && from < last.time <= from + window {
        AdmittedWithin(init, from, from + window);
        CountMonotone(Times(init), last.time - window, from);
      }
    }
  }

  lemma {:induction false} CountSorted(times: seq<int>, cutoff: int, limit: nat)
    requires Nondecreasing(times) && 0 < limit
    ensures CountAfter(times, cutoff) < limit <==> |times| < limit || times[|times| - limit] <= cutoff
  {
    if times != [] {
      var init := times[..|times| - 1];
      if times[|times| - 1] <= cutoff {
        NoneAfter(times, cutoff);
      } else if limit > 1 {
        CountSorted(init, cutoff, limit - 1);
      }
    }
  }

  lemma {:induction false} LimitedAt(rs: seq<Request>, window: int, limit: int, i: nat)
    requires Limited(rs, window, limit) && i < |rs|
    ensures rs[i].admitted <==> CountAfter(Times(rs[..i]), rs[i].time - window) < limit
  {
    if i < |rs| - 1 {
      LimitedAt(rs[..|rs| - 1], window, limit, i);
      assert rs[..|rs| - 1][..i] == rs[..i];
    }
  }

  /** Every request counts, admitted or not: a request is admitted exactly when the request limit places before it,
      whatever its fate, has left the window. A client that never pauses that long is never admitted again. */
  lemma AdmittedExactlyWhenWindowDrained(rs: seq<Request>, window: int, limit: nat, i: nat)
    requires Limited(rs, window, limit) && Nondecreasing(Times(rs)) && 0 < limit && i < |rs|
    ensures rs[i].admitted <==> i < limit || rs[i - limit].time <= rs[i].time - window
  {
    LimitedAt(rs, window, limit, i);
    CountSorted(Times(rs[..i]), rs[i].time - window, limit);
  }
}
