/** The debounce guard of the post-run retention sweep. Instants and intervals
    are integers in one unit; the clock may go backwards. */
module Retention {
  import opened Basics

  class RetentionSchedule {
    const minInterval: int
    var last: Option<int>
    var sweepsPerformed: nat

    constructor (minInterval: int)
      ensures this.minInterval == minInterval && last == None && sweepsPerformed == 0
    {
      this.minInterval := minInterval;
      last := None;
      sweepsPerformed := 0;
    }

    method ClaimSweepSlot(now: int) returns (granted: bool)
      modifies this
      ensures granted == Grants(old(last), minInterval, now)
      ensures last == if granted then Some(now) else old(last)
      ensures sweepsPerformed == old(sweepsPerformed) + if granted then 1 else 0
    {
      if last.Some? && now - last.value < minInterval { return false; }
      last := Some(now);
      sweepsPerformed := sweepsPerformed + 1;
      granted := true;
    }

    method NoteExternalSweep(now: int)
      modifies this`last
      ensures last == Some(now)
    {
      last := Some(now);
    }

    /** Any mixture of claims and external notes; the counter counts the grants. */
    method Drive(ops: seq<Op>) returns (granted: seq<bool>)
      modifies this
      ensures |granted| == |ops|
      ensures forall j :: 0 <= j < |ops| ==> granted[j] == GrantedAt(old(last), minInterval, ops, j)
      ensures last == LastMark(old(last), minInterval, ops)
      ensures sweepsPerformed == old(sweepsPerformed) + CountGranted(old(last), minInterval, ops)
    {
      granted := [];
      for i := 0 to |ops|
        invariant |granted| == i && forall j :: 0 <= j < i ==> granted[j] == GrantedAt(old(last), minInterval, ops, j)
        invariant last == LastMark(old(last), minInterval, ops[..i])
        invariant sweepsPerformed == old(sweepsPerformed) + CountGranted(old(last), minInterval, ops[..i])
      {
        assert ops[..i + 1][..i] == ops[..i];
        var ok := false;
        match ops[i] {
          case Claim(now) => ok := ClaimSweepSlot(now);
          case Note(now) => NoteExternalSweep(now);
        }
        granted := granted + [ok];
      }
      assert ops[..|ops|] == ops;
    }

    /** A run of claims with no external note in between. */
    method ClaimAll(nows: seq<int>) returns (granted: seq<int>)
      modifies this
      ensures granted == Granted(old(last), minInterval, nows)
      ensures sweepsPerformed == old(sweepsPerformed) + |granted|
    {
      granted := [];
      for i := 0 to |nows|
        invariant Granted(old(last), minInterval, nows) == granted + Granted(last, minInterval, nows[i..])
        invariant sweepsPerformed == old(sweepsPerformed) + |granted|
      {
        var ok := ClaimSweepSlot(nows[i]);
        assert nows[i..] == [nows[i]] + nows[i + 1..];
        if ok { granted := granted + [nows[i]]; }
      }
    }
  }

  datatype Op = Claim(now: int) | Note(now: int)

  /** The instant of the last grant or note. */
  function LastMark(last: Option<int>, interval: int, ops: seq<Op>): Option<int> {
    if ops == [] then last
    else
      var before := LastMark(last, interval, ops[..|ops| - 1]);
      var op := ops[|ops| - 1];
      if op.Note? || Grants(before, interval, op.now) then Some(op.now) else before
  }

  predicate GrantedAt(last: Option<int>, interval: int, ops: seq<Op>, j: nat)
    requires j < |ops|
  {
    ops[j].Claim? && Grants(LastMark(last, interval, ops[..j]), interval, ops[j].now)
  }

  function CountGranted(last: Option<int>, interval: int, ops: seq<Op>): nat {
    if ops == [] then 0
    else CountGranted(last, interval, ops[..|ops| - 1]) + if GrantedAt(last, interval, ops, |ops| - 1) then 1 else 0
  }

  predicate MarksAt(last: Option<int>, interval: int, ops: seq<Op>, i: nat)
    requires i < |ops|
  {
    ops[i].Note? || GrantedAt(last, interval, ops, i)
  }

  lemma {:induction false} LastMarkStands(last: Option<int>, interval: int, ops: seq<Op>, i: nat, j: nat)
    requires i < j <= |ops| && MarksAt(last, interval, ops, i)
    requires forall k :: i < k < j ==> !MarksAt(last, interval, ops, k)
    ensures LastMark(last, interval, ops[..j]) == Some(ops[i].now)
    decreases j
  {
    assert ops[..j][..j - 1] == ops[..j - 1];
    if i < j - 1 {
      LastMarkStands(last, interval, ops, i, j - 1);
      assert !MarksAt(last, interval, ops, j - 1);
    }
  }

  /** Among claims and notes: between the last grant or note before it and a claim,
      the claim is granted exactly when the interval has passed. */
  lemma GrantFollowsMarkExactly(last: Option<int>, interval: int, ops: seq<Op>, i: nat, j: nat)
    requires i < j < |ops| && ops[j].Claim?
    requires MarksAt(last, interval, ops, i) && forall k :: i < k < j ==> !MarksAt(last, interval, ops, k)
    ensures GrantedAt(last, interval, ops, j) <==> ops[j].now - ops[i].now >= interval
  {
    LastMarkStands(last, interval, ops, i, j);
  }

  predicate Grants(last: Option<int>, interval: int, now: int) {
    last.None? || interval <= now - last.value
  }

  /** The instants at which a sequence of claims is granted, in order. */
  function Granted(last: Option<int>, interval: int, nows: seq<int>): seq<int>
    decreases nows
  {
    if nows == [] then []
    else if Grants(last, interval, nows[0]) then [nows[0]] + Granted(Some(nows[0]), interval, nows[1..])
    else Granted(last, interval, nows[1..])
  }

  lemma {:induction false} GrantsFollowLast(last: Option<int>, interval: int, nows: seq<int>, i: nat)
    requires 0 < interval && i < |Granted(last, interval, nows)| && last.Some?
    ensures Granted(last, interval, nows)[i] - last.value >= (i + 1) * interval
    decreases nows
  {
    if Grants(last, interval, nows[0]) {
      if i > 0 { GrantsFollowLast(Some(nows[0]), interval, nows[1..], i - 1); }
    } else {
      GrantsFollowLast(last, interval, nows[1..], i);
    }
  }

  /** However the clock moves, the i-th and j-th grants are at least j - i
      intervals apart. */
  lemma {:induction false} GrantsAreSpaced(last: Option<int>, interval: int, nows: seq<int>, i: nat, j: nat)
    requires 0 < interval && i < j < |Granted(last, interval, nows)|
    ensures Granted(last, interval, nows)[j] - Granted(last, interval, nows)[i] >= (j - i) * interval
    decreases nows
  {
    if Grants(last, interval, nows[0]) {
      if i == 0 {
        GrantsFollowLast(Some(nows[0]), interval, nows[1..], j - 1);
      } else {
        GrantsAreSpaced(Some(nows[0]), interval, nows[1..], i - 1, j - 1);
      }
    } else {
      GrantsAreSpaced(last, interval, nows[1..], i, j);
    }
  }

  /** So a storm of claims is granted at most once per interval of the time
      between its first and its last grant, plus one. */
  lemma GrantsAreBounded(last: Option<int>, interval: int, nows: seq<int>)
    requires 0 < interval && Granted(last, interval, nows) != []
    ensures var g := Granted(last, interval, nows);
      |g| <= 1 + (g[|g| - 1] - g[0]) / interval
  {
    var g := Granted(last, interval, nows);
    var n := |g| - 1;
    if n > 0 {
      GrantsAreSpaced(last, interval, nows, 0, n);
      Quotient(g[n] - g[0], n, interval);
    }
  }

  lemma Quotient(span: int, n: int, interval: int)
    requires 0 < interval && span >= n * interval
    ensures n <= span / interval
  {
    var q := span / interval;
    assert span < (q + 1) * interval;
    assert q + 1 <= n ==> (q + 1) * interval <= n * interval;
  }
}
