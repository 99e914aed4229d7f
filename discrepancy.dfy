/** The zero-count scan of the handler: a stable filter over the three
    parallel lists that keeps (name, platform) for every zero count. */
module Discrepancy {
  import opened Types

  /** The scan walks the count list and reads the name and platform at the
      same index, so those two lists must be at least as long. */
  predicate Scannable(t: Table)
  {
    |t.count| <= |t.events| && |t.count| <= |t.platform|
  }

  /** The missing pairs among the first n counts, in index order. */
  function MissingUpTo(t: Table, n: nat): seq<Pair>
    requires Scannable(t) && n <= |t.count|
    decreases n
  {
    if n == 0 then []
    else MissingUpTo(t, n - 1)
         + (if t.count[n - 1] == 0 then [(t.events[n - 1], t.platform[n - 1])] else [])
  }

  /** The missing pairs of the whole table. */
  function Missing(t: Table): seq<Pair>
    requires Scannable(t)
  {
    MissingUpTo(t, |t.count|)
  }

  /** The indices below n whose count is zero, in increasing order. */
  function ZeroIndices(count: seq<int>, n: nat): (idx: seq<nat>)
    requires n <= |count|
    ensures forall j :: 0 <= j < |idx| ==> idx[j] < n
    ensures forall j, k :: 0 <= j < k < |idx| ==> idx[j] < idx[k]
    ensures forall i :: 0 <= i < n ==> (i in idx <==> count[i] == 0)
    decreases n
  {
    if n == 0 then []
    else ZeroIndices(count, n - 1) + (if count[n - 1] == 0 then [n - 1] else [])
  }

  /** The scan selects exactly the zero-count indices, in increasing order:
      its j-th pair is the name and platform at the j-th zero index. */
  lemma {:induction false} MissingSelectsZeros(t: Table, n: nat)
    requires Scannable(t) && n <= |t.count|
    ensures |MissingUpTo(t, n)| == |ZeroIndices(t.count, n)|
    ensures forall j :: 0 <= j < |MissingUpTo(t, n)| ==>
              MissingUpTo(t, n)[j] == (t.events[ZeroIndices(t.count, n)[j]], t.platform[ZeroIndices(t.count, n)[j]])
    decreases n
  {
    if n > 0 {
      MissingSelectsZeros(t, n - 1);
      var m, z := MissingUpTo(t, n), ZeroIndices(t.count, n);
      var m', z' := MissingUpTo(t, n - 1), ZeroIndices(t.count, n - 1);
      forall j | 0 <= j < |m| ensures m[j] == (t.events[z[j]], t.platform[z[j]]) {
        if j < |m'| {
          assert m[j] == m'[j] && z[j] == z'[j];
        }
      }
    }
  }

  /** A pair is reported exactly when some index holds it with a zero count. */
  lemma MissingMembership(t: Table, p: Pair)
    requires Scannable(t)
    ensures p in Missing(t) <==>
              exists i :: 0 <= i < |t.count| && t.count[i] == 0 && p == (t.events[i], t.platform[i])
  {
    var n := |t.count|;
    var m, z := Missing(t), ZeroIndices(t.count, n);
    MissingSelectsZeros(t, n);
    if p in m {
      var j :| 0 <= j < |m| && m[j] == p;
      assert z[j] in z;
    }
    if i :| 0 <= i < n && t.count[i] == 0 && p == (t.events[i], t.platform[i]) {
      assert i in z;
      var j :| 0 <= j < |z| && z[j] == i;
      assert m[j] == p;
    }
  }

  /** When every count is zero, every pair is reported, in order. */
  lemma {:induction false} MissingAllZero(t: Table, n: nat)
    requires Scannable(t) && n <= |t.count|
    requires forall i :: 0 <= i < |t.count| ==> t.count[i] == 0
    ensures |MissingUpTo(t, n)| == n
    ensures forall i :: 0 <= i < n ==> MissingUpTo(t, n)[i] == (t.events[i], t.platform[i])
    decreases n
  {
    if n > 0 {
      MissingAllZero(t, n - 1);
    }
  }

  /** When no count is zero, nothing is reported. */
  lemma {:induction false} MissingNoneZero(t: Table, n: nat)
    requires Scannable(t) && n <= |t.count|
    requires forall i :: 0 <= i < |t.count| ==> t.count[i] != 0
    ensures MissingUpTo(t, n) == []
    decreases n
  {
    if n > 0 {
      MissingNoneZero(t, n - 1);
    }
  }

  /** The handler's enumerate loop over the counts: appends the name and
      platform at every index whose count is zero. */
  method FindMissing(t: Table) returns (missing: seq<Pair>)
    requires Scannable(t)
    ensures missing == Missing(t)
    ensures |missing| == |ZeroIndices(t.count, |t.count|)|
    ensures forall j :: 0 <= j < |missing| ==>
              missing[j] == (t.events[ZeroIndices(t.count, |t.count|)[j]], t.platform[ZeroIndices(t.count, |t.count|)[j]])
  {
    missing := [];
    for idx := 0 to |t.count|
      invariant missing == MissingUpTo(t, idx)
    {
      if t.count[idx] == 0 {
        missing := missing + [(t.events[idx], t.platform[idx])];
      }
    }
    MissingSelectsZeros(t, |t.count|);
  }
}
