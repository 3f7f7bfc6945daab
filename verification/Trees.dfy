/** Parent maps: walking up, cycles, and the pigeonhole argument that bounds both. */
module Trees {
  import opened Basics

  type Parents = map<Id, Id>

  /** The node `k` steps above `x`, if the chain is that long. */
  function Up(p: Parents, x: Id, k: nat): Option<Id>
    decreases k
  {
    if k == 0 then Some(x)
    else if x in p then Up(p, p[x], k - 1)
    else None
  }

  ghost predicate Acyclic(p: Parents) {
    forall x: Id, k: nat :: k >= 1 ==> Up(p, x, k) != Some(x)
  }

  /** `x` is `m` or lies below it. */
  ghost predicate Under(p: Parents, x: Id, m: Id) {
    exists k: nat :: Up(p, x, k) == Some(m)
  }

  lemma {:induction false} UpAdd(p: Parents, x: Id, a: nat, b: nat)
    ensures Up(p, x, a + b) == (match Up(p, x, a) case None => None case Some(y) => Up(p, y, b))
    decreases a
  {
    if a > 0 && x in p {
      UpAdd(p, p[x], a - 1, b);
    }
  }

  /** The first `k` nodes of the chain from `x`, given that it goes on past them. */
  function Chain(p: Parents, x: Id, k: nat): (r: seq<Id>)
    requires Up(p, x, k).Some?
    ensures |r| == k && forall i :: 0 <= i < k ==> r[i] in p
    ensures forall i :: 0 <= i < k ==> Up(p, x, i) == Some(r[i])
    decreases k
  {
    if k == 0 then [] else [x] + Chain(p, p[x], k - 1)
  }

  lemma {:induction false} DistinctFits(s: seq<Id>, within: set<Id>)
    requires Distinct(s) && forall x :: x in s ==> x in within
    ensures |s| <= |within|
  {
    if s != [] {
      var front, last := s[..|s| - 1], s[|s| - 1];
      assert s == front + [last] && last !in front;
      DistinctFits(front, within - {last});
    }
  }

  /** Pigeonhole: a chain longer than the number of parented nodes meets some node twice. */
  lemma LongChainRepeats(p: Parents, x: Id, k: nat)
    requires Up(p, x, k).Some? && k > |p|
    ensures exists i: nat, j: nat :: i < j < k && Up(p, x, i) == Up(p, x, j)
  {
    var c := Chain(p, x, k);
    if Distinct(c) {
      DistinctFits(c, p.Keys);
    }
    var i, j :| 0 <= i < j < k && c[i] == c[j];
    assert Up(p, x, i) == Up(p, x, j);
  }

  /** A node on a cycle comes back to itself within as many steps as there are parented nodes. */
  lemma {:induction false} CycleIsShort(p: Parents, x: Id, k: nat)
    requires k >= 1 && Up(p, x, k) == Some(x)
    ensures exists j: nat :: 1 <= j <= |p| && Up(p, x, j) == Some(x)
    decreases k
  {
    if k > |p| {
      LongChainRepeats(p, x, k);
      var i: nat, j: nat :| i < j < k && Up(p, x, i) == Up(p, x, j);
      UpAdd(p, x, j, k - j);
      UpAdd(p, x, i, k - j);
      CycleIsShort(p, x, i + (k - j));
    }
  }

  lemma NoRepeat(p: Parents, x: Id, i: nat, j: nat)
    requires Acyclic(p) && i < j && Up(p, x, j).Some?
    ensures Up(p, x, i) != Up(p, x, j)
  {
    UpAdd(p, x, i, j - i);
    var y := Up(p, x, i).value;
    assert Up(p, y, j - i) != Some(y);
  }

  /** In an acyclic forest every chain has ended after as many steps as there are parented nodes. */
  lemma ChainEnds(p: Parents, x: Id)
    requires Acyclic(p)
    ensures Up(p, x, |p| + 1) == None
  {
    if Up(p, x, |p| + 1).Some? {
      LongChainRepeats(p, x, |p| + 1);
      var i: nat, j: nat :| i < j < |p| + 1 && Up(p, x, i) == Up(p, x, j);
      UpAdd(p, x, j, |p| + 1 - j);
      NoRepeat(p, x, i, j);
    }
  }

  // ----- Re-parenting one node -----

  /** `q` is `p` but for the parent of `m`. */
  ghost predicate SameOff(p: Parents, q: Parents, m: Id) {
    forall x :: x != m ==> (x in p <==> x in q) && (x in p ==> p[x] == q[x])
  }

  /** Chains agree up to and including their first visit to `m`. */
  lemma {:induction false} SameUntil(p: Parents, q: Parents, m: Id, x: Id, k: nat)
    requires SameOff(p, q, m)
    requires forall j: nat :: j < k ==> Up(p, x, j) != Some(m)
    ensures Up(q, x, k) == Up(p, x, k)
    decreases k
  {
    if k > 0 {
      assert Up(p, x, 0) == Some(x);
      if x in p {
        forall j: nat | j < k - 1
          ensures Up(p, p[x], j) != Some(m)
        {
          assert Up(p, x, j + 1) == Up(p, p[x], j);
        }
        SameUntil(p, q, m, p[x], k - 1);
      }
    }
  }

  /** The first visit of a chain to `m`. */
  lemma {:induction false} FirstVisit(p: Parents, x: Id, m: Id, k: nat) returns (f: nat)
    requires Up(p, x, k) == Some(m)
    ensures f <= k && Up(p, x, f) == Some(m) && forall j: nat :: j < f ==> Up(p, x, j) != Some(m)
    decreases k
  {
    if j: nat :| j < k && Up(p, x, j) == Some(m) {
      f := FirstVisit(p, x, m, j);
    } else {
      f := k;
    }
  }

  /** Being under `m` does not depend on `m`'s own parent. */
  lemma UnderSame(p: Parents, q: Parents, m: Id, x: Id)
    requires SameOff(p, q, m)
    ensures Under(p, x, m) <==> Under(q, x, m)
  {
    if k: nat :| Up(p, x, k) == Some(m) {
      var f := FirstVisit(p, x, m, k);
      SameUntil(p, q, m, x, f);
    }
    if k: nat :| Up(q, x, k) == Some(m) {
      var f := FirstVisit(q, x, m, k);
      SameUntil(q, p, m, x, f);
    }
  }

  /** Hanging `m` under `n` keeps an acyclic forest acyclic exactly when `n` is neither `m` nor
      below it. */
  lemma ReparentAcyclicIff(p: Parents, m: Id, n: Id)
    requires Acyclic(p)
    ensures Acyclic(p[m := n]) <==> !Under(p, n, m)
  {
    var q := p[m := n];
    UnderSame(p, q, m, n);
    if Under(q, n, m) {
      var k: nat :| Up(q, n, k) == Some(m);
      assert Up(q, m, k + 1) == Some(m);
    } else {
      forall x: Id, k: nat | k >= 1
        ensures Up(q, x, k) != Some(x)
      {
        NoCycleAvoiding(p, q, m, n, x, k);
      }
    }
  }

  /** A cycle that passes through `m` goes on to `m`'s parent `n` and from there back to `m`. */
  lemma CycleReturns(q: Parents, m: Id, n: Id, x: Id, k: nat, j: nat)
    requires k >= 1 && j < k && Up(q, x, k) == Some(x) && Up(q, x, j) == Some(m)
    requires m in q ==> q[m] == n
    ensures Under(q, n, m)
  {
    UpAdd(q, x, j, k - j);
    UpAdd(q, m, k - j, j);
    assert Up(q, m, k) == Some(m);
    assert Up(q, n, k - 1) == Some(m);
  }

  lemma NoCycleAvoiding(p: Parents, q: Parents, m: Id, n: Id, x: Id, k: nat)
    requires Acyclic(p) && SameOff(p, q, m) && k >= 1
    requires m in q ==> q[m] == n
    requires !Under(q, n, m)
    ensures Up(q, x, k) != Some(x)
  {
    assert Up(p, x, k) != Some(x);
    if Up(q, x, k) == Some(x) {
      if j: nat :| j < k && Up(q, x, j) == Some(m) {
        CycleReturns(q, m, n, x, k, j);
      } else {
        SameUntil(q, p, m, x, k);
      }
    }
  }

  /** Leaving out links can only remove cycles. */
  lemma SubAcyclic(q: Parents, p: Parents)
    requires Acyclic(p) && forall y :: y in q ==> y in p && p[y] == q[y]
    ensures Acyclic(q)
  {
    forall x: Id, k: nat | k >= 1
      ensures Up(q, x, k) != Some(x)
    {
      assert Up(p, x, k) != Some(x);
      if Up(q, x, k).Some? {
        SubChain(q, p, x, k);
      }
    }
  }

  lemma UprootAcyclic(p: Parents, m: Id)
    requires Acyclic(p)
    ensures Acyclic(p - {m})
  {
    hide Acyclic;
    SubAcyclic(p - {m}, p);
  }

  lemma {:induction false} SubChain(q: Parents, p: Parents, x: Id, k: nat)
    requires Up(q, x, k).Some? && forall y :: y in q ==> y in p && p[y] == q[y]
    ensures Up(p, x, k) == Up(q, x, k)
    decreases k
  {
    if k > 0 {
      SubChain(q, p, q[x], k - 1);
    }
  }

  // ----- Names along the chain -----

  type Names = map<Id, string>

  function NameOf(names: Names, x: Id): string {
    if x in names then names[x] else ""
  }

  /** Names from the topmost ancestor within `fuel` steps down to `x`. */
  function Segments(p: Parents, names: Names, x: Id, fuel: nat): seq<string>
    decreases fuel
  {
    if fuel == 0 || x !in p then [NameOf(names, x)]
    else Segments(p, names, p[x], fuel - 1) + [NameOf(names, x)]
  }

  /** The names of the `k` nodes from `x` upwards, topmost first. */
  function Suffix(p: Parents, names: Names, x: Id, k: nat): (r: seq<string>)
    requires Up(p, x, k).Some?
    ensures |r| == k
    decreases k
  {
    if k == 0 then [] else Suffix(p, names, p[x], k - 1) + [NameOf(names, x)]
  }

  /** Once the chain has ended, more fuel changes nothing. */
  lemma {:induction false} EnoughFuel(p: Parents, names: Names, x: Id, a: nat, b: nat)
    requires Up(p, x, a + 1) == None && a <= b
    ensures Segments(p, names, x, b) == Segments(p, names, x, a)
    decreases a
  {
    assert x in p ==> Up(p, x, 1) == Some(p[x]);
    if x in p && a > 0 {
      EnoughFuel(p, names, p[x], a - 1, b - 1);
    }
  }

  lemma {:induction false} SegmentsSplit(p: Parents, names: Names, x: Id, k: nat, fuel: nat)
    requires Up(p, x, k).Some?
    ensures Segments(p, names, x, fuel + k) == Segments(p, names, Up(p, x, k).value, fuel) + Suffix(p, names, x, k)
    decreases k
  {
    if k > 0 {
      SegmentsSplit(p, names, p[x], k - 1, fuel);
    }
  }

  function Path(p: Parents, names: Names, x: Id): seq<string> {
    Segments(p, names, x, |p|)
  }

  lemma PathSplit(p: Parents, names: Names, x: Id, k: nat)
    requires Acyclic(p) && Up(p, x, k).Some?
    ensures Path(p, names, x) == Path(p, names, Up(p, x, k).value) + Suffix(p, names, x, k)
  {
    ChainEnds(p, x);
    ChainEnds(p, Up(p, x, k).value);
    EnoughFuel(p, names, x, |p|, |p| + k);
    SegmentsSplit(p, names, x, k, |p|);
  }

  lemma PathUnfold(p: Parents, names: Names, x: Id)
    requires Acyclic(p)
    ensures Path(p, names, x) == (if x in p then Path(p, names, p[x]) else []) + [NameOf(names, x)]
  {
    if x in p {
      PathSplit(p, names, x, 1);
      assert Up(p, x, 1) == Some(p[x]);
      assert Suffix(p, names, p[x], 0) == [];
    } else {
      assert [] + [NameOf(names, x)] == [NameOf(names, x)];
    }
  }

  /** Below `m`, names and links are untouched by a rename of `m`. */
  lemma {:induction false} SuffixSame(p: Parents, q: Parents, names: Names, names': Names, m: Id, x: Id, k: nat)
    requires SameOff(p, q, m) && Up(p, x, k).Some?
    requires forall y :: y != m ==> NameOf(names', y) == NameOf(names, y)
    requires forall j: nat :: j < k ==> Up(p, x, j) != Some(m)
    ensures Up(q, x, k) == Up(p, x, k)
    ensures Suffix(q, names', x, k) == Suffix(p, names, x, k)
    decreases k
  {
    SameUntil(p, q, m, x, k);
    if k > 0 {
      assert Up(p, x, 0) == Some(x);
      forall j: nat | j < k - 1
        ensures Up(p, p[x], j) != Some(m)
      {
        assert Up(p, x, j + 1) == Up(p, p[x], j);
      }
      SuffixSame(p, q, names, names', m, p[x], k - 1);
    }
  }

  /** RENAME on paths: nodes below `m` keep their suffix under `m`'s new path; nodes elsewhere keep
      their path. Both trees acyclic. */
  lemma RenameMovesSubtree(p: Parents, q: Parents, names: Names, names': Names, m: Id, x: Id)
    requires Acyclic(p) && Acyclic(q) && SameOff(p, q, m)
    requires forall y :: y != m ==> NameOf(names', y) == NameOf(names, y)
    ensures forall k: nat :: Up(p, x, k) == Some(m) ==>
              && Path(p, names, x) == Path(p, names, m) + Suffix(p, names, x, k)
              && Path(q, names', x) == Path(q, names', m) + Suffix(p, names, x, k)
    ensures !Under(p, x, m) ==> Path(q, names', x) == Path(p, names, x)
  {
    forall k: nat | Up(p, x, k) == Some(m)
      ensures Path(p, names, x) == Path(p, names, m) + Suffix(p, names, x, k)
      ensures Path(q, names', x) == Path(q, names', m) + Suffix(p, names, x, k)
    {
      PathSplit(p, names, x, k);
      forall j: nat | j < k
        ensures Up(p, x, j) != Some(m)
      {
        UpAdd(p, x, j, k - j);
      }
      SuffixSame(p, q, names, names', m, x, k);
      PathSplit(q, names', x, k);
    }
    if !Under(p, x, m) {
      ChainEnds(p, x);
      var k := TopOf(p, x, |p|);
      SuffixSame(p, q, names, names', m, x, k);
      PathSplit(p, names, x, k);
      PathSplit(q, names', x, k);
      var top := Up(p, x, k).value;
      assert top != m && top !in p && top !in q;
    }
  }

  /** How many steps lead from `x` to its root. */
  lemma {:induction false} TopOf(p: Parents, x: Id, n: nat) returns (k: nat)
    requires Up(p, x, n + 1) == None
    ensures Up(p, x, k).Some? && Up(p, x, k).value !in p
    decreases n
  {
    assert x in p ==> Up(p, x, 1) == Some(p[x]);
    if x !in p {
      k := 0;
    } else {
      k := TopOf(p, p[x], n - 1);
      k := k + 1;
    }
  }
}
