/** Folding a window of recorded changes into one answer of a changes request
    (section 5.2 of RFC 8620): created and destroyed cancel, updates give way to either. */
module Dominance {
  import opened Basics

  datatype DeltaSet = DeltaSet(created: seq<Id>, updated: seq<Id>, destroyed: seq<Id>)

  const EMPTY_DELTA := DeltaSet([], [], [])

  function Fold(created: seq<Id>, updated: seq<Id>, destroyed: seq<Id>): DeltaSet {
    var c := Without(created, Elems(destroyed));
    var d := Without(destroyed, Elems(created));
    DeltaSet(FirstSeen(c), FirstSeen(Without(updated, Elems(c) + Elems(d))), FirstSeen(d))
  }

  lemma FoldNothing()
    ensures Fold([], [], []) == EMPTY_DELTA
  {
  }

  /** `Vec::retain` with a membership test. */
  method Retain(v: seq<Id>, drop: set<Id>) returns (r: seq<Id>)
    ensures r == Without(v, drop)
  {
    r := [];
    for i := 0 to |v|
      invariant r == Without(v[..i], drop)
    {
      assert v[..i + 1] == v[..i] + [v[i]];
      WithoutSnoc(v[..i], v[i], drop);
      if v[i] !in drop {
        r := r + [v[i]];
      }
    }
    assert v[..|v|] == v;
  }

  predicate FreshAt(v: seq<Id>, i: nat)
    requires i < |v|
  {
    v[i] !in v[..i]
  }

  /** First pass marks the first occurrences, second pass keeps the marked slots. */
  method DedupPreservingOrder(v: seq<Id>) returns (r: seq<Id>)
    ensures r == FirstSeen(v)
  {
    if |v| < 2 {
      FirstSeenOfDistinct(v);
      return v;
    }
    var seen: set<Id> := {};
    var keep: seq<bool> := [];
    for i := 0 to |v|
      invariant seen == Elems(v[..i])
      invariant |keep| == i && forall j :: 0 <= j < i ==> keep[j] == FreshAt(v, j)
    {
      keep := keep + [v[i] !in seen];
      assert keep[i] == FreshAt(v, i);
      seen := seen + {v[i]};
      assert v[..i + 1] == v[..i] + [v[i]];
    }
    r := [];
    for idx := 0 to |v|
      invariant r == FirstSeen(v[..idx])
    {
      assert v[..idx + 1] == v[..idx] + [v[idx]];
      FirstSeenSnoc(v[..idx], v[idx]);
      assert keep[idx] == FreshAt(v, idx);
      if keep[idx] {
        r := r + [v[idx]];
      }
    }
    assert v[..|v|] == v;
  }

  method ApplyDominanceAndDedup(created: seq<Id>, updated: seq<Id>, destroyed: seq<Id>)
      returns (c: seq<Id>, u: seq<Id>, d: seq<Id>)
    ensures DeltaSet(c, u, d) == Fold(created, updated, destroyed)
  {
    var cancel := set id | id in created && id in destroyed;
    c := Retain(created, cancel);
    WithoutSameOn(created, cancel, Elems(destroyed));
    d := Retain(destroyed, cancel);
    WithoutSameOn(destroyed, cancel, Elems(created));
    u := Retain(updated, Elems(c) + Elems(d));
    c := DedupPreservingOrder(c);
    u := DedupPreservingOrder(u);
    d := DedupPreservingOrder(d);
  }

  /** Only the drop set's verdict on the list's own elements matters. */
  lemma {:induction false} WithoutSameOn(s: seq<Id>, a: set<Id>, b: set<Id>)
    requires forall x :: x in s ==> (x in a <==> x in b)
    ensures Without(s, a) == Without(s, b)
  {
    if s != [] {
      assert s[|s| - 1] in s;
      WithoutSameOn(s[..|s| - 1], a, b);
    }
  }

  lemma FoldSets(c: seq<Id>, u: seq<Id>, d: seq<Id>)
    ensures Elems(Fold(c, u, d).created) == Elems(c) - Elems(d)
    ensures Elems(Fold(c, u, d).destroyed) == Elems(d) - Elems(c)
    ensures Elems(Fold(c, u, d).updated) ==
            Elems(u) - (Elems(c) - Elems(d)) - (Elems(d) - Elems(c))
  {
  }

  lemma {:induction false} KeptOrder(s: seq<Id>, drop: set<Id>, i: nat, j: nat)
    requires i < j < |FirstSeen(Without(s, drop))|
    ensures var r := FirstSeen(Without(s, drop));
            r[i] in s && r[j] in s && FirstIndex(s, r[i]) < FirstIndex(s, r[j])
  {
    var r := FirstSeen(Without(s, drop));
    assert r[i] in r && r[j] in r;
    var front, last := s[..|s| - 1], s[|s| - 1];
    assert s == front + [last];
    WithoutSnoc(front, last, drop);
    FirstSeenSnoc(Without(front, drop), last);
    var q := FirstSeen(Without(front, drop));
    assert q[i] in q;
    FirstIndexPrefix(front, [last], q[i]);
    if j < |q| {
      KeptOrder(front, drop, i, j);
      assert q[j] in q;
      FirstIndexPrefix(front, [last], q[j]);
    } else {
      assert last !in q && last !in front;
    }
  }

  /** What `apply_dominance_and_dedup` promises about its three lists, without saying how:
      the surviving sets, no id twice in a list or in two lists, first-seen order kept. */
  lemma DominanceLaw(c: seq<Id>, u: seq<Id>, d: seq<Id>)
    ensures var r := Fold(c, u, d);
            && Elems(r.created) == Elems(c) - Elems(d)
            && Elems(r.destroyed) == Elems(d) - Elems(c)
            && Elems(r.updated) == Elems(u) - (Elems(r.created) + Elems(r.destroyed))
            && Distinct(r.created) && Distinct(r.updated) && Distinct(r.destroyed)
            && Elems(r.created) !! Elems(r.updated) !! Elems(r.destroyed)
    ensures KeepsFirstSeenOrder(c, Fold(c, u, d).created)
    ensures KeepsFirstSeenOrder(u, Fold(c, u, d).updated)
    ensures KeepsFirstSeenOrder(d, Fold(c, u, d).destroyed)
  {
    var c', d' := Without(c, Elems(d)), Without(d, Elems(c));
    FirstSeenDistinct(c');
    FirstSeenDistinct(d');
    FirstSeenDistinct(Without(u, Elems(c') + Elems(d')));
    OrderOf(c, Elems(d));
    OrderOf(d, Elems(c));
    OrderOf(u, Elems(c') + Elems(d'));
  }

  ghost predicate KeepsFirstSeenOrder(s: seq<Id>, r: seq<Id>) {
    && (forall x :: x in r ==> x in s)
    && forall i, j :: 0 <= i < j < |r| ==> FirstIndex(s, r[i]) < FirstIndex(s, r[j])
  }

  lemma OrderOf(s: seq<Id>, drop: set<Id>)
    ensures KeepsFirstSeenOrder(s, FirstSeen(Without(s, drop)))
  {
    var r := FirstSeen(Without(s, drop));
    forall i, j | 0 <= i < j < |r|
      ensures FirstIndex(s, r[i]) < FirstIndex(s, r[j])
    {
      KeptOrder(s, drop, i, j);
    }
  }

  /** The documentation says an id created and destroyed inside the window is omitted entirely.
      The code omits it exactly when nothing in the window updated it in between. */
  lemma CancelledIdIsOmittedIffNeverUpdated(c: seq<Id>, u: seq<Id>, d: seq<Id>, id: Id)
    requires id in c && id in d
    ensures id !in Fold(c, u, d).created && id !in Fold(c, u, d).destroyed
    ensures id in Fold(c, u, d).updated <==> id in u
  {
    FoldSets(c, u, d);
  }
}
