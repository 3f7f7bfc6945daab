/** The library sort as a specification (stable, by a given order), and the byte order on ids. */
module Sorting {

  ghost predicate Ordering<T(!new)>(le: (T, T) -> bool) {
    && (forall x, y :: le(x, y) || le(y, x))
    && (forall x, y, z :: le(x, y) && le(y, z) ==> le(x, z))
  }

  ghost predicate Sorted<T>(s: seq<T>, le: (T, T) -> bool) {
    forall i, j :: 0 <= i < j < |s| ==> le(s[i], s[j])
  }

  /** No two different elements of `s` tie. */
  ghost predicate NoTies<T(!new)>(s: seq<T>, le: (T, T) -> bool) {
    forall x, y :: x in s && y in s && le(x, y) && le(y, x) ==> x == y
  }

  function Insert<T>(x: T, s: seq<T>, le: (T, T) -> bool): (r: seq<T>)
    ensures multiset(r) == multiset([x] + s) && |r| == |s| + 1
  {
    if s == [] || le(x, s[0]) then [x] + s else
      assert s == [s[0]] + s[1..];
      [s[0]] + Insert(x, s[1..], le)
  }

  function Sort<T>(s: seq<T>, le: (T, T) -> bool): (r: seq<T>)
    ensures multiset(r) == multiset(s) && |r| == |s|
  {
    if s == [] then [] else
      assert s == [s[0]] + s[1..];
      Insert(s[0], Sort(s[1..], le), le)
  }

  lemma SameElements<T>(a: seq<T>, b: seq<T>)
    requires multiset(a) == multiset(b)
    ensures forall x :: x in a <==> x in b
  {
    forall x
      ensures x in a <==> x in b
    {
      assert x in a <==> x in multiset(a);
      assert x in b <==> x in multiset(b);
    }
  }

  lemma SortedCons<T>(x: T, s: seq<T>, le: (T, T) -> bool)
    requires Sorted(s, le) && forall j :: 0 <= j < |s| ==> le(x, s[j])
    ensures Sorted([x] + s, le)
  {
  }

  lemma {:induction false} InsertSorted<T(!new)>(x: T, s: seq<T>, le: (T, T) -> bool)
    requires Ordering(le) && Sorted(s, le)
    ensures Sorted(Insert(x, s, le), le)
  {
    hide Sorted;
    if s != [] {
      HeadIsLeast(s, le);
      if le(x, s[0]) {
        SortedCons(x, s, le);
      } else {
        var rest := Insert(x, s[1..], le);
        InsertSorted(x, s[1..], le);
        SameElements(rest, [x] + s[1..]);
        forall j | 0 <= j < |rest|
          ensures le(s[0], rest[j])
        {
          assert rest[j] in [x] + s[1..];
        }
        SortedCons(s[0], rest, le);
        assert Insert(x, s, le) == [s[0]] + rest;
      }
    } else {
      NoPairs([x] + s, le);
    }
  }

  lemma HeadIsLeast<T(!new)>(s: seq<T>, le: (T, T) -> bool)
    requires s != [] && Ordering(le) && Sorted(s, le)
    ensures forall j :: 0 <= j < |s| ==> le(s[0], s[j])
    ensures forall x, j :: 0 <= j < |s| && le(x, s[0]) ==> le(x, s[j])
    ensures Sorted(s[1..], le)
  {
  }

  lemma NoPairs<T>(s: seq<T>, le: (T, T) -> bool)
    requires |s| <= 1
    ensures Sorted(s, le)
  {
  }

  lemma {:induction false} SortSorts<T(!new)>(s: seq<T>, le: (T, T) -> bool)
    requires Ordering(le)
    ensures Sorted(Sort(s, le), le)
  {
    if s != [] {
      SortSorts(s[1..], le);
      InsertSorted(s[0], Sort(s[1..], le), le);
    }
  }

  lemma TailBag<T>(s: seq<T>)
    requires s != []
    ensures multiset(s[1..]) == multiset(s) - multiset{s[0]}
  {
    assert s == [s[0]] + s[1..];
  }

  lemma SameHead<T(!new)>(a: seq<T>, b: seq<T>, le: (T, T) -> bool)
    requires multiset(a) == multiset(b) && Sorted(a, le) && Sorted(b, le) && NoTies(a, le) && a != []
    ensures b != [] && a[0] == b[0]
  {
    SameElements(a, b);
    assert a[0] in b && b[0] in a;
  }

  /** Without ties there is only one sorted arrangement. */
  lemma {:induction false} SortedUnique<T(!new)>(a: seq<T>, b: seq<T>, le: (T, T) -> bool)
    requires multiset(a) == multiset(b) && Sorted(a, le) && Sorted(b, le) && NoTies(a, le)
    ensures a == b
  {
    if a == [] {
      assert |multiset(b)| == |b|;
    } else {
      SameHead(a, b, le);
      TailBag(a);
      TailBag(b);
      SortedUnique(a[1..], b[1..], le);
      assert a == [a[0]] + a[1..] && b == [b[0]] + b[1..];
    }
  }

  predicate LexLe(a: string, b: string) {
    a == "" || (b != "" && (a[0] < b[0] || (a[0] == b[0] && LexLe(a[1..], b[1..]))))
  }

  lemma {:induction false} LexTotal(a: string, b: string)
    ensures LexLe(a, b) || LexLe(b, a)
    ensures LexLe(a, b) && LexLe(b, a) ==> a == b
  {
    if a != "" && b != "" {
      LexTotal(a[1..], b[1..]);
      assert a == [a[0]] + a[1..] && b == [b[0]] + b[1..];
    }
  }

  lemma {:induction false} LexTransitive(a: string, b: string, c: string)
    requires LexLe(a, b) && LexLe(b, c)
    ensures LexLe(a, c)
  {
    if a != "" && a[0] == b[0] && b[0] == c[0] {
      LexTransitive(a[1..], b[1..], c[1..]);
    }
  }

  /** The order of ids: a prefix comes first, otherwise the first difference decides, by code point. */
  lemma {:induction false} LexMeaning(a: string, b: string)
    ensures LexLe(a, b) <==> (|a| <= |b| && b[..|a|] == a) || exists k :: DiffersAt(a, b, k) && a[k] < b[k]
  {
    if a != "" && b != "" {
      if a[0] == b[0] {
        LexMeaning(a[1..], b[1..]);
        DiffersBelow(a, b);
      } else {
        assert a[..0] == b[..0];
        assert DiffersAt(a, b, 0);
        OnlyAtTheHead(a, b);
        assert |a| <= |b| ==> b[..|a|][0] == b[0];
      }
    } else if b == "" {
      assert forall k :: !DiffersAt(a, b, k);
    } else {
      assert b[..0] == a;
    }
  }

  /** After an equal head everything is one place further on. */
  lemma DiffersBelow(a: string, b: string)
    requires a != "" && b != "" && a[0] == b[0]
    ensures |a| <= |b| ==> (b[..|a|] == a <==> b[1..][..|a| - 1] == a[1..])
    ensures forall k: nat :: DiffersAt(a[1..], b[1..], k) ==> DiffersAt(a, b, k + 1)
    ensures forall k :: DiffersAt(a, b, k) ==> k > 0 && DiffersAt(a[1..], b[1..], k - 1)
  {
    var x, y := a[1..], b[1..];
    assert a == [a[0]] + x && b == [b[0]] + y;
    assert |a| <= |b| ==> b[..|a|] == [b[0]] + y[..|x|];
    forall k: nat | DiffersAt(x, y, k)
      ensures DiffersAt(a, b, k + 1)
    {
      assert a[..k + 1] == [a[0]] + x[..k] && b[..k + 1] == [b[0]] + y[..k];
    }
    forall k | DiffersAt(a, b, k)
      ensures k > 0 && DiffersAt(x, y, k - 1)
    {
      assert x[..k - 1] == a[..k][1..] && y[..k - 1] == b[..k][1..];
    }
  }

  lemma OnlyAtTheHead(a: string, b: string)
    requires a != "" && b != "" && a[0] != b[0]
    ensures forall k :: DiffersAt(a, b, k) ==> k == 0
  {
    assert forall k :: 0 < k <= |a| && k <= |b| ==> a[..k][0] == a[0] && b[..k][0] == b[0];
  }

  /** The strings agree before place `k` and not there. */
  ghost predicate DiffersAt(a: string, b: string, k: int) {
    0 <= k < |a| && k < |b| && a[..k] == b[..k] && a[k] != b[k]
  }

  lemma LexOrdering()
    ensures Ordering(LexLe)
  {
    hide LexLe;
    forall a, b {
      LexTotal(a, b);
    }
    forall a, b, c | LexLe(a, b) && LexLe(b, c) {
      LexTransitive(a, b, c);
    }
  }

  // ----- Lists that arrive in order, or in the opposite order -----

  function Reversed<T>(s: seq<T>): (r: seq<T>)
    ensures |r| == |s|
  {
    if s == [] then [] else [s[|s| - 1]] + Reversed(s[..|s| - 1])
  }

  lemma InsertFirst<T>(x: T, s: seq<T>, le: (T, T) -> bool)
    requires s != [] ==> le(x, s[0])
    ensures Insert(x, s, le) == [x] + s
  {
  }

  lemma {:induction false} InsertLast<T>(x: T, s: seq<T>, le: (T, T) -> bool)
    requires forall i :: 0 <= i < |s| ==> !le(x, s[i])
    ensures Insert(x, s, le) == s + [x]
  {
    if s != [] {
      InsertLast(x, s[1..], le);
      assert s == [s[0]] + s[1..];
    }
  }

  lemma {:induction false} SortOfSorted<T>(s: seq<T>, le: (T, T) -> bool)
    requires Sorted(s, le)
    ensures Sort(s, le) == s
  {
    if s != [] {
      SortOfSorted(s[1..], le);
      InsertFirst(s[0], s[1..], le);
      assert s == [s[0]] + s[1..];
    }
  }

  lemma {:induction false} ReversedElements<T>(s: seq<T>, i: nat)
    requires i < |s|
    ensures Reversed(s)[i] == s[|s| - 1 - i]
  {
    if i > 0 {
      ReversedElements(s[..|s| - 1], i - 1);
    }
  }

  lemma ReversedCons<T>(x: T, s: seq<T>)
    ensures Reversed([x] + s) == Reversed(s) + [x]
  {
    hide Reversed;
    forall i | 0 <= i < |s| + 1
      ensures Reversed([x] + s)[i] == (Reversed(s) + [x])[i]
    {
      ReversedElements([x] + s, i);
      if i < |s| {
        ReversedElements(s, i);
      }
    }
  }

  /** Sorting a strictly ascending list the other way round reverses it. */
  lemma {:induction false} SortReverses<T>(s: seq<T>, le: (T, T) -> bool)
    requires forall i, j :: 0 <= i < j < |s| ==> !le(s[i], s[j])
    ensures Sort(s, le) == Reversed(s)
  {
    if s != [] {
      var rest := s[1..];
      SortReverses(rest, le);
      assert s == [s[0]] + rest;
      ReversedCons(s[0], rest);
      forall i | 0 <= i < |rest|
        ensures !le(s[0], Reversed(rest)[i])
      {
        ReversedElements(rest, i);
      }
      InsertLast(s[0], Reversed(rest), le);
    }
  }
}
