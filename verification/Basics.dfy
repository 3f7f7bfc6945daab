/** Small vocabulary shared by every component: optional values, and the order-preserving
    list operations (`retain`, first-seen dedup) that the server applies to its id vectors. */
module Basics {

  type Id = string

  const U32_MAX: nat := 0xFFFF_FFFF
  const U64_MAX: nat := 0xFFFF_FFFF_FFFF_FFFF
  const I64_MAX: nat := 0x7FFF_FFFF_FFFF_FFFF

  type I64 = x: int | -0x8000_0000_0000_0000 <= x < 0x8000_0000_0000_0000

  /** Two's-complement wrap-around of a 64-bit sum or product. */
  function Wrap(x: int): (r: I64)
    ensures -0x8000_0000_0000_0000 <= x < 0x8000_0000_0000_0000 ==> r == x
  {
    (x + 0x8000_0000_0000_0000) % 0x1_0000_0000_0000_0000 - 0x8000_0000_0000_0000
  }

  lemma Widths()
    ensures U32_MAX == 4294967295 && U64_MAX == 18446744073709551615 && I64_MAX == 9223372036854775807
  {
  }

  /** Wrapping changes a number by a multiple of 2^64; only one such number has the type. */
  lemma WrapMeaning(x: int)
    ensures (x - Wrap(x)) % 18446744073709551616 == 0
  {
  }

  datatype Option<+T> = None | Some(value: T)

  function Elems<T(==,!new)>(s: seq<T>): (r: set<T>)
    ensures forall x :: x in r <==> x in s
  {
    set x | x in s
  }

  ghost predicate Distinct<T(!new)>(s: seq<T>) {
    forall i, j :: 0 <= i < j < |s| ==> s[i] != s[j]
  }

  /** `retain(|x| !drop.contains(x))`: the survivors, in their old order. */
  function Without<T(==,!new)>(s: seq<T>, drop: set<T>): (r: seq<T>)
    ensures forall x :: x in r <==> x in s && x !in drop
    ensures |r| <= |s|
  {
    if s == [] then [] else
      var last := s[|s| - 1];
      var front := s[..|s| - 1];
      assert s == front + [last];
      if last in drop then Without(front, drop) else Without(front, drop) + [last]
  }

  /** Each element once, at the place of its first occurrence. */
  function FirstSeen<T(==,!new)>(s: seq<T>): (r: seq<T>)
    ensures forall x :: x in r <==> x in s
    ensures |r| <= |s|
  {
    if s == [] then [] else
      var last := s[|s| - 1];
      var front := s[..|s| - 1];
      assert s == front + [last];
      if last in front then FirstSeen(front) else FirstSeen(front) + [last]
  }

  lemma WithoutSnoc<T(!new)>(s: seq<T>, x: T, drop: set<T>)
    ensures Without(s + [x], drop) == if x in drop then Without(s, drop) else Without(s, drop) + [x]
  {
    assert (s + [x])[..|s|] == s;
  }

  lemma FirstSeenSnoc<T(!new)>(s: seq<T>, x: T)
    ensures FirstSeen(s + [x]) == if x in s then FirstSeen(s) else FirstSeen(s) + [x]
  {
    assert (s + [x])[..|s|] == s;
  }

  lemma {:induction false} WithoutAppend<T(!new)>(s: seq<T>, t: seq<T>, drop: set<T>)
    ensures Without(s + t, drop) == Without(s, drop) + Without(t, drop)
  {
    if t == [] {
      assert s + t == s;
    } else {
      var front, last := t[..|t| - 1], t[|t| - 1];
      assert s + t == (s + front) + [last];
      WithoutSnoc(s + front, last, drop);
      WithoutAppend(s, front, drop);
    }
  }

  lemma {:induction false} WithoutDistinct<T(!new)>(s: seq<T>, drop: set<T>)
    requires Distinct(s)
    ensures Distinct(Without(s, drop))
  {
    if s != [] {
      WithoutDistinct(s[..|s| - 1], drop);
      assert s[|s| - 1] !in s[..|s| - 1];
    }
  }

  lemma {:induction false} WithoutNothing<T(!new)>(s: seq<T>, drop: set<T>)
    requires forall x :: x in s ==> x !in drop
    ensures Without(s, drop) == s
  {
    if s != [] {
      WithoutNothing(s[..|s| - 1], drop);
    }
  }

  lemma {:induction false} FirstSeenDistinct<T(!new)>(s: seq<T>)
    ensures Distinct(FirstSeen(s))
  {
    if s != [] {
      FirstSeenDistinct(s[..|s| - 1]);
    }
  }

  lemma {:induction false} FirstSeenOfDistinct<T(!new)>(s: seq<T>)
    requires Distinct(s)
    ensures FirstSeen(s) == s
  {
    if s != [] {
      FirstSeenOfDistinct(s[..|s| - 1]);
    }
  }

  /** Appending elements that were all seen before changes nothing. */
  lemma {:induction false} FirstSeenAppendSeen<T(!new)>(s: seq<T>, t: seq<T>)
    requires forall x :: x in t ==> x in s
    ensures FirstSeen(s + t) == FirstSeen(s)
  {
    if t == [] {
      assert s + t == s;
    } else {
      var front, last := t[..|t| - 1], t[|t| - 1];
      assert s + t == (s + front) + [last];
      FirstSeenAppendSeen(s, front);
      FirstSeenSnoc(s + front, last);
    }
  }

  /** Position of the first occurrence of `x`. */
  function FirstIndex<T(==,!new)>(s: seq<T>, x: T): (i: nat)
    requires x in s
    ensures i < |s| && s[i] == x && x !in s[..i]
  {
    if s[0] == x then 0 else
      assert s == [s[0]] + s[1..];
      1 + FirstIndex(s[1..], x)
  }

  lemma FirstIndexPrefix<T(!new)>(s: seq<T>, t: seq<T>, x: T)
    requires x in s
    ensures x in s + t && FirstIndex(s + t, x) == FirstIndex(s, x)
  {
    var i, j := FirstIndex(s, x), FirstIndex(s + t, x);
    assert (s + t)[i] == x;
    assert forall k :: 0 <= k < j ==> (s + t)[k] == (s + t)[..j][k] != x;
    assert forall k :: 0 <= k < i ==> s[k] == s[..i][k] != x;
  }

  /** First-seen order, stated without recursion: earlier in the result means first met earlier. */
  lemma {:induction false} FirstSeenOrder<T(!new)>(s: seq<T>, i: nat, j: nat)
    requires i < j < |FirstSeen(s)|
    ensures FirstSeen(s)[i] in s && FirstSeen(s)[j] in s
    ensures FirstIndex(s, FirstSeen(s)[i]) < FirstIndex(s, FirstSeen(s)[j])
  {
    var r := FirstSeen(s);
    assert r[i] in r && r[j] in r;
    var front, last := s[..|s| - 1], s[|s| - 1];
    assert s == front + [last];
    var q := FirstSeen(front);
    if j < |q| {
      FirstSeenOrder(front, i, j);
      assert q[i] in front && q[j] in front;
      FirstIndexPrefix(front, [last], q[i]);
      FirstIndexPrefix(front, [last], q[j]);
    } else {
      assert r == q + [last];
      assert q[i] in front;
      FirstIndexPrefix(front, [last], q[i]);
      assert last !in front;
    }
  }
}
