/** `STORE` flag edits (section 6.4.6 of RFC 3501): IMAP flags become keywords, and the keyword
    list is left sorted and duplicate-free. */
module Flags {
  import opened Basics
  import opened Sorting
  import opened Text

  datatype StoreKind = Add | Remove | Replace

  datatype StoreOp = StoreOp(kind: StoreKind, flags: seq<string>)

  function Keyword(token: string): string {
    if token == "\\Seen" then "$seen"
    else if token == "\\Flagged" then "$flagged"
    else if token == "\\Draft" then "$draft"
    else if token == "\\Answered" then "$answered"
    else if token == "\\Deleted" then "$deleted"
    else token
  }

  /** The way back, for `FLAGS (...)`. */
  function FlagName(keyword: string): string {
    if keyword == "$seen" then "\\Seen"
    else if keyword == "$flagged" then "\\Flagged"
    else if keyword == "$draft" then "\\Draft"
    else if keyword == "$answered" then "\\Answered"
    else if keyword == "$deleted" then "\\Deleted"
    else keyword
  }

  /** A client that names a flag it was sent names the keyword it stands for. */
  lemma FlagReadsBack(keyword: string)
    requires keyword == "" || keyword[0] != '\\'
    ensures Keyword(FlagName(keyword)) == keyword
  {
    assert FlagName("$seen") == "\\Seen";
  }

  function FlagNames(keywords: seq<string>): (r: seq<string>)
    ensures |r| == |keywords| && forall i :: 0 <= i < |r| ==> r[i] == FlagName(keywords[i])
  {
    seq(|keywords|, i requires 0 <= i < |keywords| => FlagName(keywords[i]))
  }

  /** `flags_for`. */
  function FlagsFor(keywords: seq<string>): string {
    Join(Sort(FlagNames(keywords), LexLe), " ")
  }

  function Requested(flags: seq<string>): (r: seq<string>)
    ensures |r| == |flags| && forall i :: 0 <= i < |r| ==> r[i] == Keyword(flags[i])
  {
    seq(|flags|, i requires 0 <= i < |flags| => Keyword(flags[i]))
  }

  /** `sort` followed by `dedup`: equal neighbours collapse. */
  function Collapse(s: seq<string>): (r: seq<string>)
    ensures forall x :: x in r <==> x in s
    ensures s != [] ==> r != [] && r[0] == s[0]
  {
    if |s| <= 1 then s
    else
      assert s == [s[0]] + s[1..];
      if s[0] == s[1] then Collapse(s[1..]) else [s[0]] + Collapse(s[1..])
  }

  function Canonical(s: seq<string>): (r: seq<string>)
    ensures forall x :: x in r <==> x in s
  {
    SameElements(Sort(s, LexLe), s);
    Collapse(Sort(s, LexLe))
  }

  function IncludeAll(s: seq<string>, more: seq<string>): (r: seq<string>)
    ensures forall x :: x in r <==> x in s || x in more
  {
    if more == [] then s else
      var front, last := IncludeAll(s, more[..|more| - 1]), more[|more| - 1];
      assert more == more[..|more| - 1] + [last];
      if last in front then front else front + [last]
  }

  function KeywordsAfter(op: StoreOp, keywords: seq<string>): seq<string> {
    var requested := Requested(op.flags);
    Canonical(match op.kind
              case Add => IncludeAll(keywords, requested)
              case Remove => Without(keywords, Elems(requested))
              case Replace => requested)
  }

  predicate Changes(op: StoreOp, keywords: seq<string>) {
    KeywordsAfter(op, keywords) != Canonical(keywords)
  }

  method ApplyInPlace(op: StoreOp, before: seq<string>) returns (keywords: seq<string>, changed: bool)
    ensures keywords == KeywordsAfter(op, before)
    ensures changed == Changes(op, before)
  {
    keywords := before;
    var requested := Requested(op.flags);
    match op.kind {
      case Add =>
        for i := 0 to |requested|
          invariant keywords == IncludeAll(before, requested[..i])
        {
          assert requested[..i + 1][..i] == requested[..i];
          if requested[i] !in keywords {
            keywords := keywords + [requested[i]];
          }
        }
        assert requested[..|requested|] == requested;
      case Remove =>
        keywords := Without(keywords, Elems(requested));
      case Replace =>
        keywords := requested;
    }
    keywords := Canonical(keywords);
    changed := keywords != Canonical(before);
  }

  // ----- The canonical list is a picture of the set -----

  ghost predicate StrictlyAscending(s: seq<string>) {
    forall i, j :: 0 <= i < j < |s| ==> LexLe(s[i], s[j]) && s[i] != s[j]
  }

  lemma {:induction false} CollapseAscends(s: seq<string>)
    requires Sorted(s, LexLe)
    ensures StrictlyAscending(Collapse(s))
  {
    hide LexLe;
    if |s| > 1 {
      CollapseAscends(s[1..]);
      var rest := Collapse(s[1..]);
      if s[0] != s[1] {
        forall j | 0 <= j < |rest|
          ensures LexLe(s[0], rest[j]) && s[0] != rest[j]
        {
          assert rest[j] in s[1..];
          var k :| 1 <= k < |s| && s[k] == rest[j];
          assert LexLe(s[1], rest[j]) by {
            if k == 1 {
              LexTotal(s[1], s[1]);
            }
          }
          LexTotal(s[0], s[1]);
        }
      }
    }
  }

  lemma {:induction false} AscendingUnique(a: seq<string>, b: seq<string>)
    requires StrictlyAscending(a) && StrictlyAscending(b)
    requires forall x :: x in a <==> x in b
    ensures a == b
  {
    hide LexLe;
    assert b != [] ==> b[0] in b;
    if a != [] {
      assert a[0] in a;
      var j :| 0 <= j < |b| && b[j] == a[0];
      var i :| 0 <= i < |a| && a[i] == b[0] by {
        assert b[0] in b;
      }
      LexTotal(a[0], b[0]);
      assert a[0] == b[0];
      forall x
        ensures x in a[1..] <==> x in b[1..]
      {
        assert x in a <==> x == a[0] || x in a[1..] by { assert a == [a[0]] + a[1..]; }
        assert x in b <==> x == b[0] || x in b[1..] by { assert b == [b[0]] + b[1..]; }
      }
      AscendingUnique(a[1..], b[1..]);
      assert a == [a[0]] + a[1..] && b == [b[0]] + b[1..];
    }
  }

  lemma CanonicalAscends(s: seq<string>)
    ensures StrictlyAscending(Canonical(s))
  {
    LexOrdering();
    SortSorts(s, LexLe);
    CollapseAscends(Sort(s, LexLe));
  }

  /** The keywords a STORE should leave: union, difference or replacement of the flag sets. */
  function Target(op: StoreOp, keywords: seq<string>): set<string> {
    var requested := Elems(Requested(op.flags));
    match op.kind
    case Add => Elems(keywords) + requested
    case Remove => Elems(keywords) - requested
    case Replace => requested
  }

  /** STORE leaves exactly the target set, listed in one canonical way, and reports a change exactly
      when the set changed: reordered or repeated flags do not bump the state. */
  lemma StoreMeaning(op: StoreOp, keywords: seq<string>)
    ensures Elems(KeywordsAfter(op, keywords)) == Target(op, keywords)
    ensures StrictlyAscending(KeywordsAfter(op, keywords))
    ensures Changes(op, keywords) <==> Target(op, keywords) != Elems(keywords)
  {
    hide Canonical, StrictlyAscending;
    var after := KeywordsAfter(op, keywords);
    CanonicalAscends(keywords);
    var requested := Requested(op.flags);
    match op.kind {
      case Add => CanonicalAscends(IncludeAll(keywords, requested));
      case Remove => CanonicalAscends(Without(keywords, Elems(requested)));
      case Replace => CanonicalAscends(requested);
    }
    if Target(op, keywords) == Elems(keywords) {
      forall x
        ensures x in after <==> x in Canonical(keywords)
      {
        assert x in after <==> x in Target(op, keywords);
      }
      AscendingUnique(after, Canonical(keywords));
    }
    assert Elems(after) == Target(op, keywords) && Elems(Canonical(keywords)) == Elems(keywords);
  }

  // ----- The flags a client is sent -----

  /** The five system flags, both ways; any other flag is its own keyword. */
  lemma SystemFlags(other: string)
    ensures Keyword("\\Seen") == "$seen" && Keyword("\\Flagged") == "$flagged" && Keyword("\\Draft") == "$draft"
    ensures Keyword("\\Answered") == "$answered" && Keyword("\\Deleted") == "$deleted"
    ensures FlagName("$seen") == "\\Seen" && FlagName("$flagged") == "\\Flagged" && FlagName("$draft") == "\\Draft"
    ensures FlagName("$answered") == "\\Answered" && FlagName("$deleted") == "\\Deleted"
    ensures other == "" || other[0] != '\\' ==> Keyword(other) == other
    ensures other == "" || other[0] != '$' ==> FlagName(other) == other
  {
  }

  /** Splitting what is printed at the spaces gives every keyword's flag, as often as it is there, in
      ascending order. */
  lemma FlagsForMeaning(keywords: seq<string>)
    requires keywords != [] && forall i :: 0 <= i < |keywords| ==> ' ' !in keywords[i]
    ensures var sent := SplitOn(FlagsFor(keywords), ' ');
            multiset(sent) == multiset(FlagNames(keywords)) && Sorted(sent, LexLe)
  {
    hide Join, SplitOn, FlagName, LexLe;
    var sorted := Sort(FlagNames(keywords), LexLe);
    LexOrdering();
    SortSorts(FlagNames(keywords), LexLe);
    SameElements(sorted, FlagNames(keywords));
    forall i | 0 <= i < |sorted|
      ensures ' ' !in sorted[i]
    {
      assert sorted[i] in FlagNames(keywords);
      var k :| 0 <= k < |keywords| && FlagNames(keywords)[k] == sorted[i];
      PlainFlag(keywords[k]);
    }
    SplitJoin(sorted, ' ');
  }

  lemma PlainFlag(keyword: string)
    requires ' ' !in keyword
    ensures ' ' !in FlagName(keyword)
  {
  }

  lemma NoFlags()
    ensures FlagsFor([]) == ""
  {
  }
}
