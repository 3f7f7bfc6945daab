/** IMAP sequence-sets of UIDs (section 9 of RFC 3501): what a set matches, its parser, and the
    printer that compresses an ascending list into ranges. */
module UidSets {
  import opened Basics
  import opened Text
  import Decimal

  /** One element of a set: a number, or `lo:hi` with `None` standing for `*`. */
  datatype Item = Single(n: nat) | Range(lo: nat, hi: Option<nat>)

  type UidSet = seq<Item>

  predicate Covers(item: Item, uid: nat) {
    match item
    case Single(n) => n == uid
    case Range(lo, hi) => lo <= uid && (hi.None? || uid <= hi.value)
  }

  predicate Matches(uids: UidSet, uid: nat) {
    exists i :: 0 <= i < |uids| && Covers(uids[i], uid)
  }

  // ----- Parsing -----

  function FirstColon(s: string): (i: nat)
    ensures i <= |s| && ':' !in s[..i]
    ensures i < |s| ==> s[i] == ':'
  {
    if s == "" || s[0] == ':' then 0 else
      assert s == [s[0]] + s[1..];
      1 + FirstColon(s[1..])
  }

  function ParsePart(part: string): Option<Item> {
    var i := FirstColon(part);
    if part == "" then None
    else if i < |part| then
      var lo, after := Decimal.Parse(part[..i], U32_MAX), part[i + 1..];
      if lo.None? then None
      else if after == "*" then Some(Range(lo.value, None))
      else
        var hi := Decimal.Parse(after, U32_MAX);
        if hi.None? then None else Some(Range(lo.value, hi))
    else
      var n := Decimal.Parse(part, U32_MAX);
      if n.None? then None else Some(Single(n.value))
  }

  function ParseParts(parts: seq<string>): (r: Option<UidSet>)
    ensures r.Some? ==> |r.value| == |parts|
  {
    if parts == [] then Some([]) else
      var front, last := ParseParts(parts[..|parts| - 1]), ParsePart(Trim(parts[|parts| - 1]));
      if front.None? || last.None? then None else Some(front.value + [last.value])
  }

  function ParseSet(s: string): Option<UidSet> {
    ParseParts(SplitOn(s, ','))
  }

  lemma NoParts()
    ensures ParseParts([]) == Some([])
  {
  }

  lemma PartsStep(parts: seq<string>, i: nat)
    requires i < |parts|
    ensures ParseParts(parts[..i + 1]) ==
            var front, last := ParseParts(parts[..i]), ParsePart(Trim(parts[i]));
            if front.None? || last.None? then None else Some(front.value + [last.value])
  {
    hide ParsePart, Trim;
    assert parts[..i + 1][..i] == parts[..i];
  }

  lemma {:induction false} PartsStop(parts: seq<string>, i: nat)
    requires i <= |parts| && ParseParts(parts[..i]) == None
    ensures ParseParts(parts) == None
  {
    hide ParsePart, Trim;
    if i == |parts| {
      assert parts[..i] == parts;
    } else {
      assert parts[..|parts| - 1][..i] == parts[..i];
      PartsStop(parts[..|parts| - 1], i);
    }
  }

  /** `parse_uid_set`: the first bad part refuses the whole set. */
  method ParseUidSet(s: string) returns (r: Option<UidSet>)
    ensures r == ParseSet(s)
  {
    hide ParseParts, ParsePart, Trim, SplitOn;
    var parts := SplitOn(s, ',');
    var items: UidSet := [];
    NoParts();
    for i := 0 to |parts|
      invariant ParseParts(parts[..i]) == Some(items)
    {
      PartsStep(parts, i);
      var item := ParsePart(Trim(parts[i]));
      if item.None? {
        PartsStop(parts, i + 1);
        return None;
      }
      items := items + [item.value];
    }
    assert parts[..|parts|] == parts;
    if items == [] {
      return None;
    }
    r := Some(items);
  }

  // ----- Printing -----

  datatype Run = Run(lo: nat, hi: nat)

  ghost predicate StrictlyAscending(u: seq<nat>) {
    forall i, j :: 0 <= i < j < |u| ==> u[i] < u[j]
  }

  /** Length of the longest consecutive run at the head of the list. */
  function RunLength(u: seq<nat>): (k: nat)
    requires u != []
    ensures 1 <= k <= |u|
    ensures forall i :: 0 <= i < k ==> u[i] == u[0] + i
    ensures k < |u| ==> u[k] != u[0] + k
  {
    if |u| == 1 || u[1] != u[0] + 1 then 1 else
      var k := RunLength(u[1..]);
      assert forall i :: 1 <= i < k + 1 ==> u[i] == u[1..][i - 1];
      1 + k
  }

  function Runs(u: seq<nat>): seq<Run> {
    if u == [] then [] else
      var k := RunLength(u);
      [Run(u[0], u[k - 1])] + Runs(u[k..])
  }

  function PrintRun(r: Run): string {
    if r.lo == r.hi then Decimal.Print(r.lo) else Decimal.Print(r.lo) + ":" + Decimal.Print(r.hi)
  }

  function PrintRuns(runs: seq<Run>): (r: seq<string>)
    ensures |r| == |runs| && forall i :: 0 <= i < |r| ==> r[i] == PrintRun(runs[i])
  {
    seq(|runs|, i requires 0 <= i < |runs| => PrintRun(runs[i]))
  }

  lemma RunLengthIs(u: seq<nat>, k: nat)
    requires 1 <= k <= |u| && (forall i :: 0 <= i < k ==> u[i] == u[0] + i) && (k < |u| ==> u[k] != u[0] + k)
    ensures RunLength(u) == k
  {
    hide RunLength;
    var n := RunLength(u);
  }

  lemma RunsStep(u: seq<nat>, k: nat)
    requires 1 <= k <= |u| && (forall i :: 0 <= i < k ==> u[i] == u[0] + i) && (k < |u| ==> u[k] != u[0] + k)
    ensures Runs(u) == [Run(u[0], u[k - 1])] + Runs(u[k..])
  {
    hide RunLength;
    RunLengthIs(u, k);
  }

  lemma RunsAt(u: seq<nat>, from: nat, i: nat)
    requires from <= i < |u| && (forall j :: from <= j <= i ==> u[j] == u[from] + (j - from))
    requires i + 1 < |u| ==> u[i + 1] != u[i] + 1
    ensures Runs(u[from..]) == [Run(u[from], u[i])] + Runs(u[i + 1..])
  {
    hide Runs;
    var rest, k := u[from..], i + 1 - from;
    assert forall j :: 0 <= j < k ==> rest[j] == u[from + j];
    assert k < |rest| ==> rest[k] == u[i + 1];
    RunsStep(rest, k);
    assert rest[k..] == u[i + 1..];
  }

  /** The inner loop of the printer: extend `hi` while the next element continues the run. The
      increment `hi + 1` stays in 32 bits because a later, larger element bounds it. */
  method ScanRun(uids: seq<nat>, from: nat) returns (i: nat, hi: nat)
    requires StrictlyAscending(uids) && forall j :: 0 <= j < |uids| ==> uids[j] <= U32_MAX
    requires from < |uids|
    ensures from <= i < |uids| && hi == uids[i]
    ensures Runs(uids[from..]) == [Run(uids[from], hi)] + Runs(uids[i + 1..])
  {
    hide Runs;
    i := from;
    hi := uids[i];
    while i + 1 < |uids| && uids[i + 1] == hi + 1
      invariant from <= i < |uids| && hi == uids[i]
      invariant forall j :: from <= j <= i ==> uids[j] == uids[from] + (j - from)
      invariant i + 1 < |uids| ==> hi < uids[i + 1] && hi + 1 <= U32_MAX
      decreases |uids| - i
    {
      hi := uids[i + 1];
      i := i + 1;
    }
    RunsAt(uids, from, i);
  }

  /** `format_uid_ranges`. */
  method FormatUidRanges(uids: seq<nat>) returns (s: string)
    requires StrictlyAscending(uids) && forall i :: 0 <= i < |uids| ==> uids[i] <= U32_MAX
    ensures s == Join(PrintRuns(Runs(uids)), ",")
    ensures forall i :: 0 <= i < |uids| - 1 ==> uids[i] + 1 <= U32_MAX
  {
    hide Decimal.Print, Runs, StrictlyAscending, Join;
    var parts: seq<string> := [];
    ghost var runs: seq<Run> := [];
    var i := 0;
    assert uids[0..] == uids && runs + Runs(uids) == Runs(uids);
    while i < |uids|
      invariant i <= |uids|
      invariant parts == PrintRuns(runs)
      invariant runs + Runs(uids[i..]) == Runs(uids)
    {
      var lo := uids[i];
      ghost var from := i;
      var hi;
      i, hi := ScanRun(uids, i);
      ghost var run := Run(lo, hi);
      assert runs + ([run] + Runs(uids[i + 1..])) == (runs + [run]) + Runs(uids[i + 1..]);
      var text := Decimal.Print(lo);
      if lo != hi {
        text := text + ":" + Decimal.Print(hi);
      }
      parts := parts + [text];
      runs := runs + [run];
      i := i + 1;
    }
    RunsNone(uids[i..]);
    assert runs + [] == runs;
    RoomForOneMore(uids);
    s := Join(parts, ",");
  }

  /** Only the last UID can be the largest 32-bit number, and the loops never add to that one. */
  lemma RoomForOneMore(uids: seq<nat>)
    requires StrictlyAscending(uids) && forall i :: 0 <= i < |uids| ==> uids[i] <= U32_MAX
    ensures forall i :: 0 <= i < |uids| - 1 ==> uids[i] + 1 <= U32_MAX
  {
    forall i | 0 <= i < |uids| - 1
      ensures uids[i] + 1 <= U32_MAX
    {
      assert uids[i] < uids[i + 1];
    }
  }

  lemma RunsNone(u: seq<nat>)
    ensures u == [] ==> Runs(u) == []
  {
  }

  // ----- What the runs are -----

  ghost predicate InRun(r: Run, x: nat) {
    r.lo <= x <= r.hi
  }

  ghost predicate InSomeRun(runs: seq<Run>, x: nat) {
    exists i :: 0 <= i < |runs| && InRun(runs[i], x)
  }

  lemma RunsHead(u: seq<nat>, x: nat)
    requires u != []
    ensures var k := RunLength(u);
            && Runs(u) == [Run(u[0], u[k - 1])] + Runs(u[k..])
            && (x in u <==> InRun(Run(u[0], u[k - 1]), x) || x in u[k..])
  {
    hide Runs, RunLength;
    var k := RunLength(u);
    RunsStep(u, k);
    InPieces(u, k, x);
    InHead(u, k, x);
  }

  lemma InPieces(u: seq<nat>, k: nat, x: nat)
    requires k <= |u|
    ensures x in u <==> x in u[..k] || x in u[k..]
  {
    assert u == u[..k] + u[k..];
  }

  lemma InHead(u: seq<nat>, k: nat, x: nat)
    requires 1 <= k <= |u| && forall i :: 0 <= i < k ==> u[i] == u[0] + i
    ensures x in u[..k] <==> InRun(Run(u[0], u[k - 1]), x)
  {
    assert u[k - 1] == u[0] + (k - 1);
    if InRun(Run(u[0], u[k - 1]), x) {
      assert u[..k][x - u[0]] == x;
    }
  }

  lemma InConsRun(r: Run, rest: seq<Run>, x: nat)
    ensures InSomeRun([r] + rest, x) <==> InRun(r, x) || InSomeRun(rest, x)
  {
    var all := [r] + rest;
    assert InRun(r, x) ==> InRun(all[0], x);
    assert forall i :: 0 <= i < |rest| ==> all[i + 1] == rest[i];
    if i :| 0 <= i < |all| && InRun(all[i], x) {
      assert i > 0 ==> InRun(rest[i - 1], x);
    }
  }

  /** The runs cover exactly the list's members. */
  lemma {:induction false} RunsCover(u: seq<nat>, x: nat)
    ensures x in u <==> InSomeRun(Runs(u), x)
  {
    hide RunLength, InSomeRun, InRun;
    if u == [] {
      NoRuns(x);
    } else {
      var k := RunLength(u);
      RunsHead(u, x);
      RunsCover(u[k..], x);
      InConsRun(Run(u[0], u[k - 1]), Runs(u[k..]), x);
    }
  }

  lemma NoRuns(x: nat)
    ensures !InSomeRun([], x)
  {
  }

  /** Ascending, non-empty, and maximal: a gap of at least one number separates each run from the
      next. */
  ghost predicate Separated(runs: seq<Run>) {
    && (forall i :: 0 <= i < |runs| ==> runs[i].lo <= runs[i].hi)
    && forall i, j :: 0 <= i < j < |runs| && j == i + 1 ==> runs[i].hi + 1 < runs[j].lo
  }

  lemma {:induction false} RunsMaximal(u: seq<nat>)
    requires StrictlyAscending(u)
    ensures Separated(Runs(u))
    ensures u != [] ==> Runs(u) != [] && Runs(u)[0].lo == u[0]
  {
    hide RunLength, InRun;
    if u != [] {
      var k := RunLength(u);
      RunsHead(u, 0);
      RunsMaximal(u[k..]);
      assert u[k..] != [] ==> u[k - 1] + 1 < u[k..][0] by {
        assert k < |u| ==> u[k - 1] < u[k];
      }
    }
  }

  // ----- Round trip -----

  function ItemOf(r: Run): Item {
    if r.lo == r.hi then Single(r.lo) else Range(r.lo, Some(r.hi))
  }

  function ItemsOf(runs: seq<Run>): (r: UidSet)
    ensures |r| == |runs| && forall i :: 0 <= i < |r| ==> r[i] == ItemOf(runs[i])
  {
    seq(|runs|, i requires 0 <= i < |runs| => ItemOf(runs[i]))
  }

  lemma DigitsArePlain(n: nat)
    ensures ',' !in Decimal.Print(n) && ':' !in Decimal.Print(n)
    ensures !IsSpace(Decimal.Print(n)[0]) && !IsSpace(Decimal.Print(n)[|Decimal.Print(n)| - 1])
  {
    var s := Decimal.Print(n);
    assert Decimal.IsDigit(s[0]) && Decimal.IsDigit(s[|s| - 1]);
    assert forall i :: 0 <= i < |s| ==> Decimal.IsDigit(s[i]);
  }

  lemma TrimNothing(s: string)
    requires s != "" && !IsSpace(s[0]) && !IsSpace(s[|s| - 1])
    ensures Trim(s) == s
  {
  }

  lemma ColonAt(a: string, b: string)
    requires ':' !in a
    ensures FirstColon(a + ":" + b) == |a|
  {
    var s := a + ":" + b;
    var i := FirstColon(s);
    assert s[|a|] == ':';
    assert forall j :: 0 <= j < |a| ==> s[j] == a[j] && a[j] in a;
    assert forall j :: 0 <= j < i ==> s[..i][j] == s[j] && s[j] in s[..i];
  }

  lemma NoColon(a: string)
    requires ':' !in a
    ensures FirstColon(a) == |a|
  {
  }

  lemma PrintRunParses(r: Run)
    requires r.lo <= U32_MAX && r.hi <= U32_MAX
    ensures ',' !in PrintRun(r)
    ensures ParsePart(Trim(PrintRun(r))) == Some(ItemOf(r))
  {
    hide Decimal.Print, Decimal.Parse, IsSpace, Trim;
    var lo, hi, s := Decimal.Print(r.lo), Decimal.Print(r.hi), PrintRun(r);
    DigitsArePlain(r.lo);
    DigitsArePlain(r.hi);
    Decimal.ParsePrint(r.lo, U32_MAX);
    Decimal.ParsePrint(r.hi, U32_MAX);
    if r.lo == r.hi {
      TrimNothing(s);
      NoColon(lo);
    } else {
      assert s[0] == lo[0] && s[|s| - 1] == hi[|hi| - 1];
      TrimNothing(s);
      ColonAt(lo, hi);
      assert s[..|lo|] == lo && s[|lo| + 1..] == hi;
      StarIsNoDigit(r.hi);
    }
  }

  lemma StarIsNoDigit(n: nat)
    ensures Decimal.Print(n) != "*"
  {
    assert Decimal.IsDigit(Decimal.Print(n)[0]);
  }

  lemma {:induction false} PartsParse(runs: seq<Run>)
    requires forall i :: 0 <= i < |runs| ==> runs[i].lo <= U32_MAX && runs[i].hi <= U32_MAX
    ensures ParseParts(PrintRuns(runs)) == Some(ItemsOf(runs))
  {
    hide PrintRun, ParsePart, Trim, ItemOf;
    if runs != [] {
      var front, last := runs[..|runs| - 1], runs[|runs| - 1];
      PartsParse(front);
      PrintRunParses(last);
      assert PrintRuns(runs)[..|runs| - 1] == PrintRuns(front);
      assert ItemsOf(runs) == ItemsOf(front) + [ItemOf(last)];
    } else {
      assert ItemsOf(runs) == [];
    }
  }

  ghost predicate Narrow(runs: seq<Run>) {
    forall i :: 0 <= i < |runs| ==> runs[i].lo <= U32_MAX && runs[i].hi <= U32_MAX
  }

  lemma {:induction false} RunsNarrow(u: seq<nat>)
    requires forall i :: 0 <= i < |u| ==> u[i] <= U32_MAX
    ensures Narrow(Runs(u)) && (u != [] ==> Runs(u) != [])
  {
    if u != [] {
      RunsNarrow(u[RunLength(u)..]);
    }
  }

  lemma ItemsCover(runs: seq<Run>, x: nat)
    ensures Matches(ItemsOf(runs), x) <==> InSomeRun(runs, x)
  {
    assert forall i :: 0 <= i < |runs| ==> (Covers(ItemsOf(runs)[i], x) <==> InRun(runs[i], x));
  }

  lemma PlainRuns(runs: seq<Run>)
    requires Narrow(runs)
    ensures forall i :: 0 <= i < |runs| ==> ',' !in PrintRuns(runs)[i]
  {
    hide PrintRun, ParsePart, Trim, ItemOf;
    forall i | 0 <= i < |runs|
      ensures ',' !in PrintRuns(runs)[i]
    {
      PrintRunParses(runs[i]);
    }
  }

  /** The printed set parses back, and matches exactly the members of the printed list. */
  lemma FormatParsesBack(u: seq<nat>, x: nat)
    requires u != [] && forall i :: 0 <= i < |u| ==> u[i] <= U32_MAX
    ensures var r := ParseSet(Join(PrintRuns(Runs(u)), ",")); r.Some? && (Matches(r.value, x) <==> x in u)
  {
    hide PrintRun, ParseParts, Join, SplitOn, Runs, Matches, InSomeRun;
    var runs := Runs(u);
    RunsNarrow(u);
    PlainRuns(runs);
    SplitJoin(PrintRuns(runs), ',');
    PartsParse(runs);
    ItemsCover(runs, x);
    RunsCover(u, x);
  }

  // ----- What a set means, form by form -----

  /** `n` is that UID, `lo:hi` the ones between, `lo:*` all from there on. */
  lemma PartForms(lo: nat, hi: nat, x: nat)
    requires lo <= U32_MAX && hi <= U32_MAX
    ensures var part := ParsePart(Trim(Decimal.Print(lo)));
            part.Some? && (Covers(part.value, x) <==> x == lo)
    ensures var part := ParsePart(Trim(Decimal.Print(lo) + ":" + Decimal.Print(hi)));
            part.Some? && (Covers(part.value, x) <==> lo <= x <= hi)
    ensures var part := ParsePart(Trim(Decimal.Print(lo) + ":*"));
            part.Some? && (Covers(part.value, x) <==> lo <= x)
  {
    hide Decimal.Print, Decimal.Parse, IsSpace, Trim;
    var a, b := Decimal.Print(lo), Decimal.Print(hi);
    DigitsArePlain(lo);
    DigitsArePlain(hi);
    Decimal.ParsePrint(lo, U32_MAX);
    Decimal.ParsePrint(hi, U32_MAX);
    StarIsNoDigit(hi);
    NoColon(a);
    TrimNothing(a);
    var range, open_ := a + ":" + b, a + ":*";
    assert open_ == a + ":" + "*" && range[0] == a[0] && open_[0] == a[0] && range[|range| - 1] == b[|b| - 1] && open_[|open_| - 1] == '*';
    StarIsNoSpace();
    TrimNothing(range);
    TrimNothing(open_);
    ColonAt(a, b);
    ColonAt(a, "*");
    assert range[..|a|] == a && range[|a| + 1..] == b && open_[..|a|] == a && open_[|a| + 1..] == "*";
  }

  /** A part without a colon is one 32-bit number; a part with one is such a number up to its first
      colon, and then a star or another; nothing else is a part, a lone star included. */
  lemma PartMeaning(lo: string, after: string)
    requires ':' !in lo
    ensures var from, to, whole := Decimal.Parse(lo, 4294967295), Decimal.Parse(after, 4294967295), ParsePart(lo + (":" + after));
            && (whole.Some? <==> from.Some? && (after == "*" || to.Some?))
            && (from.Some? && after == "*" ==> whole == Some(Range(from.value, None)))
            && (from.Some? && to.Some? ==> whole == Some(Range(from.value, to)))
            && (ParsePart(lo).Some? <==> from.Some?) && (from.Some? ==> ParsePart(lo) == Some(Single(from.value)))
    ensures ParsePart("*") == None
  {
    var part := lo + ":" + after;
    assert lo + (":" + after) == part;
    ColonAt(lo, after);
    NoColon(lo);
    assert part[..|lo|] == lo && part[|lo| + 1..] == after;
    hide FirstColon, Decimal.Parse;
    Decimal.ParseMeaning("", 4294967295);
    StarIsNoNumber();
  }

  lemma StarIsNoNumber()
    ensures Decimal.Parse("*", 4294967295) == None && ParsePart("*") == None
  {
    assert !Decimal.IsDigit("*"[0]);
    assert "*"[0] != ':' && "*"[1..] == "";
  }

  lemma StarIsNoSpace()
    ensures !IsSpace('*')
  {
  }

  /** A list of parts is accepted exactly when each part is, and matches what any of them covers. */
  lemma {:induction false} PartsMean(parts: seq<string>, x: nat)
    ensures ParseParts(parts).Some? <==> forall i :: 0 <= i < |parts| ==> ParsePart(Trim(parts[i])).Some?
    ensures ParseParts(parts).Some? ==>
              (Matches(ParseParts(parts).value, x) <==> exists i :: 0 <= i < |parts| && Covers(ParsePart(Trim(parts[i])).value, x))
  {
    hide ParsePart, Trim, Covers;
    if parts != [] {
      var front, n := parts[..|parts| - 1], |parts| - 1;
      PartsMean(front, x);
      assert forall i :: 0 <= i < n ==> front[i] == parts[i];
      if ParseParts(parts).Some? {
        var a, all := ParseParts(front).value, ParseParts(parts).value;
        assert all == a + [all[n]] && forall i :: 0 <= i < n ==> all[i] == a[i];
        assert all[n] == ParsePart(Trim(parts[n])).value;
        if Matches(a, x) {
          var k :| 0 <= k < |a| && Covers(a[k], x);
          assert Covers(all[k], x);
        }
        if Covers(all[n], x) {
          assert Matches(all, x);
        }
      }
    }
  }

  /** A set is its parts between commas, at least one. */
  lemma SetMeans(parts: seq<string>, x: nat)
    requires parts != [] && forall i :: 0 <= i < |parts| ==> ',' !in parts[i]
    ensures var r := ParseSet(Join(parts, ","));
            && (r.Some? <==> forall i :: 0 <= i < |parts| ==> ParsePart(Trim(parts[i])).Some?)
            && (r.Some? ==> (Matches(r.value, x) <==> exists i :: 0 <= i < |parts| && Covers(ParsePart(Trim(parts[i])).value, x)))
  {
    hide ParsePart, Trim, Covers, Join, SplitOn;
    SplitJoin(parts, ',');
    PartsMean(parts, x);
  }
}
