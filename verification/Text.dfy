/** Joining, splitting and trimming of strings, as the standard library does them. */
module Text {

  function Join(parts: seq<string>, sep: string): string {
    if parts == [] then ""
    else if |parts| == 1 then parts[0]
    else Join(parts[..|parts| - 1], sep) + sep + parts[|parts| - 1]
  }

  lemma JoinOne(s: string, sep: string)
    ensures Join([s], sep) == s
  {
  }

  lemma {:induction false} JoinAppend(a: seq<string>, b: seq<string>, sep: string)
    requires a != [] && b != []
    ensures Join(a + b, sep) == Join(a, sep) + sep + Join(b, sep)
  {
    var front, last := b[..|b| - 1], b[|b| - 1];
    assert (a + b)[..|a + b| - 1] == a + front && (a + b)[|a + b| - 1] == last;
    if front == [] {
      assert a + front == a;
    } else {
      JoinAppend(a, front, sep);
      assert Join(a + b, sep) == (Join(a, sep) + sep + Join(front, sep)) + sep + last;
    }
  }

  /** The pieces between the separators; always at least one. */
  function SplitOn(s: string, c: char): (r: seq<string>)
    ensures r != []
  {
    if s == "" then [""] else
      var front, last := SplitOn(s[..|s| - 1], c), s[|s| - 1];
      if last == c then front + [""] else front[..|front| - 1] + [front[|front| - 1] + [last]]
  }

  lemma {:induction false} SplitAppendPlain(s: string, t: string, c: char)
    requires c !in t
    ensures var front := SplitOn(s, c);
            SplitOn(s + t, c) == front[..|front| - 1] + [front[|front| - 1] + t]
  {
    var front := SplitOn(s, c);
    if t == "" {
      assert s + t == s;
      assert front[|front| - 1] + t == front[|front| - 1];
    } else {
      var t', last := t[..|t| - 1], t[|t| - 1];
      assert last in t;
      assert (s + t)[..|s + t| - 1] == s + t' && (s + t)[|s + t| - 1] == last;
      SplitAppendPlain(s, t', c);
      assert (front[|front| - 1] + t') + [last] == front[|front| - 1] + t;
    }
  }

  lemma SplitAfterSep(s: string, c: char)
    ensures SplitOn(s + [c], c) == SplitOn(s, c) + [""]
  {
    assert (s + [c])[..|s|] == s;
  }

  /** Splitting undoes joining when no piece contains the separator. */
  lemma {:induction false} SplitJoin(parts: seq<string>, c: char)
    requires parts != [] && forall i :: 0 <= i < |parts| ==> c !in parts[i]
    ensures SplitOn(Join(parts, [c]), c) == parts
  {
    var front, last := parts[..|parts| - 1], parts[|parts| - 1];
    if front == [] {
      assert "" + last == last;
      SplitAppendPlain("", last, c);
      assert SplitOn("", c) == [""];
    } else {
      var s := Join(front, [c]);
      SplitJoin(front, c);
      SplitAfterSep(s, c);
      SplitAppendPlain(s + [c], last, c);
      assert "" + last == last;
    }
    assert parts == front + [last];
  }

  /** Unicode White_Space. */
  predicate IsSpace(c: char) {
    || '\t' <= c <= '\r' || c == ' ' || c == '\U{85}' || c == '\U{A0}' || c == '\U{1680}'
    || '\U{2000}' <= c <= '\U{200A}' || c == '\U{2028}' || c == '\U{2029}' || c == '\U{202F}'
    || c == '\U{205F}' || c == '\U{3000}'
  }

  function TrimStart(s: string): string {
    if s != "" && IsSpace(s[0]) then TrimStart(s[1..]) else s
  }

  function TrimEnd(s: string): string {
    if s != "" && IsSpace(s[|s| - 1]) then TrimEnd(s[..|s| - 1]) else s
  }

  function Trim(s: string): string {
    TrimEnd(TrimStart(s))
  }

  predicate AllSpaces(s: string) {
    forall i :: 0 <= i < |s| ==> IsSpace(s[i])
  }

  /** Trimming takes off white space at both ends, and all of it. */
  lemma TrimMeaning(s: string)
    ensures exists a, b :: AllSpaces(a) && AllSpaces(b) && s == a + Trim(s) + b
    ensures Trim(s) != "" ==> !IsSpace(Trim(s)[0]) && !IsSpace(Trim(s)[|Trim(s)| - 1])
  {
    hide IsSpace;
    var a := TrimStartMeaning(s);
    var t := TrimStart(s);
    var b := TrimEndMeaning(t);
    assert s == a + Trim(s) + b;
    assert Trim(s) != "" ==> Trim(s)[0] == t[0];
  }

  lemma {:induction false} TrimStartMeaning(s: string) returns (a: string)
    ensures AllSpaces(a) && s == a + TrimStart(s)
    ensures TrimStart(s) != "" ==> !IsSpace(TrimStart(s)[0])
  {
    hide IsSpace;
    a := "";
    if s != "" && IsSpace(s[0]) {
      var rest := TrimStartMeaning(s[1..]);
      a := [s[0]] + rest;
      assert s == [s[0]] + s[1..];
    }
  }

  lemma {:induction false} TrimEndMeaning(s: string) returns (b: string)
    ensures AllSpaces(b) && s == TrimEnd(s) + b
    ensures TrimEnd(s) != "" ==> !IsSpace(TrimEnd(s)[|TrimEnd(s)| - 1])
  {
    hide IsSpace;
    b := "";
    if s != "" && IsSpace(s[|s| - 1]) {
      var rest := TrimEndMeaning(s[..|s| - 1]);
      b := rest + [s[|s| - 1]];
      assert s == s[..|s| - 1] + [s[|s| - 1]];
    }
  }

  /** The code points of Unicode White_Space. */
  lemma SpaceCodes(c: char)
    ensures IsSpace(c) <==> c as int in {0x9, 0xA, 0xB, 0xC, 0xD, 0x20, 0x85, 0xA0, 0x1680, 0x2000, 0x2001, 0x2002, 0x2003,
                                         0x2004, 0x2005, 0x2006, 0x2007, 0x2008, 0x2009, 0x200A, 0x2028, 0x2029, 0x202F, 0x205F, 0x3000}
  {
  }
}
