/** Base64 bodies: the encoder that wraps its lines for mail (section 4 of RFC 4648, line length of
    section 6.8 of RFC 2045) and the forgiving decoder. Registers are 32 bits wide, as in the
    server, so the decoder's buffer really does shift old bits out at the top. */
module Base64 {
  import opened Basics

  type Value = n: nat | n < 64

  /** Bits waiting in the decoder's buffer between two characters. */
  type Pending = n: nat | n < 8

  predicate IsLetter(c: char) {
    'A' <= c <= 'Z' || 'a' <= c <= 'z' || '0' <= c <= '9' || c == '+' || c == '/'
  }

  /** Table 1 of RFC 4648. */
  function LetterOf(n: Value): (c: char)
    ensures IsLetter(c) && ValueOf(c) == n
  {
    if n < 26 then ('A' as int + n) as char
    else if n < 52 then ('a' as int + n - 26) as char
    else if n < 62 then ('0' as int + n - 52) as char
    else if n == 62 then '+'
    else '/'
  }

  function ValueOf(c: char): Value
    requires IsLetter(c)
  {
    if 'A' <= c <= 'Z' then c as int - 'A' as int
    else if 'a' <= c <= 'z' then c as int - 'a' as int + 26
    else if '0' <= c <= '9' then c as int - '0' as int + 52
    else if c == '+' then 62
    else 63
  }

  /** The letters in the order of their values. */
  lemma Alphabet(n: Value)
    ensures n < 26 ==> LetterOf(n) == "ABCDEFGHIJKLMNOPQRSTUVWXYZ"[n]
    ensures 26 <= n < 52 ==> LetterOf(n) == "abcdefghijklmnopqrstuvwxyz"[n - 26]
    ensures 52 <= n ==> LetterOf(n) == "0123456789+/"[n - 52]
  {
  }

  lemma LetterCodes(c: char)
    ensures IsLetter(c) <==> 65 <= c as int <= 90 || 97 <= c as int <= 122 || 48 <= c as int <= 57 || c as int in {43, 47}
  {
  }

  lemma SextetFits(v: bv32)
    requires v < 64
    ensures v as int < 64
  {
  }

  function Letter(v: bv32): char
    requires v < 64
  {
    SextetFits(v);
    LetterOf(v as int)
  }

  function Code(c: char): bv32
    requires IsLetter(c)
  {
    ValueOf(c) as bv32
  }

  lemma WordRoundTrip(v: bv32)
    ensures (v as int) as bv32 == v
  {
  }

  lemma CodeOfLetter(v: bv32)
    requires v < 64
    ensures IsLetter(Letter(v)) && Code(Letter(v)) == v
    ensures Letter(v) !in NOISE
  {
    hide LetterOf, ValueOf;
    WordRoundTrip(v);
  }

  // ----- Encoding -----

  /** Three bytes packed into the low 24 bits of a word. */
  function Pack(c0: bv8, c1: bv8, c2: bv8): bv32 {
    (c0 as bv32 << 16) | (c1 as bv32 << 8) | (c2 as bv32)
  }

  function Sextet(n: bv32, k: nat): (v: bv32)
    requires k < 4
    ensures v < 64
  {
    if k == 0 then (n >> 18) & 0x3f
    else if k == 1 then (n >> 12) & 0x3f
    else if k == 2 then (n >> 6) & 0x3f
    else n & 0x3f
  }

  function Quad(n: bv32): string {
    [Letter(Sextet(n, 0)), Letter(Sextet(n, 1)), Letter(Sextet(n, 2)), Letter(Sextet(n, 3))]
  }

  /** The whole groups of three bytes. */
  function Groups(b: seq<bv8>): (s: string)
    requires |b| % 3 == 0
    ensures 3 * |s| == 4 * |b|
  {
    if b == [] then "" else
      var k := |b| - 3;
      Groups(b[..k]) + Quad(Pack(b[k], b[k + 1], b[k + 2]))
  }

  /** The last one or two bytes, padded. */
  function Tail(b: seq<bv8>): string
    requires |b| < 3
  {
    if b == [] then ""
    else if |b| == 1 then Quad(Pack(b[0], 0, 0))[..2] + "=="
    else Quad(Pack(b[0], b[1], 0))[..3] + "="
  }

  function Encode(b: seq<bv8>): (s: string)
    ensures |s| == 4 * ((|b| + 2) / 3)
  {
    var k := |b| - |b| % 3;
    Groups(b[..k]) + Tail(b[k..])
  }

  const LINE: nat := 76
  const CRLF: string := "\r\n"

  function Lines(s: string): (r: seq<string>)
    decreases |s|
  {
    if s == "" then []
    else if |s| <= LINE then [s]
    else [s[..LINE]] + Lines(s[LINE..])
  }

  function Terminated(lines: seq<string>): string {
    if lines == [] then "" else lines[0] + CRLF + Terminated(lines[1..])
  }

  function Concat(lines: seq<string>): string {
    if lines == [] then "" else lines[0] + Concat(lines[1..])
  }

  function Wrapped(b: seq<bv8>): string {
    Terminated(Lines(Encode(b)))
  }

  /** The loop over whole groups. */
  method EncodeGroups(input: seq<bv8>) returns (encoded: string)
    ensures encoded == Groups(input[..|input| / 3 * 3])
  {
    hide Letter, Pack, Sextet;
    encoded := "";
    for i := 0 to |input| / 3
      invariant encoded == Groups(input[..3 * i])
    {
      var k := 3 * i;
      assert input[..k + 3][..k] == input[..k];
      var n := Pack(input[k], input[k + 1], input[k + 2]);
      encoded := encoded + [Letter(Sextet(n, 0)), Letter(Sextet(n, 1)), Letter(Sextet(n, 2)), Letter(Sextet(n, 3))];
    }
  }

  /** `base64_wrapped`. */
  method EncodeWrapped(input: seq<bv8>) returns (out: string)
    ensures out == Wrapped(input)
  {
    hide Letter, Pack, Sextet, Groups, Lines, Terminated;
    var encoded := EncodeGroups(input);
    var rem := input[|input| / 3 * 3..];
    if |rem| == 1 {
      var n := Pack(rem[0], 0, 0);
      encoded := encoded + [Letter(Sextet(n, 0)), Letter(Sextet(n, 1))] + "==";
    } else if |rem| == 2 {
      var n := Pack(rem[0], rem[1], 0);
      encoded := encoded + [Letter(Sextet(n, 0)), Letter(Sextet(n, 1)), Letter(Sextet(n, 2))] + "=";
    }
    assert encoded == Encode(input);
    out := WrapLines(encoded);
  }

  lemma TerminatedCons(line: string, lines: seq<string>)
    ensures Terminated([line] + lines) == line + CRLF + Terminated(lines)
  {
    assert ([line] + lines)[1..] == lines;
  }

  lemma LinesCons(s: string, n: nat)
    requires s != "" && n == if |s| <= LINE then |s| else LINE
    ensures Lines(s) == [s[..n]] + Lines(s[n..])
  {
    assert |s| <= LINE ==> s[..n] == s && s[n..] == "";
  }

  lemma LinesHead(s: string, n: nat)
    requires s != "" && n == if |s| <= LINE then |s| else LINE
    ensures Terminated(Lines(s)) == s[..n] + CRLF + Terminated(Lines(s[n..]))
  {
    hide Lines, Terminated;
    LinesCons(s, n);
    TerminatedCons(s[..n], Lines(s[n..]));
  }

  /** The line-wrapping loop. */
  method WrapLines(encoded: string) returns (out: string)
    ensures out == Terminated(Lines(encoded))
  {
    hide Lines, Terminated;
    out := "";
    var i := 0;
    assert encoded[0..] == encoded && out + Terminated(Lines(encoded)) == Terminated(Lines(encoded));
    while i < |encoded|
      invariant i <= |encoded|
      invariant out + Terminated(Lines(encoded[i..])) == Terminated(Lines(encoded))
      decreases |encoded| - i
    {
      var end := if i + LINE < |encoded| then i + LINE else |encoded|;
      var rest := encoded[i..];
      assert rest[end - i..] == encoded[end..] && rest[..end - i] == encoded[i..end];
      LinesHead(rest, end - i);
      out := out + encoded[i..end] + CRLF;
      i := end;
    }
    NoLines(encoded[i..]);
  }

  lemma NoLines(s: string)
    ensures s == "" ==> Terminated(Lines(s)) == ""
  {
  }

  // ----- Decoding -----

  const NOISE: set<char> := {'=', '\r', '\n', ' '}

  datatype Decoder = Decoder(buf: bv32, bits: Pending, out: seq<bv8>)

  const START := Decoder(0, 0, [])

  function ByteAt(buf: bv32, bits: Pending): bv8 {
    ((buf >> bits) & 0xff) as bv8
  }

  function Push(d: Decoder, v: bv32): Decoder {
    var buf := (d.buf << 6) | v;
    if d.bits + 6 >= 8 then
      var bits := d.bits + 6 - 8;
      Decoder(buf, bits, d.out + [ByteAt(buf, bits)])
    else
      Decoder(buf, d.bits + 6, d.out)
  }

  function Feed(s: string): Option<Decoder> {
    if s == "" then Some(START) else
      var d, c := Feed(s[..|s| - 1]), s[|s| - 1];
      if d.None? || c in NOISE then d
      else if IsLetter(c) then Some(Push(d.value, Code(c)))
      else None
  }

  function Decode(s: string): Option<seq<bv8>> {
    match Feed(s)
    case None => None
    case Some(d) => Some(d.out)
  }

  lemma FeedStep(s: string, i: nat)
    requires i < |s|
    ensures Feed(s[..i + 1]) ==
            var d := Feed(s[..i]);
            if d.None? || s[i] in NOISE then d
            else if IsLetter(s[i]) then Some(Push(d.value, Code(s[i])))
            else None
  {
    hide Push, Code, IsLetter;
    assert s[..i + 1][..i] == s[..i];
  }

  lemma {:induction false} FeedStops(s: string, i: nat)
    requires i <= |s| && Feed(s[..i]) == None
    ensures Feed(s) == None
  {
    hide Push, Code, IsLetter;
    if i == |s| {
      assert s[..i] == s;
    } else {
      assert s[..|s| - 1][..i] == s[..i];
      FeedStops(s[..|s| - 1], i);
    }
  }

  /** The body of the decoder's loop. */
  method Accumulate(buf: bv32, bits: Pending, out: seq<bv8>, v: bv32)
      returns (buf': bv32, bits': Pending, out': seq<bv8>)
    ensures Decoder(buf', bits', out') == Push(Decoder(buf, bits, out), v)
  {
    hide ByteAt;
    buf' := (buf << 6) | v;
    out' := out;
    if bits + 6 >= 8 {
      bits' := bits + 6 - 8;
      out' := out' + [ByteAt(buf', bits')];
    } else {
      bits' := bits + 6;
    }
  }

  /** `sasl_decode_b64`. */
  method DecodeText(s: string) returns (r: Option<seq<bv8>>)
    ensures r == Decode(s)
  {
    hide Code, IsLetter, Feed, Push;
    var out: seq<bv8> := [];
    var buf: bv32 := 0;
    var bits: Pending := 0;
    FeedNothing();
    for i := 0 to |s|
      invariant Feed(s[..i]) == Some(Decoder(buf, bits, out))
    {
      FeedStep(s, i);
      var c := s[i];
      if c in NOISE {
        continue;
      }
      if !IsLetter(c) {
        FeedStops(s, i + 1);
        return None;
      }
      buf, bits, out := Accumulate(buf, bits, out, Code(c));
    }
    assert s[..|s|] == s;
    r := Some(out);
  }

  lemma FeedNothing()
    ensures Feed("") == Some(START)
  {
  }

  // ----- Round trip -----

  /** Padding, line ends and blanks may stand anywhere. */
  lemma {:induction false} FeedIgnoresNoise(s: string)
    ensures Feed(s) == Feed(Without(s, NOISE))
  {
    hide Push, Code, IsLetter, Feed, Without;
    if s == "" {
      NoNoise();
    } else {
      var front, last := s[..|s| - 1], s[|s| - 1];
      FeedIgnoresNoise(front);
      assert s == front + [last];
      WithoutSnoc(front, last, NOISE);
      FeedSnoc(front, last);
      FeedSnoc(Without(front, NOISE), last);
    }
  }

  lemma NoNoise()
    ensures Without("", NOISE) == ""
  {
  }

  /** Decoding refuses exactly the texts with a character that is neither a letter of the alphabet nor
      one of the four that are skipped: '=', carriage return, line feed and space. */
  lemma {:induction false} RefusedIff(s: string)
    ensures Decode(s).None? <==> exists i :: 0 <= i < |s| && Foreign(s[i] as int)
  {
    hide Push, Code, IsLetter;
    if s != "" {
      var front, last := s[..|s| - 1], s[|s| - 1];
      RefusedIff(front);
      assert s == front + [last];
      FeedSnoc(front, last);
      LetterCodes(last);
      if Foreign(last as int) {
        assert Foreign(s[|s| - 1] as int);
      }
      if i :| 0 <= i < |front| && Foreign(front[i] as int) {
        assert Foreign(s[i] as int);
      }
    }
  }

  predicate Foreign(code: int) {
    && !(65 <= code <= 90) && !(97 <= code <= 122) && !(48 <= code <= 57) && code != 43 && code != 47
    && code != 61 && code != 13 && code != 10 && code != 32
  }

  /** Test vectors of section 10 of RFC 4648. */
  lemma Vectors()
    ensures Encode([0x66]) == "Zg==" && Encode([0x66, 0x6f]) == "Zm8=" && Encode([0x66, 0x6f, 0x6f]) == "Zm9v"
  {
    assert Groups([]) == "";
  }

  lemma FeedSnoc(s: string, c: char)
    ensures Feed(s + [c]) ==
            var d := Feed(s);
            if d.None? || c in NOISE then d
            else if IsLetter(c) then Some(Push(d.value, Code(c)))
            else None
  {
    hide Push, Code, IsLetter;
    assert (s + [c])[..|s|] == s;
  }

  lemma {:induction false} TerminatedNoise(lines: seq<string>)
    ensures Without(Terminated(lines), NOISE) == Without(Concat(lines), NOISE)
  {
    if lines != [] {
      var rest := lines[1..];
      TerminatedNoise(rest);
      WithoutAppend(lines[0] + CRLF, Terminated(rest), NOISE);
      WithoutAppend(lines[0], CRLF, NOISE);
      WithoutAppend(lines[0], Concat(rest), NOISE);
      BreakIsNoise();
    }
  }

  lemma BreakIsNoise()
    ensures Without(CRLF, NOISE) == []
  {
    assert CRLF == ['\r'] + ['\n'];
    assert CRLF[..1] == "\r";
  }

  lemma FeedLetter(s: string, v: bv32)
    requires Feed(s).Some? && v < 64
    ensures Feed(s + [Letter(v)]) == Some(Push(Feed(s).value, v))
  {
    hide Push, Code, IsLetter, Letter;
    CodeOfLetter(v);
    assert (s + [Letter(v)])[..|s|] == s;
  }

  lemma FeedNoise(s: string, c: char)
    requires c in NOISE
    ensures Feed(s + [c]) == Feed(s)
  {
    hide Push, Code, IsLetter;
    assert (s + [c])[..|s|] == s;
  }

  /** Four sextets of one packed word give back its three bytes, whatever was left in the buffer. */
  lemma PushQuad(d: Decoder, c0: bv8, c1: bv8, c2: bv8)
    requires d.bits == 0
    ensures var n := Pack(c0, c1, c2);
            var d2 := Push(Push(d, Sextet(n, 0)), Sextet(n, 1));
            var d3 := Push(d2, Sextet(n, 2));
            var d4 := Push(d3, Sextet(n, 3));
            && d2.out == d.out + [c0] && d3.out == d.out + [c0, c1] && d4.out == d.out + [c0, c1, c2]
            && d4.bits == 0
  {
  }

  lemma {:induction false} FeedGroups(b: seq<bv8>)
    requires |b| % 3 == 0
    ensures var d := Feed(Groups(b)); d.Some? && d.value.bits == 0 && d.value.out == b
  {
    hide Feed, Push, Pack, Sextet, Letter;
    if b == [] {
      FeedNothing();
    } else {
      var k := |b| - 3;
      FeedGroups(b[..k]);
      var s, n := Groups(b[..k]), Pack(b[k], b[k + 1], b[k + 2]);
      FeedQuad(s, b[k], b[k + 1], b[k + 2]);
      assert b == b[..k] + [b[k], b[k + 1], b[k + 2]];
    }
  }

  lemma FeedQuad(s: string, c0: bv8, c1: bv8, c2: bv8)
    requires Feed(s).Some? && Feed(s).value.bits == 0
    ensures var q, out := Quad(Pack(c0, c1, c2)), Feed(s).value.out;
            && Feed(s + q[..2]).Some? && Feed(s + q[..2]).value.out == out + [c0]
            && Feed(s + q[..3]).Some? && Feed(s + q[..3]).value.out == out + [c0, c1]
            && Feed(s + q).Some? && Feed(s + q).value.out == out + [c0, c1, c2] && Feed(s + q).value.bits == 0
  {
    hide Feed, Push, Pack, Sextet, Letter;
    var n := Pack(c0, c1, c2);
    var q := Quad(n);
    assert s + q[..1] == s + [q[0]];
    FeedLetter(s, Sextet(n, 0));
    assert s + q[..2] == s + q[..1] + [q[1]];
    FeedLetter(s + q[..1], Sextet(n, 1));
    assert s + q[..3] == s + q[..2] + [q[2]];
    FeedLetter(s + q[..2], Sextet(n, 2));
    assert s + q == s + q[..3] + [q[3]];
    FeedLetter(s + q[..3], Sextet(n, 3));
    PushQuad(Feed(s).value, c0, c1, c2);
  }

  lemma FeedTail(s: string, b: seq<bv8>)
    requires Feed(s).Some? && Feed(s).value.bits == 0 && |b| < 3
    ensures Feed(s + Tail(b)).Some? && Feed(s + Tail(b)).value.out == Feed(s).value.out + b
  {
    hide Feed, Push, Pack, Sextet, Letter;
    if |b| == 1 {
      FeedQuad(s, b[0], 0, 0);
      var t := s + Quad(Pack(b[0], 0, 0))[..2];
      FeedNoise(t, '=');
      FeedNoise(t + "=", '=');
      assert s + Tail(b) == t + "=" + "=";
    } else if |b| == 2 {
      FeedQuad(s, b[0], b[1], 0);
      var t := s + Quad(Pack(b[0], b[1], 0))[..3];
      FeedNoise(t, '=');
      assert s + Tail(b) == t + "=";
    } else {
      assert s + Tail(b) == s;
    }
  }

  /** Decoding a wrapped body gives the bytes back, for every byte string. */
  lemma DecodeOfWrapped(b: seq<bv8>)
    ensures Decode(Wrapped(b)) == Some(b)
  {
    hide Feed, Groups, Tail, Lines, Terminated, Concat, Without;
    var k := |b| - |b| % 3;
    var s := Groups(b[..k]);
    FeedGroups(b[..k]);
    FeedTail(s, b[k..]);
    assert b[..k] + b[k..] == b;
    FeedIgnoresNoise(Encode(b));
    FeedIgnoresNoise(Wrapped(b));
    TerminatedNoise(Lines(Encode(b)));
    LinesLaw(Encode(b));
  }

  // ----- Shape -----

  lemma {:induction false} LinesLaw(s: string)
    ensures Concat(Lines(s)) == s
    ensures |Lines(s)| == (|s| + LINE - 1) / LINE
    ensures forall i :: 0 <= i < |Lines(s)| ==> 1 <= |Lines(s)[i]| <= LINE
    ensures forall i :: 0 <= i < |Lines(s)| - 1 ==> |Lines(s)[i]| == LINE
    decreases |s|
  {
    if |s| > LINE {
      LinesLaw(s[LINE..]);
    }
  }

  lemma {:induction false} TerminatedLength(lines: seq<string>)
    ensures |Terminated(lines)| == |Concat(lines)| + 2 * |lines|
  {
    if lines != [] {
      TerminatedLength(lines[1..]);
    }
  }

  /** The body is CRLF-terminated lines, all of exactly 76 characters but the last, which is not
      longer; four characters stand for every three bytes begun, and two more end each line. */
  lemma WrappedShape(b: seq<bv8>)
    ensures var lines := Lines(Encode(b));
            && Wrapped(b) == Terminated(lines)
            && (forall i :: 0 <= i < |lines| - 1 ==> |lines[i]| == 76)
            && (lines != [] ==> |lines[|lines| - 1]| <= 76)
            && |Wrapped(b)| == 4 * ((|b| + 2) / 3) + 2 * |lines|
            && |lines| == (4 * ((|b| + 2) / 3) + 75) / 76
  {
    hide Lines, Terminated, Concat;
    LinesLaw(Encode(b));
    TerminatedLength(Lines(Encode(b)));
  }
}
