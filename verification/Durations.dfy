/** ISO 8601 durations as the calendar surface prints and reads them. Seconds are signed 64-bit
    integers in the server; every intermediate value is shown to stay in range. */
module Durations {
  import opened Basics
  import Decimal

  const DAY := 86400
  const HOUR := 3600
  const MINUTE := 60

  /** `<n><unit>`, or nothing for zero. */
  function Part(n: nat, unit: char): string {
    if n == 0 then "" else Decimal.Print(n) + [unit]
  }

  function Clock(secs: nat): string {
    Part(secs / HOUR, 'H') + Part(secs % HOUR / MINUTE, 'M') + Part(secs % MINUTE, 'S')
  }

  function Format(secs: int): string {
    if secs <= 0 then "PT0S"
    else "P" + Part(secs / DAY, 'D') + (if secs % DAY == 0 then "" else "T" + Clock(secs % DAY))
  }

  /** `format_duration_iso8601`. */
  method FormatDuration(s: int) returns (out: string)
    ensures out == Format(s)
  {
    hide Part, Clock;
    var secs := s;
    if secs <= 0 {
      return "PT0S";
    }
    out := "P";
    var days := secs / DAY;
    PartIs(days, 'D');
    if days > 0 {
      out := out + (Decimal.Print(days) + "D");
      secs := secs % DAY;
    }
    assert out == "P" + Part(s / DAY, 'D') && secs == s % DAY;
    if secs > 0 {
      out := out + "T";
      var clock := FormatClock(secs);
      out := out + clock;
    }
  }

  /** The time-of-day part. */
  method FormatClock(s: nat) returns (out: string)
    ensures out == Clock(s)
  {
    hide Part;
    var secs := s;
    out := "";
    var hours := secs / HOUR;
    PartIs(hours, 'H');
    if hours > 0 {
      out := out + (Decimal.Print(hours) + "H");
      secs := secs % HOUR;
    }
    assert out == Part(s / HOUR, 'H') && secs == s % HOUR;
    var minutes := secs / MINUTE;
    PartIs(minutes, 'M');
    if minutes > 0 {
      out := out + (Decimal.Print(minutes) + "M");
      secs := secs % MINUTE;
    }
    MinuteOfHour(s);
    assert out == Part(s / HOUR, 'H') + Part(s % HOUR / MINUTE, 'M') && secs == s % MINUTE;
    PartIs(secs, 'S');
    if secs > 0 {
      out := out + (Decimal.Print(secs) + "S");
    }
  }

  lemma PartIs(n: nat, unit: char)
    ensures Part(n, unit) == if n == 0 then "" else Decimal.Print(n) + [unit]
  {
  }

  lemma Quotient(s: nat, q: nat, r: nat)
    requires s == 60 * q + r && r < 60
    ensures s / 60 == q && s % 60 == r
  {
  }

  lemma MinuteOfHour(s: nat)
    ensures s % HOUR % MINUTE == s % MINUTE
  {
    var q, r := s / 3600, s % 3600;
    Quotient(s, 60 * q + r / 60, r % 60);
  }

  // ----- Parsing -----

  datatype Reader = Reader(total: I64, inTime: bool, buf: string)

  const START := Reader(0, false, "")

  /** Seconds a unit letter stands for at this point, 0 when it is not a unit here. */
  function Weight(c: char, inTime: bool): nat {
    if c == 'W' then 7 * DAY
    else if c == 'D' then DAY
    else if c == 'H' && inTime then HOUR
    else if c == 'M' && inTime then MINUTE
    else if c == 'S' && inTime then 1
    else 0
  }

  /** The number read so far; a buffer that is not one counts for nothing. */
  function Amount(buf: string): nat {
    match Decimal.Parse(buf, I64_MAX)
    case None => 0
    case Some(n) => n
  }

  /** What a unit letter adds; weeks are multiplied out in two steps. */
  function Earned(buf: string, c: char, inTime: bool): I64 {
    if c == 'W' then Wrap(Wrap(Amount(buf) * 7) * DAY) else Wrap(Amount(buf) * Weight(c, inTime))
  }

  function Step(r: Reader, c: char): Reader {
    if c == 'T' then r.(inTime := true)
    else if Weight(c, r.inTime) > 0 then Reader(Wrap(r.total + Earned(r.buf, c, r.inTime)), r.inTime, "")
    else if Decimal.IsDigit(c) then r.(buf := r.buf + [c])
    else r
  }

  function Read(s: string): Reader {
    if s == "" then START else Step(Read(s[..|s| - 1]), s[|s| - 1])
  }

  function Parse(s: string): I64 {
    Read(s).total
  }

  /** `parse_iso8601_duration`. */
  method ParseDuration(s: string) returns (total: I64)
    ensures total == Parse(s)
  {
    hide Decimal.Parse, Wrap;
    total := 0;
    var inTime := false;
    var buf := "";
    for i := 0 to |s|
      invariant Read(s[..i]) == Reader(total, inTime, buf)
    {
      assert s[..i + 1][..i] == s[..i];
      total, inTime, buf := Take(total, inTime, buf, s[i]);
    }
    assert s[..|s|] == s;
  }

  /** The body of the loop: one arm per character. */
  method Take(total: I64, inTime: bool, buf: string, ch: char) returns (total': I64, inTime': bool, buf': string)
    ensures Reader(total', inTime', buf') == Step(Reader(total, inTime, buf), ch)
  {
    hide Earned, Wrap;
    total', inTime', buf' := total, inTime, buf;
    if ch == 'P' {
    } else if ch == 'T' {
      inTime' := true;
    } else if ch == 'W' || ch == 'D' || (inTime && (ch == 'H' || ch == 'M' || ch == 'S')) {
      total' := Add(total, buf, ch, inTime);
      buf' := "";
    } else if Decimal.IsDigit(ch) {
      buf' := buf + [ch];
    }
  }

  /** The arm of a unit letter: a buffer that is no number adds nothing. */
  method Add(total: I64, buf: string, unit: char, inTime: bool) returns (total': I64)
    requires Weight(unit, inTime) > 0
    ensures total' == Wrap(total + Earned(buf, unit, inTime))
  {
    hide Wrap, Weight;
    total' := total;
    var n := Decimal.Parse(buf, I64_MAX);
    if n.Some? {
      var product := if unit == 'W' then Wrap(Wrap(n.value * 7) * DAY) else Wrap(n.value * Weight(unit, inTime));
      total' := Wrap(total' + product);
    } else {
      assert Amount(buf) * Weight(unit, inTime) == 0;
    }
  }

  // ----- Round trip -----

  /** The arithmetic done on reading `c` here stays within `limit`. */
  ghost predicate FitsUnder(r: Reader, c: char, limit: nat) {
    var product := Amount(r.buf) * Weight(c, r.inTime);
    product <= limit && r.total + product <= limit
  }

  /** Reading `text` from here adds `secs` to the total without passing `limit`, and leaves the
      buffer empty. */
  ghost predicate Reads(before: string, text: string, secs: nat, limit: nat) {
    var r := Read(before);
    && r.total + secs <= limit <= I64_MAX
    && Read(before + text) == r.(total := r.total + secs)
    && forall i :: 0 <= i < |text| ==> FitsUnder(Read(before + text[..i]), text[i], limit)
  }

  lemma ReadSnoc(s: string, c: char)
    ensures Read(s + [c]) == Step(Read(s), c)
  {
    assert (s + [c])[..|s|] == s;
  }

  lemma StepDigit(r: Reader, c: char)
    requires Decimal.IsDigit(c)
    ensures Step(r, c) == r.(buf := r.buf + [c])
  {
  }

  lemma {:induction false} ReadDigits(before: string, digits: string)
    requires Decimal.AllDigits(digits)
    ensures Read(before + digits) == Read(before).(buf := Read(before).buf + digits)
  {
    hide Read, Step;
    var r := Read(before);
    if digits == "" {
      assert before + digits == before && r.buf + digits == r.buf;
    } else {
      var front, last := digits[..|digits| - 1], digits[|digits| - 1];
      ReadDigits(before, front);
      ReadSnoc(before + front, last);
      assert before + front + [last] == before + digits;
      assert r.buf + front + [last] == r.buf + digits;
      StepDigit(Read(before + front), last);
    }
  }

  lemma WeightlessFits(r: Reader, c: char, limit: nat)
    requires Weight(c, r.inTime) == 0 && r.total <= limit
    ensures FitsUnder(r, c, limit)
  {
    hide Weight;
    assert Amount(r.buf) * 0 == 0;
  }

  /** One `<n><unit>` read after an empty buffer. */
  lemma ReadsUnit(before: string, n: nat, unit: char, limit: nat)
    requires Read(before).buf == "" && unit in {'W', 'D', 'H', 'M', 'S'} && (unit in {'W', 'D'} || Read(before).inTime)
    requires Read(before).total + n * Weight(unit, Read(before).inTime) <= limit <= I64_MAX && 0 <= Read(before).total
    ensures Reads(before, Decimal.Print(n) + [unit], n * Weight(unit, Read(before).inTime), limit)
  {
    hide Read, Decimal.Print, Decimal.Parse, Wrap, Step, FitsUnder;
    var digits, r := Decimal.Print(n), Read(before);
    var text := digits + [unit];
    ReadDigits(before, digits);
    ReadSnoc(before + digits, unit);
    assert before + digits + [unit] == before + text;
    assert "" + digits == digits;
    WeightIsAtLeastOne(n, Weight(unit, r.inTime));
    Decimal.ParsePrint(n, I64_MAX);
    StepUnit(r.(buf := digits), n, unit, limit);
    forall i | 0 <= i < |text|
      ensures FitsUnder(Read(before + text[..i]), text[i], limit)
    {
      if i < |digits| {
        assert text[..i] == digits[..i] && Decimal.IsDigit(digits[i]);
        ReadDigits(before, digits[..i]);
        WeightlessFits(Read(before + text[..i]), text[i], limit);
      } else {
        assert text[..i] == digits;
      }
    }
  }

  lemma StepUnit(r: Reader, n: nat, unit: char, limit: nat)
    requires unit in {'W', 'D', 'H', 'M', 'S'} && (unit in {'W', 'D'} || r.inTime) && Amount(r.buf) == n
    requires 0 <= r.total && r.total + n * Weight(unit, r.inTime) <= limit <= I64_MAX
    ensures Step(r, unit) == Reader(r.total + n * Weight(unit, r.inTime), r.inTime, "") && FitsUnder(r, unit, limit)
  {
    hide Amount, Wrap;
    if unit == 'W' {
      WeeksFit(n);
    }
  }

  lemma WeeksFit(n: nat)
    ensures n * (7 * DAY) == n * 7 * DAY && n * 7 <= n * 7 * DAY
  {
  }

  lemma ReadsPart(before: string, n: nat, unit: char, limit: nat)
    requires Read(before).buf == "" && unit in {'D', 'H', 'M', 'S'} && (unit == 'D' || Read(before).inTime)
    requires Read(before).total + n * Weight(unit, Read(before).inTime) <= limit <= I64_MAX && 0 <= Read(before).total
    ensures Reads(before, Part(n, unit), n * Weight(unit, Read(before).inTime), limit)
  {
    hide Read, Decimal.Print, FitsUnder;
    if n == 0 {
      assert before + Part(n, unit) == before;
    } else {
      ReadsUnit(before, n, unit, limit);
    }
  }

  lemma WeightIsAtLeastOne(n: nat, w: nat)
    requires w > 0
    ensures n <= n * w
  {
  }

  lemma ReadsThen(before: string, a: string, m: nat, b: string, n: nat, limit: nat)
    requires Reads(before, a, m, limit) && Reads(before + a, b, n, limit)
    ensures Reads(before, a + b, m + n, limit)
  {
    hide Read, FitsUnder;
    assert before + a + b == before + (a + b);
    forall i | 0 <= i < |a + b|
      ensures FitsUnder(Read(before + (a + b)[..i]), (a + b)[i], limit)
    {
      if i < |a| {
        assert (a + b)[..i] == a[..i];
      } else {
        assert before + (a + b)[..i] == before + a + b[..i - |a|];
      }
    }
  }

  lemma ClockSplits(secs: nat)
    ensures secs / HOUR * HOUR + secs % HOUR / MINUTE * MINUTE + secs % MINUTE == secs
  {
    MinuteOfHour(secs);
  }

  lemma ClockWeights()
    ensures Weight('H', true) == HOUR && Weight('M', true) == MINUTE && Weight('S', true) == 1
  {
  }

  lemma ReadsClockParts(before: string, h: nat, m: nat, s: nat, limit: nat)
    requires Read(before).buf == "" && Read(before).inTime && 0 <= Read(before).total
    requires Read(before).total + h * HOUR + m * MINUTE + s <= limit <= I64_MAX
    ensures Reads(before, Part(h, 'H') + Part(m, 'M') + Part(s, 'S'), h * HOUR + m * MINUTE + s, limit)
  {
    hide Read, FitsUnder, Part, Amount, Weight;
    ClockWeights();
    var first := Part(h, 'H');
    ReadsPart(before, h, 'H', limit);
    var second := first + Part(m, 'M');
    assert before + second == before + first + Part(m, 'M');
    ReadsPart(before + first, m, 'M', limit);
    ReadsThen(before, first, h * HOUR, Part(m, 'M'), m * MINUTE, limit);
    ReadsPart(before + second, s, 'S', limit);
    ReadsThen(before, second, h * HOUR + m * MINUTE, Part(s, 'S'), s, limit);
  }

  lemma ReadsClock(before: string, secs: nat, limit: nat)
    requires Read(before).buf == "" && Read(before).inTime && 0 <= Read(before).total
    requires Read(before).total + secs <= limit <= I64_MAX
    ensures Reads(before, Clock(secs), secs, limit)
  {
    hide Read, Reads, Part;
    ClockSplits(secs);
    ReadsClockParts(before, secs / HOUR, secs % HOUR / MINUTE, secs % MINUTE, limit);
  }

  lemma ReadsLetter(before: string, c: char, limit: nat)
    requires c == 'P' || c == 'T'
    requires 0 <= Read(before).total <= limit
    ensures Read(before + [c]) == if c == 'T' then Read(before).(inTime := true) else Read(before)
    ensures FitsUnder(Read(before), c, limit)
  {
    hide Read, FitsUnder, Amount, Earned;
    ReadSnoc(before, c);
    WeightlessFits(Read(before), c, limit);
  }

  /** The whole arithmetic of reading `s` stays within `limit`. */
  ghost predicate NeverPasses(s: string, limit: nat) {
    forall i :: 0 <= i < |s| ==> FitsUnder(Read(s[..i]), s[i], limit)
  }

  lemma NeverPassesThen(s: string, text: string, secs: nat, limit: nat)
    requires NeverPasses(s, limit) && Reads(s, text, secs, limit)
    ensures NeverPasses(s + text, limit)
  {
    hide Read, FitsUnder;
    forall i | 0 <= i < |s + text|
      ensures FitsUnder(Read((s + text)[..i]), (s + text)[i], limit)
    {
      if i < |s| {
        assert (s + text)[..i] == s[..i];
      } else {
        assert (s + text)[..i] == s + text[..i - |s|];
      }
    }
  }

  lemma NeverPassesSnoc(s: string, c: char, limit: nat)
    requires NeverPasses(s, limit) && FitsUnder(Read(s), c, limit)
    ensures NeverPasses(s + [c], limit)
  {
    hide Read, FitsUnder;
    forall i | 0 <= i < |s + [c]|
      ensures FitsUnder(Read((s + [c])[..i]), (s + [c])[i], limit)
    {
      assert (s + [c])[..i] == s[..i];
      assert s[..|s|] == s;
    }
  }

  /** Reading back a printed duration gives the duration, negative ones counting as zero; every
      product and every running total on the way is at most the duration itself, so nothing wraps. */
  lemma ParseOfFormat(s: int)
    requires s <= I64_MAX
    ensures var d := if s > 0 then s else 0;
            Parse(Format(s)) == d && NeverPasses(Format(s), d)
  {
    hide Read, FitsUnder, Part, Clock, NeverPasses, Reads;
    if s > 0 {
      ParsePositive(s);
    } else {
      ParseZero();
    }
  }

  lemma ParseZero()
    ensures Parse("PT0S") == 0 && NeverPasses("PT0S", 0)
  {
    hide Read, FitsUnder, Amount, Earned, NeverPasses;
    ReadsHead(0);
    ReadsLetter("P", 'T', 0);
    assert "P" + ['T'] == "PT";
    NeverPassesSnoc("P", 'T', 0);
    AmountOfZero();
    ReadSnoc("PT", '0');
    assert "PT" + ['0'] == "PT0" && "" + ['0'] == "0";
    WeightlessFits(Read("PT"), '0', 0);
    NeverPassesSnoc("PT", '0', 0);
    ReadSnoc("PT0", 'S');
    assert "PT0" + ['S'] == "PT0S";
    NeverPassesSnoc("PT0", 'S', 0);
  }

  lemma AmountOfZero()
    ensures Amount("0") == 0 && Earned("0", 'S', true) == 0
    ensures FitsUnder(Reader(0, true, "0"), 'S', 0)
  {
    Decimal.ParsePrint(0, I64_MAX);
    assert Decimal.Print(0) == "0";
  }

  lemma NothingAdded(s: string)
    ensures s + "" == s
  {
  }

  lemma ParsePositive(s: nat)
    requires 0 < s <= I64_MAX
    ensures Parse(Format(s)) == s && NeverPasses(Format(s), s)
  {
    hide Read, FitsUnder, Part, Clock, NeverPasses;
    var days, clock := Part(s / DAY, 'D'), Clock(s % DAY);
    ReadsHead(s);
    ReadsPart("P", s / DAY, 'D', s);
    var date := "P" + days;
    NeverPassesThen("P", days, s / DAY * DAY, s);
    if s % DAY == 0 {
      NothingAdded(date);
    } else {
      var dateT := date + ['T'];
      ReadsLetter(date, 'T', s);
      NeverPassesSnoc(date, 'T', s);
      ReadsClock(dateT, s % DAY, s);
      NeverPassesThen(dateT, clock, s % DAY, s);
      assert Format(s) == dateT + clock;
    }
  }

  lemma ReadsHead(limit: nat)
    ensures Read("P") == START && NeverPasses("P", limit)
  {
    assert "P"[..0] == "";
  }

  // ----- In seconds -----

  /** Every character, after any text read before: a unit letter adds the buffered number of its
      units, modulo 2^64, and clears the buffer; hours, minutes and seconds are units only after a
      T; a digit joins the buffer; anything else, P included, is skipped. */
  lemma StepMeaning(r: Reader, c: char)
    requires Decimal.AllDigits(r.buf)
    ensures var t, secs := Step(r, c), UnitLength(c, r.inTime);
            && Decimal.AllDigits(t.buf)
            && (secs > 0 ==> t.buf == "" && t.inTime == r.inTime && Congruent(r.total + Buffered(r.buf) * secs, t.total))
            && (c == 'T' ==> t == r.(inTime := true))
            && ('0' <= c <= '9' ==> t == r.(buf := r.buf + [c]))
            && (secs == 0 && c != 'T' && !('0' <= c <= '9') ==> t == r)
  {
    hide Amount, Buffered, Congruent, Wrap, Earned;
    AmountIs(r.buf);
    var secs := UnitLength(c, r.inTime);
    if secs > 0 {
      var earned := Earned(r.buf, c, r.inTime);
      EarnedMeaning(r.buf, c, r.inTime);
      WrapsTo(r.total + earned);
      CongruentPlus(Buffered(r.buf) * secs, earned, r.total);
      CongruentTrans(r.total + Buffered(r.buf) * secs, r.total + earned, Wrap(r.total + earned));
    }
  }

  lemma EarnedMeaning(buf: string, c: char, inTime: bool)
    requires Decimal.AllDigits(buf) && UnitLength(c, inTime) > 0
    ensures Congruent(Buffered(buf) * UnitLength(c, inTime), Earned(buf, c, inTime))
  {
    hide Amount, Buffered, Congruent, Wrap;
    AmountIs(buf);
    var n := Buffered(buf);
    if c == 'W' {
      WrapsTo(n * 7);
      WrapsTo(Wrap(n * 7) * DAY);
      CongruentTimes(n * 7, Wrap(n * 7), DAY);
      CongruentTrans(n * 7 * DAY, Wrap(n * 7) * DAY, Earned(buf, c, inTime));
      WeeksFit(n);
    } else {
      WrapsTo(n * UnitLength(c, inTime));
    }
  }

  lemma {:induction false} BufferHoldsDigits(s: string)
    ensures Decimal.AllDigits(Read(s).buf)
  {
    hide Step;
    if s != "" {
      BufferHoldsDigits(s[..|s| - 1]);
      StepMeaning(Read(s[..|s| - 1]), s[|s| - 1]);
    }
  }

  /** Seconds in a unit, 0 where the letter is not one. */
  function UnitLength(c: char, inTime: bool): nat {
    if c == 'W' then 604800
    else if c == 'D' then 86400
    else if inTime then (if c == 'H' then 3600 else if c == 'M' then 60 else if c == 'S' then 1 else 0)
    else 0
  }

  /** A buffer of digits as a number; an empty one, and one that does not fit 63 bits, count for nothing. */
  function Buffered(buf: string): nat
    requires Decimal.AllDigits(buf)
  {
    if buf != "" && Decimal.Value(buf) <= 9223372036854775807 then Decimal.Value(buf) else 0
  }

  lemma AmountIs(buf: string)
    requires Decimal.AllDigits(buf)
    ensures Amount(buf) == Buffered(buf)
  {
    hide Decimal.Value;
    assert buf != "" ==> Decimal.IsDigit(buf[0]);
  }

  ghost predicate Congruent(a: int, b: int) {
    (a - b) % 18446744073709551616 == 0
  }

  lemma WrapsTo(x: int)
    ensures Congruent(x, Wrap(x))
  {
    WrapMeaning(x);
  }

  lemma CongruentPlus(a: int, b: int, c: int)
    requires Congruent(a, b)
    ensures Congruent(c + a, c + b)
  {
  }

  lemma CongruentTrans(a: int, b: int, c: int)
    requires Congruent(a, b) && Congruent(b, c)
    ensures Congruent(a, c)
  {
  }

  lemma CongruentTimes(a: int, b: int, n: nat)
    requires Congruent(a, b)
    ensures Congruent(a * n, b * n)
  {
    var k := (a - b) / 18446744073709551616;
    assert a - b == k * 18446744073709551616;
    Regroup(a, b, n, k);
  }

  lemma Regroup(a: int, b: int, n: nat, k: int)
    requires a - b == k * 18446744073709551616
    ensures a * n - b * n == (k * n) * 18446744073709551616
  {
    assert a * n - b * n == (a - b) * n;
  }

  /** One unit after a buffer that is empty, by its length in seconds. */
  lemma AddsUnit(before: string, total: nat, inTime: bool, n: nat, unit: char, secs: nat)
    requires total + n * secs <= I64_MAX && Read(before) == Reader(total, inTime, "")
    requires (unit, secs) in {('W', 604800), ('D', 86400)}
             || (inTime && (unit, secs) in {('H', 3600), ('M', 60), ('S', 1)})
    ensures Read(before + (Decimal.Print(n) + [unit])) == Reader(total + n * secs, inTime, "")
  {
    hide Read, Decimal.Print, FitsUnder;
    ReadsUnit(before, n, unit, I64_MAX);
  }

  /** What a duration written with every unit stands for, leading zeros and zero parts included. */
  lemma EveryUnit(w: nat, d: nat, h: nat, m: nat, s: nat)
    requires w * 604800 + d * 86400 + h * 3600 + m * 60 + s <= I64_MAX
    ensures Parse("P" + (Decimal.Print(w) + "W") + (Decimal.Print(d) + "D") + ['T']
                  + (Decimal.Print(h) + "H") + (Decimal.Print(m) + "M") + (Decimal.Print(s) + "S"))
            == w * 604800 + d * 86400 + h * 3600 + m * 60 + s
  {
    hide Read, Decimal.Print, FitsUnder, NeverPasses;
    ReadsHead(0);
    AddsUnit("P", 0, false, w, 'W', 604800);
    var date := "P" + (Decimal.Print(w) + "W");
    AddsUnit(date, w * 604800, false, d, 'D', 86400);
    ReadsTime(date + (Decimal.Print(d) + "D"), w * 604800 + d * 86400, h, m, s);
  }

  lemma ReadsTime(date: string, days: nat, h: nat, m: nat, s: nat)
    requires days + h * 3600 + m * 60 + s <= I64_MAX && Read(date) == Reader(days, false, "")
    ensures Parse(date + ['T'] + (Decimal.Print(h) + "H") + (Decimal.Print(m) + "M") + (Decimal.Print(s) + "S"))
            == days + h * 3600 + m * 60 + s
  {
    hide Read, Decimal.Print, FitsUnder;
    ReadsLetter(date, 'T', days);
    var hours := date + ['T'];
    AddsUnit(hours, days, true, h, 'H', 3600);
    var minutes := hours + (Decimal.Print(h) + "H");
    AddsUnit(minutes, days + h * 3600, true, m, 'M', 60);
    AddsUnit(minutes + (Decimal.Print(m) + "M"), days + h * 3600 + m * 60, true, s, 'S', 1);
  }

  /** What is printed for a positive duration: its days and what is left of a day; zero parts are left
      out, and so is the T before nothing. */
  lemma FormatMeaning(d: nat, t: nat)
    requires t < 86400 && d + t > 0
    ensures Format(d * 86400 + t) ==
            "P" + (if d == 0 then "" else Decimal.Print(d) + ['D']) + (if t == 0 then "" else "T" + Clock(t))
  {
    hide Part, Clock, Decimal.Print;
    PartIs(d, 'D');
    Digits(d, 86400, t);
  }

  /** The time of day: hours, minutes and seconds, zero ones left out. */
  lemma ClockMeaning(h: nat, m: nat, s: nat)
    requires m < 60 && s < 60
    ensures Clock(h * 3600 + m * 60 + s) ==
            (if h == 0 then "" else Decimal.Print(h) + ['H'])
            + (if m == 0 then "" else Decimal.Print(m) + ['M'])
            + (if s == 0 then "" else Decimal.Print(s) + ['S'])
  {
    hide Part, Decimal.Print;
    PartIs(h, 'H');
    PartIs(m, 'M');
    PartIs(s, 'S');
    ClockDigits(h, m, s);
  }

  lemma ClockDigits(h: nat, m: nat, s: nat)
    requires m < 60 && s < 60
    ensures var t := h * 3600 + m * 60 + s; t / 3600 == h && t % 3600 / 60 == m && t % 60 == s
  {
    Digits(h, 3600, m * 60 + s);
    Digits(m, 60, s);
    Digits(60 * h + m, 60, s);
    assert h * 3600 + m * 60 + s == (60 * h + m) * 60 + s;
  }

  lemma Digits(q: nat, n: nat, r: nat)
    requires r < n
    ensures (q * n + r) / n == q && (q * n + r) % n == r
  {
    var a, b := (q * n + r) / n, (q * n + r) % n;
    assert a * n + b == q * n + r;
    assert (a - q) * n == r - b;
    SmallMultiple(a - q, n);
  }

  lemma SmallMultiple(k: int, n: int)
    requires -n < k * n < n
    ensures k == 0
  {
  }
}
