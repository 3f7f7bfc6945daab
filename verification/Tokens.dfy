/** State tokens: the bare seed for counter 0, `{seed}.{counter}` afterwards. */
module Tokens {
  import opened Basics
  import Decimal

  function Token(seed: string, n: nat): string {
    if n == 0 then seed else seed + "." + Decimal.Print(n)
  }

  lemma TokenZero(seed: string)
    ensures Token(seed, 0) == seed
  {
  }

  /** Index of the last `c` in `s`, or `|s|` when there is none. */
  function LastIndexOf(s: string, c: char): (i: nat)
    ensures i <= |s|
    ensures i < |s| ==> s[i] == c && forall j :: i < j < |s| ==> s[j] != c
    ensures i == |s| ==> c !in s
  {
    if s == "" then 0
    else if s[|s| - 1] == c then |s| - 1
    else
      var i := LastIndexOf(s[..|s| - 1], c);
      assert s == s[..|s| - 1] + [s[|s| - 1]];
      if i == |s| - 1 then |s| else i
  }

  function CounterOfState(state: string): nat {
    var dot := LastIndexOf(state, '.');
    if dot == |state| then 0 else
      match Decimal.Parse(state[dot + 1..], U64_MAX)
      case Some(n) => n
      case None => 0
  }

  /** `counter_of_state` inverts every token that `advance` mints, whatever the seed looks like:
      the dot it cuts at is the one `advance` wrote, even when the seed has dots of its own. */
  lemma CounterOfMintedToken(seed: string, n: nat)
    requires 1 <= n <= U64_MAX
    ensures CounterOfState(Token(seed, n)) == n
  {
    var s := Token(seed, n);
    var dot := LastIndexOf(s, '.');
    assert s[|seed|] == '.';
    var digits := Decimal.Print(n);
    assert forall j :: |seed| < j < |s| ==> s[j] == digits[j - |seed| - 1] && Decimal.IsDigit(s[j]);
    assert s[|seed| + 1..] == Decimal.Print(n);
    Decimal.ParsePrint(n, U64_MAX);
  }

  lemma TokenInjective(seed: string, m: nat, n: nat)
    ensures Token(seed, m) == Token(seed, n) <==> m == n
  {
    var a, b := Token(seed, m), Token(seed, n);
    if a == b && m != 0 && n != 0 {
      assert a[|seed| + 1..] == Decimal.Print(m);
      assert b[|seed| + 1..] == Decimal.Print(n);
      Decimal.PrintInjective(m, n);
    }
  }

  /** `seed` ends in a dot and a positive number that fits 64 bits. */
  ghost predicate EndsInCounter(seed: string) {
    exists front, digits :: CutsAt(seed, front, digits) && Positive(digits)
  }

  /** `front` and `digits` are what lies around the seed's last dot. */
  ghost predicate CutsAt(seed: string, front: string, digits: string) {
    seed == front + "." + digits && '.' !in digits
  }

  predicate Positive(digits: string) {
    var n := Decimal.Parse(digits, U64_MAX);
    n.Some? && n.value > 0
  }

  lemma LastDot(seed: string, front: string, digits: string)
    requires CutsAt(seed, front, digits)
    ensures LastIndexOf(seed, '.') == |front| && seed[|front| + 1..] == digits
  {
    hide LastIndexOf;
    assert seed[|front|] == '.';
    assert forall j :: |front| < j < |seed| ==> seed[j] == digits[j - |front| - 1];
  }

  /** The source's comment promises 0 for any bare seed. That is so exactly when the seed does not
      itself end in a dot and a positive 64-bit number. (The one caller passes tokens that `advance`
      minted, never a bare seed; those read back right for every seed.) */
  lemma BareSeedReadsZeroIff(seed: string)
    ensures CounterOfState(Token(seed, 0)) == 0 <==> !EndsInCounter(seed)
  {
    hide LastIndexOf, Decimal.Parse;
    TokenZero(seed);
    var dot := LastIndexOf(seed, '.');
    if dot < |seed| {
      var front, digits := seed[..dot], seed[dot + 1..];
      assert seed == front + "." + digits;
      assert CutsAt(seed, front, digits);
    }
    if EndsInCounter(seed) {
      var front, digits :| CutsAt(seed, front, digits) && Positive(digits);
      LastDot(seed, front, digits);
    }
  }

  /** A seed on the failing side: the baseline token reads as counter 7. */
  lemma BareSeedCanReadAsACounter()
    ensures EndsInCounter("v1.7") && CounterOfState(Token("v1.7", 0)) == 7
  {
    assert CutsAt("v1.7", "v1", "7") by {
      assert "v1.7" == "v1" + "." + "7";
    }
    LastDot("v1.7", "v1", "7");
    assert "7" == Decimal.Print(7);
    Decimal.ParsePrint(7, U64_MAX);
    assert Positive("7");
  }
}
