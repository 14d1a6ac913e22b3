/** Relative durations such as `7d`: the parser, and the grammar it accepts. */
module Durations {
  import opened Text

  /** The first two are parse errors; the last is what `timedelta` raises. */
  datatype Error = BadGrammar | ZeroMagnitude | TooLong

  /** The longest `timedelta` has 999999999 days and all but a second of another; whole seconds fit below this. */
  const LIMIT: nat := 1_000_000_000 * 86400

  datatype Result = Ok(seconds: nat) | Err(error: Error)

  predicate IsUnit(c: char) {
    c == 'm' || c == 'h' || c == 'd' || c == 'w'
  }

  function UnitSeconds(c: char): nat
    requires IsUnit(c)
  {
    if c == 'm' then 60 else if c == 'h' then 3600 else if c == 'd' then 86400 else 604800
  }

  /** The end of the longest run of matching characters that starts at i. */
  function SpanEnd(s: string, i: nat, p: char -> bool): (j: nat)
    requires i <= |s|
    ensures i <= j <= |s|
    decreases |s| - i
  {
    if i < |s| && p(s[i]) then SpanEnd(s, i + 1, p) else i
  }

  lemma {:induction false} SpanEndMatches(s: string, i: nat, p: char -> bool)
    requires i <= |s|
    ensures All(s[i..SpanEnd(s, i, p)], p)
    ensures SpanEnd(s, i, p) < |s| ==> !p(s[SpanEnd(s, i, p)])
    decreases |s| - i
  {
    if i < |s| && p(s[i]) {
      SpanEndMatches(s, i + 1, p);
      var e := SpanEnd(s, i, p);
      assert s[i..e] == [s[i]] + s[i + 1..e];
    }
  }

  /** The duration of a magnitude and a unit. */
  function Duration(magnitude: nat, unit: char): Result
    requires IsUnit(unit)
  {
    var seconds := magnitude * UnitSeconds(unit);
    if magnitude == 0 then Err(ZeroMagnitude)
    else if seconds >= LIMIT then Err(TooLong)
    else Ok(seconds)
  }

  /** The regular expression: spaces, digits, one unit letter, spaces. */
  function ParseDuration(s: string): Result {
    var a := SpanEnd(s, 0, IsSpace);
    var b := SpanEnd(s, a, IsDigit);
    if a < b < |s| && IsUnit(s[b]) && SpanEnd(s, b + 1, IsSpace) == |s| then
      SpanEndMatches(s, a, IsDigit);
      Duration(DecimalValue(s[a..b]), s[b])
    else
      Err(BadGrammar)
  }

  /** The string is blanks, the digits of a number, a unit and blanks. */
  ghost predicate Spells(s: string, before: string, digits: string, unit: char, after: string) {
    && s == before + digits + [unit] + after
    && All(before, IsSpace) && All(after, IsSpace)
    && digits != "" && All(digits, IsDigit) && IsUnit(unit)
  }

  ghost predicate Denotes(s: string, magnitude: nat, unit: char) {
    exists before, digits, after :: Spells(s, before, digits, unit, after) && DecimalValue(digits) == magnitude
  }

  lemma {:induction false} SpanEndIs(s: string, i: nat, j: nat, p: char -> bool)
    requires i <= j <= |s| && All(s[i..j], p) && (j < |s| ==> !p(s[j]))
    ensures SpanEnd(s, i, p) == j
    decreases j - i
  {
    if i < j {
      assert s[i..j][0] == s[i];
      assert s[i + 1..j] == s[i..j][1..];
      SpanEndIs(s, i + 1, j, p);
    }
  }

  /** Whatever spells a duration is parsed as the duration it spells. */
  lemma SpellsParses(s: string, before: string, digits: string, unit: char, after: string)
    requires Spells(s, before, digits, unit, after)
    ensures ParseDuration(s) == Duration(DecimalValue(digits), unit)
  {
    var a := |before|;
    var b := a + |digits|;
    assert s[0..a] == before && s[a..b] == digits && s[b] == unit && s[b + 1..] == after;
    assert s[a] == digits[0];
    SpanEndIs(s, 0, a, IsSpace);
    SpanEndIs(s, a, b, IsDigit);
    assert s[b + 1..|s|] == after;
    SpanEndIs(s, b + 1, |s|, IsSpace);
  }

  lemma ParsesShape(s: string)
    requires ParseDuration(s) != Err(BadGrammar)
    ensures
      var a := SpanEnd(s, 0, IsSpace);
      var b := SpanEnd(s, a, IsDigit);
      a < b < |s| && IsUnit(s[b]) && SpanEnd(s, b + 1, IsSpace) == |s|
  {
    hide DecimalValue, IsSpace, IsDigit, All, IsUnit;
  }

  /** Whatever the parser takes apart spells a duration. */
  lemma ParsesSpells(s: string)
    requires ParseDuration(s) != Err(BadGrammar)
    ensures
      var a := SpanEnd(s, 0, IsSpace);
      var b := SpanEnd(s, a, IsDigit);
      a < b < |s| && Spells(s, s[..a], s[a..b], s[b], s[b + 1..])
  {
    hide ParseDuration, DecimalValue, IsSpace, IsDigit, IsUnit, SpanEnd, All;
    ParsesShape(s);
    var a := SpanEnd(s, 0, IsSpace);
    var b := SpanEnd(s, a, IsDigit);
    SpanEndMatches(s, 0, IsSpace);
    SpanEndMatches(s, a, IsDigit);
    SpanEndMatches(s, b + 1, IsSpace);
    Cut(s, a, b);
  }

  lemma Cut(s: string, a: nat, b: nat)
    requires a < b < |s|
    ensures s == s[..a] + s[a..b] + [s[b]] + s[b + 1..]
    ensures s[..a] == s[0..a] && s[b + 1..] == s[b + 1..|s|] && s[a..b] != ""
  {
  }

  /**
   The parser accepts exactly the grammar, gives each string its one meaning, and fails to
   represent exactly the durations of a thousand million days and more.
   */
  lemma ParseIsGrammar(s: string, seconds: nat)
    ensures ParseDuration(s) == Ok(seconds) <==>
            exists n: nat, u :: Denotes(s, n, u) && IsUnit(u) && 0 < n && seconds == n * UnitSeconds(u) < LIMIT
    ensures ParseDuration(s) == Err(TooLong) <==>
            exists n: nat, u :: Denotes(s, n, u) && IsUnit(u) && LIMIT <= n * UnitSeconds(u)
    ensures ParseDuration(s) == Err(ZeroMagnitude) <==> exists u :: Denotes(s, 0, u)
    ensures ParseDuration(s) == Err(BadGrammar) <==> !exists n: nat, u :: Denotes(s, n, u)
  {
    if ParseDuration(s) != Err(BadGrammar) {
      ParsesSpells(s);
      var a := SpanEnd(s, 0, IsSpace);
      var b := SpanEnd(s, a, IsDigit);
      var n := DecimalValue(s[a..b]);
      assert Denotes(s, n, s[b]);
    }
    hide ParseDuration;
    forall n: nat, u | Denotes(s, n, u)
      ensures IsUnit(u)
      ensures ParseDuration(s) == Duration(n, u)
    {
      var before, digits, after :| Spells(s, before, digits, u, after) && DecimalValue(digits) == n;
      SpellsParses(s, before, digits, u, after);
    }
  }

  /** Every positive number with a unit, with blanks around it, parses back to what it says. */
  lemma ShowRoundTrip(n: nat, unit: char, before: string, after: string)
    requires n > 0 && IsUnit(unit) && All(before, IsSpace) && All(after, IsSpace)
    ensures ParseDuration(before + Decimal(n) + [unit] + after)
         == if n * UnitSeconds(unit) < LIMIT then Ok(n * UnitSeconds(unit)) else Err(TooLong)
  {
    DecimalRoundTrip(n);
    SpellsParses(before + Decimal(n) + [unit] + after, before, Decimal(n), unit, after);
  }

  lemma ShowPlain(n: nat, unit: char)
    requires n > 0 && IsUnit(unit)
    ensures ParseDuration(Decimal(n) + [unit])
         == if n * UnitSeconds(unit) < LIMIT then Ok(n * UnitSeconds(unit)) else Err(TooLong)
  {
    hide ParseDuration, Decimal, UnitSeconds;
    ShowRoundTrip(n, unit, "", "");
    assert "" + Decimal(n) + [unit] + "" == Decimal(n) + [unit];
  }

  /** `m` is minutes, `h` hours, `d` days and `w` weeks, and there is no other unit. */
  lemma UnitsMean(n: nat)
    requires 0 < n && n * 604800 < 86_400_000_000_000
    ensures ParseDuration(Decimal(n) + "m") == Ok(n * 60)
    ensures ParseDuration(Decimal(n) + "h") == Ok(n * 3600)
    ensures ParseDuration(Decimal(n) + "d") == Ok(n * 86400)
    ensures ParseDuration(Decimal(n) + "w") == Ok(n * 604800)
    ensures forall c :: IsUnit(c) <==> c in "mhdw"
  {
    hide ParseDuration, Decimal;
    ShowPlain(n, 'm');
    ShowPlain(n, 'h');
    ShowPlain(n, 'd');
    ShowPlain(n, 'w');
  }

  /** 999999999 days can be represented, one more cannot. */
  lemma LongestDuration()
    ensures ParseDuration(Decimal(999_999_999) + "d") == Ok(999_999_999 * 86400)
    ensures ParseDuration(Decimal(1_000_000_000) + "d") == Err(TooLong)
  {
    hide ParseDuration, Decimal;
    ShowPlain(999_999_999, 'd');
    ShowPlain(1_000_000_000, 'd');
  }
}
