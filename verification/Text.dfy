/** Characters and decimal numbers, as Python's `str` treats them. */
module Text {

  /** `str.isspace`, which is also what `\s` matches. */
  predicate IsSpace(c: char) {
    var n := c as int;
    || 0x09 <= n <= 0x0D || 0x1C <= n <= 0x20 || n == 0x85 || n == 0xA0 || n == 0x1680
    || 0x2000 <= n <= 0x200A || n == 0x2028 || n == 0x2029 || n == 0x202F || n == 0x205F || n == 0x3000
  }

  predicate IsDigit(c: char) {
    '0' <= c <= '9'
  }

  predicate All(s: string, p: char -> bool) {
    forall i | 0 <= i < |s| :: p(s[i])
  }

  function Digit(n: nat): char
    requires n < 10
  {
    "0123456789"[n]
  }

  function DigitValue(c: char): nat
    requires IsDigit(c)
  {
    c as int - '0' as int
  }

  lemma DigitRoundTrip(n: nat)
    requires n < 10
    ensures IsDigit(Digit(n)) && DigitValue(Digit(n)) == n
  {
  }

  /** `str(n)`. */
  function Decimal(n: nat): string {
    if n < 10 then [Digit(n)] else Decimal(n / 10) + [Digit(n % 10)]
  }

  /** `int(s)` of a string of digits. */
  function DecimalValue(s: string): nat
    requires All(s, IsDigit)
  {
    if s == "" then 0 else DecimalValue(s[..|s| - 1]) * 10 + DigitValue(s[|s| - 1])
  }

  lemma {:induction false} DecimalDigits(n: nat)
    ensures All(Decimal(n), IsDigit) && |Decimal(n)| > 0
  {
    DigitRoundTrip(n % 10);
    if n >= 10 {
      DecimalDigits(n / 10);
    }
  }

  lemma {:induction false} DecimalRoundTrip(n: nat)
    ensures All(Decimal(n), IsDigit) && |Decimal(n)| > 0
    ensures DecimalValue(Decimal(n)) == n
  {
    DecimalDigits(n);
    DigitRoundTrip(n % 10);
    var s := Decimal(n);
    if n < 10 {
      assert s[..0] == "";
    } else {
      DecimalRoundTrip(n / 10);
      assert s[..|s| - 1] == Decimal(n / 10);
    }
  }

  /** `s.lstrip`, `s.rstrip` and `s.strip` for a set of characters. */
  function TrimLeft(s: string, p: char -> bool): string {
    if s != "" && p(s[0]) then TrimLeft(s[1..], p) else s
  }

  function TrimRight(s: string, p: char -> bool): string {
    if s != "" && p(s[|s| - 1]) then TrimRight(s[..|s| - 1], p) else s
  }

  function Trim(s: string, p: char -> bool): string {
    TrimRight(TrimLeft(s, p), p)
  }

  /** The part before the first occurrence of a character. */
  function UpTo(s: string, c: char): string {
    if s == "" || s[0] == c then "" else [s[0]] + UpTo(s[1..], c)
  }

  /** `lower` on ASCII letters; other characters stay. */
  function LowerChar(c: char): char {
    if 'A' <= c <= 'Z' then c + ('a' - 'A') else c
  }

  function Lower(s: string): string {
    seq(|s|, i requires 0 <= i < |s| => LowerChar(s[i]))
  }

  predicate HasPrefix(s: string, prefix: string) {
    prefix <= s
  }

  // ---------------------------------------------------------------- what these mean

  /** The blanks: ASCII white space, the four separators, and those of Unicode. */
  lemma SpacesAre(c: char)
    ensures IsSpace(c) <==>
            c as int in [9, 10, 11, 12, 13, 28, 29, 30, 31, 32, 133, 160, 5760, 8192, 8193, 8194, 8195, 8196, 8197,
                         8198, 8199, 8200, 8201, 8202, 8232, 8233, 8239, 8287, 12288]
  {
  }

  /** Capital letters become the small ones at the same place of the alphabet, and nothing else changes. */
  lemma LowerMeans(s: string, i: nat)
    requires i < |s|
    ensures |Lower(s)| == |s|
    ensures var (capitals, small) := ("ABCDEFGHIJKLMNOPQRSTUVWXYZ", "abcdefghijklmnopqrstuvwxyz");
            if s[i] in capitals then exists k :: 0 <= k < 26 && s[i] == capitals[k] && Lower(s)[i] == small[k]
            else Lower(s)[i] == s[i]
  {
    var capitals, small := "ABCDEFGHIJKLMNOPQRSTUVWXYZ", "abcdefghijklmnopqrstuvwxyz";
    if s[i] in capitals {
      var k :| 0 <= k < 26 && s[i] == capitals[k];
      LetterAt(k);
    } else if 'A' <= s[i] <= 'Z' {
      LetterAt((s[i] - 'A') as int);
      assert false;
    }
  }

  lemma LetterAt(k: nat)
    requires k < 26
    ensures "ABCDEFGHIJKLMNOPQRSTUVWXYZ"[k] == 'A' + k as char
    ensures "abcdefghijklmnopqrstuvwxyz"[k] == 'a' + k as char
  {
  }

  lemma {:induction false} UpToIs(s: string, rest: string, c: char)
    requires c !in s && (rest == "" || rest[0] == c)
    ensures UpTo(s + rest, c) == s
  {
    if s == "" {
      assert s + rest == rest;
    } else {
      assert (s + rest)[1..] == s[1..] + rest;
      UpToIs(s[1..], rest, c);
    }
  }

  lemma {:induction false} TrimLeftAll(run: string, b: string, p: char -> bool)
    requires All(run, p) && (b == "" || !p(b[0]))
    ensures TrimLeft(run + b, p) == b
  {
    if run == "" {
      assert run + b == b;
    } else {
      assert (run + b)[1..] == run[1..] + b;
      TrimLeftAll(run[1..], b, p);
    }
  }

  lemma {:induction false} TrimRightAll(a: string, run: string, p: char -> bool)
    requires All(run, p) && (a == "" || !p(a[|a| - 1]))
    ensures TrimRight(a + run, p) == a
    decreases |run|
  {
    if run == "" {
      assert a + run == a;
    } else {
      var n := |run| - 1;
      assert (a + run)[..|a + run| - 1] == a + run[..n];
      TrimRightAll(a, run[..n], p);
    }
  }

  /** Trimming takes the runs at both ends, and nothing else. */
  lemma TrimIs(left: string, core: string, right: string, p: char -> bool)
    requires All(left, p) && All(right, p)
    requires core == "" || (!p(core[0]) && !p(core[|core| - 1]))
    ensures Trim(left + core + right, p) == core
  {
    if core == "" {
      assert left + core + right == left + right + "";
      TrimLeftAll(left + right, "", p);
      TrimRightAll("", "", p);
    } else {
      assert left + core + right == left + (core + right);
      TrimLeftAll(left, core + right, p);
      TrimRightAll(core, right, p);
    }
  }
}
