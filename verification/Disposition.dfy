/**
 The name a browser saves the archive under: how the channel's name is sanitised, how the
 Content-Disposition value is built, and how a reader takes it apart again.
 */
module Disposition {
  import opened Options
  import opened Text
  import opened Utf8
  import Calendar

  // ---------------------------------------------------------------- the display name

  /** The characters of the class that is replaced. */
  predicate Forbidden(c: char) {
    c in "\\/:*?\"<>|" || IsSpace(c)
  }

  predicate IsDash(c: char) {
    c == '-'
  }

  /** `re.sub`: every longest run of forbidden characters becomes one dash. */
  function Collapse(s: string): string
    decreases |s|
  {
    if s == "" then ""
    else if Forbidden(s[0]) then
      TrimLeftShorter(s[1..], Forbidden);
      "-" + Collapse(TrimLeft(s[1..], Forbidden))
    else [s[0]] + Collapse(s[1..])
  }

  lemma {:induction false} TrimLeftShorter(s: string, p: char -> bool)
    ensures |TrimLeft(s, p)| <= |s|
  {
    if s != "" && p(s[0]) {
      TrimLeftShorter(s[1..], p);
    }
  }

  function Sanitize(s: string): string {
    Trim(Collapse(s), IsDash)
  }

  function Pad(n: nat, width: nat): string {
    var d := Decimal(n);
    if |d| < width then seq(width - |d|, i => '0') + d else d
  }

  function IsoDate(d: Calendar.Date): string
    requires d.Valid()
  {
    Pad(d.year, 4) + "-" + Pad(d.month, 2) + "-" + Pad(d.day, 2)
  }

  /** `_display_filename`, with today's date as a parameter. */
  function DisplayFilename(name: Option<string>, id: nat, today: Calendar.Date): string
    requires today.Valid()
  {
    var raw := if name.Some? && name.value != "" then name.value else "id-" + Decimal(id);
    var safe := Sanitize(raw);
    "channel-" + (if safe != "" then safe else "unnamed") + "-" + IsoDate(today) + ".zip"
  }

  predicate Clean(s: string) {
    forall i | 0 <= i < |s| :: !Forbidden(s[i])
  }

  lemma {:induction false} CollapseClean(s: string)
    ensures Clean(Collapse(s))
    decreases |s|
  {
    hide Forbidden;
    assert !Forbidden('-') by { DashAllowed(); }
    if s != "" {
      if Forbidden(s[0]) {
        TrimLeftShorter(s[1..], Forbidden);
        CollapseClean(TrimLeft(s[1..], Forbidden));
      } else {
        CollapseClean(s[1..]);
      }
    }
  }

  lemma DashAllowed()
    ensures !Forbidden('-')
  {
  }

  lemma {:induction false} CleanStays(s: string)
    requires Clean(s)
    ensures Collapse(s) == s
  {
    hide Forbidden;
    if s != "" {
      assert !Forbidden(s[0]);
      forall i | 0 <= i < |s[1..]| ensures !Forbidden(s[1..][i]) {
        assert !Forbidden(s[i + 1]);
      }
      CleanStays(s[1..]);
      assert [s[0]] + s[1..] == s;
    }
  }

  /** Every longest run of forbidden characters, whatever its length, leaves one dash and nothing else. */
  lemma {:induction false} CollapseRun(a: string, run: string, b: string)
    requires Clean(a) && run != "" && All(run, Forbidden) && (b == "" || !Forbidden(b[0]))
    ensures Collapse(a + run + b) == a + "-" + Collapse(b)
    decreases |a|
  {
    var s := a + run + b;
    hide Forbidden;
    if a == "" {
      assert Forbidden(run[0]);
      assert s[0] == run[0] && s[1..] == run[1..] + b;
      forall i | 0 <= i < |run[1..]| ensures Forbidden(run[1..][i]) {
        assert Forbidden(run[i + 1]);
      }
      TrimLeftAll(run[1..], b, Forbidden);
    } else {
      assert !Forbidden(a[0]);
      assert s[0] == a[0] && s[1..] == a[1..] + run + b;
      forall i | 0 <= i < |a[1..]| ensures !Forbidden(a[1..][i]) {
        assert !Forbidden(a[i + 1]);
      }
      CollapseRun(a[1..], run, b);
      assert [a[0]] + (a[1..] + "-" + Collapse(b)) == a + "-" + Collapse(b);
    }
  }

  lemma {:induction false} TrimLeftFacts(s: string, p: char -> bool)
    ensures exists k :: 0 <= k <= |s| && TrimLeft(s, p) == s[k..]
    ensures TrimLeft(s, p) != "" ==> !p(TrimLeft(s, p)[0])
  {
    if s != "" && p(s[0]) {
      TrimLeftFacts(s[1..], p);
      var k :| 0 <= k <= |s[1..]| && TrimLeft(s[1..], p) == s[1..][k..];
      assert s[1..][k..] == s[k + 1..];
    } else {
      assert s[0..] == s;
    }
  }

  lemma {:induction false} TrimRightFacts(s: string, p: char -> bool)
    ensures exists k :: 0 <= k <= |s| && TrimRight(s, p) == s[..k]
    ensures TrimRight(s, p) != "" ==> !p(TrimRight(s, p)[|TrimRight(s, p)| - 1])
  {
    if s != "" && p(s[|s| - 1]) {
      TrimRightFacts(s[..|s| - 1], p);
      var k :| 0 <= k <= |s| - 1 && TrimRight(s[..|s| - 1], p) == s[..|s| - 1][..k];
      assert s[..|s| - 1][..k] == s[..k];
    } else {
      assert s[..|s|] == s;
    }
  }

  /** A trimmed string is a piece of the string. */
  lemma TrimIsPiece(s: string, p: char -> bool)
    ensures exists a, b :: 0 <= a <= b <= |s| && Trim(s, p) == s[a..b]
  {
    var l := TrimLeft(s, p);
    TrimLeftFacts(s, p);
    TrimRightFacts(l, p);
    hide TrimLeft, TrimRight;
    var a :| 0 <= a <= |s| && l == s[a..];
    var k :| 0 <= k <= |l| && TrimRight(l, p) == l[..k];
    assert s[a..][..k] == s[a..a + k];
  }

  predicate Trimmed(s: string, p: char -> bool) {
    s != "" ==> !p(s[0]) && !p(s[|s| - 1])
  }

  lemma TrimIsTrimmed(s: string, p: char -> bool)
    ensures Trimmed(Trim(s, p), p)
  {
    var l := TrimLeft(s, p);
    TrimLeftFacts(s, p);
    TrimRightFacts(l, p);
    hide TrimLeft, TrimRight;
    var k :| 0 <= k <= |l| && TrimRight(l, p) == l[..k];
    if k > 0 {
      assert l[..k][0] == l[0];
    }
  }

  lemma TrimmedStays(s: string, p: char -> bool)
    requires Trimmed(s, p)
    ensures Trim(s, p) == s
  {
  }

  lemma PieceClean(s: string, a: nat, b: nat)
    requires Clean(s) && a <= b <= |s|
    ensures Clean(s[a..b])
  {
    hide Forbidden;
  }

  /** The sanitised name has no forbidden character, and sanitising it again changes nothing. */
  lemma SanitizeIsCleanAndStable(s: string)
    ensures Clean(Sanitize(s))
    ensures Sanitize(Sanitize(s)) == Sanitize(s)
    ensures Sanitize(s) != "" ==> Sanitize(s)[0] != '-' && Sanitize(s)[|Sanitize(s)| - 1] != '-'
  {
    hide Forbidden, Collapse, Trim;
    CollapseClean(s);
    TrimIsPiece(Collapse(s), IsDash);
    TrimIsTrimmed(Collapse(s), IsDash);
    TrimmedStays(Sanitize(s), IsDash);
    var a, b :| 0 <= a <= b <= |Collapse(s)| && Sanitize(s) == Collapse(s)[a..b];
    PieceClean(Collapse(s), a, b);
    CleanStays(Sanitize(s));
  }

  /** The characters that are replaced: the nine that paths and shells treat specially, and blanks. */
  lemma ForbiddenAre(c: char)
    ensures Forbidden(c) <==>
            c == '\\' || c == '/' || c == ':' || c == '*' || c == '?' || c == '"' || c == '<' || c == '>' || c == '|'
            || IsSpace(c)
  {
    hide IsSpace;
  }

  lemma {:induction false} TrimLeftCut(s: string, p: char -> bool) returns (run: string)
    ensures All(run, p) && s == run + TrimLeft(s, p)
  {
    if s != "" && p(s[0]) {
      var rest := TrimLeftCut(s[1..], p);
      run := [s[0]] + rest;
      assert s == [s[0]] + s[1..];
    } else {
      run := "";
    }
  }

  lemma {:induction false} TrimRightCut(s: string, p: char -> bool) returns (run: string)
    ensures All(run, p) && s == TrimRight(s, p) + run
    decreases |s|
  {
    if s != "" && p(s[|s| - 1]) {
      var n := |s| - 1;
      var rest := TrimRightCut(s[..n], p);
      run := rest + [s[n]];
      assert s == s[..n] + [s[n]];
    } else {
      run := "";
    }
  }

  /** After collapsing, only dashes at the two ends are taken away. */
  lemma SanitizeOnlyTrims(s: string) returns (left: string, right: string)
    ensures All(left, IsDash) && All(right, IsDash)
    ensures Collapse(s) == left + Sanitize(s) + right
  {
    left := TrimLeftCut(Collapse(s), IsDash);
    right := TrimRightCut(TrimLeft(Collapse(s), IsDash), IsDash);
  }

  lemma {:induction false} CollapseForbidden(s: string)
    requires s != "" && All(s, Forbidden)
    ensures Collapse(s) == "-"
  {
    CollapseRun("", s, "");
    assert "" + s + "" == s;
    hide Forbidden;
  }

  /**
   The file name: `channel-`, the sanitised name, the date. Without a name the id stands in
   for it, and a name of nothing but forbidden characters becomes `unnamed`.
   */
  lemma DisplayFilenameMeans(name: string, id: nat, today: Calendar.Date)
    requires today.Valid() && name != ""
    ensures Clean(name) && name[0] != '-' && name[|name| - 1] != '-' ==>
              DisplayFilename(Some(name), id, today) == "channel-" + name + "-" + IsoDate(today) + ".zip"
    ensures Sanitize(name) != "" ==>
              DisplayFilename(Some(name), id, today) == "channel-" + Sanitize(name) + "-" + IsoDate(today) + ".zip"
    ensures All(name, Forbidden) ==>
              DisplayFilename(Some(name), id, today) == "channel-unnamed-" + IsoDate(today) + ".zip"
    ensures DisplayFilename(None, id, today) == DisplayFilename(Some(""), id, today)
         == "channel-id-" + Decimal(id) + "-" + IsoDate(today) + ".zip"
  {
    hide IsoDate, Forbidden;
    if Clean(name) && name[0] != '-' && name[|name| - 1] != '-' {
      SanitizeKeeps(name);
    }
    if All(name, Forbidden) {
      CollapseForbidden(name);
      TrimIs("-", "", "", IsDash);
      assert "-" + "" + "" == "-";
    }
    var stand := "id-" + Decimal(id);
    DecimalClean(id);
    DecimalDigits(id);
    LiteralsClean();
    IdClean();
    CleanConcat("id-", Decimal(id));
    assert IsDigit(stand[|stand| - 1]);
    SanitizeKeeps(stand);
    assert "channel-" + stand == "channel-id-" + Decimal(id);
    assert "channel-" + "unnamed" + "-" == "channel-unnamed-";
  }

  lemma IdClean()
    ensures Clean("id-")
  {
  }

  /** The date is year, month and day in four, two and two digits. */
  lemma IsoDateMeans(d: Calendar.Date)
    requires d.Valid() && d.year <= 9999
    ensures
      var s := IsoDate(d);
      && |s| == 10 && s[4] == '-' && s[7] == '-'
      && All(s[..4], IsDigit) && DecimalValue(s[..4]) == d.year
      && All(s[5..7], IsDigit) && DecimalValue(s[5..7]) == d.month
      && All(s[8..], IsDigit) && DecimalValue(s[8..]) == d.day
  {
    PadMeans(d.year, 4, 10000);
    PadMeans(d.month, 2, 100);
    PadMeans(d.day, 2, 100);
    hide Pad, DecimalValue, All;
    Dashed(Pad(d.year, 4), Pad(d.month, 2), Pad(d.day, 2));
  }

  lemma Dashed(y: string, m: string, d: string)
    requires |y| == 4 && |m| == 2 && |d| == 2
    ensures
      var s := y + "-" + m + "-" + d;
      |s| == 10 && s[4] == '-' && s[7] == '-' && s[..4] == y && s[5..7] == m && s[8..] == d
  {
  }

  /** Padding with zeros keeps the number and gives the width. */
  lemma PadMeans(n: nat, width: nat, limit: nat)
    requires n < limit && limit == Power10(width) && width > 0
    ensures |Pad(n, width)| == width && All(Pad(n, width), IsDigit) && DecimalValue(Pad(n, width)) == n
  {
    DecimalRoundTrip(n);
    DecimalLength(n, width);
    var zeros := seq(width - |Decimal(n)|, i => '0');
    LeadingZeros(zeros, Decimal(n));
    assert Pad(n, width) == zeros + Decimal(n);
  }

  function Power10(n: nat): nat {
    if n == 0 then 1 else 10 * Power10(n - 1)
  }

  lemma {:induction false} DecimalLength(n: nat, width: nat)
    requires width > 0 && n < Power10(width)
    ensures |Decimal(n)| <= width
  {
    if n >= 10 {
      DecimalLength(n / 10, width - 1);
    }
  }

  lemma {:induction false} LeadingZeros(zeros: string, digits: string)
    requires All(digits, IsDigit) && forall i | 0 <= i < |zeros| :: zeros[i] == '0'
    ensures All(zeros + digits, IsDigit) && DecimalValue(zeros + digits) == DecimalValue(digits)
    decreases |zeros| + |digits|
  {
    var s := zeros + digits;
    assert IsDigit('0');
    if digits != "" {
      assert s[..|s| - 1] == zeros + digits[..|digits| - 1];
      LeadingZeros(zeros, digits[..|digits| - 1]);
    } else if zeros != "" {
      assert s[..|s| - 1] == zeros[..|zeros| - 1] + "";
      LeadingZeros(zeros[..|zeros| - 1], "");
    }
  }

  /** A name that is already clean and not dashed at the ends is kept as it is. */
  lemma SanitizeKeeps(s: string)
    requires Clean(s) && (s != "" ==> s[0] != '-' && s[|s| - 1] != '-')
    ensures Sanitize(s) == s
  {
    hide Forbidden;
    CleanStays(s);
  }

  lemma {:induction false} DecimalClean(n: nat)
    ensures Clean(Decimal(n))
  {
    DigitsClean();
    DecimalDigits(n);
  }

  lemma DigitsClean()
    ensures forall c | IsDigit(c) :: !Forbidden(c)
  {
  }

  lemma PadClean(n: nat, width: nat)
    ensures Clean(Pad(n, width))
  {
    DecimalClean(n);
    assert IsDigit('0');
    DigitsClean();
  }

  /** The whole file name is free of forbidden characters as well. */
  lemma DisplayFilenameClean(name: Option<string>, id: nat, today: Calendar.Date)
    requires today.Valid()
    ensures Clean(DisplayFilename(name, id, today))
  {
    var raw := if name.Some? && name.value != "" then name.value else "id-" + Decimal(id);
    SanitizeIsCleanAndStable(raw);
    PadClean(today.year, 4);
    PadClean(today.month, 2);
    PadClean(today.day, 2);
    LiteralsClean();
    hide Forbidden, Sanitize, Pad, Clean;
    var safe := Sanitize(raw);
    var date := IsoDate(today);
    var named := if safe != "" then safe else "unnamed";
    CleanConcat(Pad(today.year, 4), "-");
    CleanConcat(Pad(today.year, 4) + "-", Pad(today.month, 2));
    CleanConcat(Pad(today.year, 4) + "-" + Pad(today.month, 2), "-");
    CleanConcat(Pad(today.year, 4) + "-" + Pad(today.month, 2) + "-", Pad(today.day, 2));
    CleanConcat("channel-", named);
    CleanConcat("channel-" + named, "-");
    CleanConcat("channel-" + named + "-", date);
    CleanConcat("channel-" + named + "-" + date, ".zip");
  }

  lemma CleanConcat(s: string, t: string)
    requires Clean(s) && Clean(t)
    ensures Clean(s + t)
  {
  }

  lemma LiteralsClean()
    ensures Clean("channel-") && Clean("unnamed") && Clean("-") && Clean(".zip")
  {
  }

  // ---------------------------------------------------------------- building the value

  predicate Ascii(s: string) {
    forall i | 0 <= i < |s| :: s[i] as int < 0x80
  }

  /** `encode("ascii", "replace")`. */
  function Fallback(s: string): string {
    seq(|s|, i requires 0 <= i < |s| => if (s[i] as int) < 0x80 then s[i] else '?')
  }

  const OPENING: string := "attachment; filename=\""
  const STARRED: string := "; filename*=UTF-8''"

  /** `_format_content_disposition`. */
  function FormatContentDisposition(filename: string): string {
    if Ascii(filename) then OPENING + filename + "\""
    else OPENING + Fallback(filename) + "\"" + STARRED + Quote(filename)
  }

  // ---------------------------------------------------------------- reading it back

  /** The rest of a quoted-string, with its quoted-pairs resolved, and what follows it. */
  function ReadQuoted(s: string): Option<(string, string)> {
    if s == "" then None
    else if s[0] == '"' then Some(("", s[1..]))
    else if s[0] == '\\' then
      if |s| < 2 then None
      else
        match ReadQuoted(s[2..])
        case None => None
        case Some((v, rest)) => Some(([s[1]] + v, rest))
    else
      match ReadQuoted(s[1..])
      case None => None
      case Some((v, rest)) => Some(([s[0]] + v, rest))
  }

  /**
   A reader after section 4 of RFC 6266 and section 3.2 of RFC 5987: an attachment with a
   quoted filename, and possibly an extended one, which is then preferred.
   */
  function ReadDisposition(value: string): Option<string> {
    if !(OPENING <= value) then None
    else
      match ReadQuoted(value[|OPENING|..])
      case None => None
      case Some((plain, rest)) =>
        if rest == "" then Some(plain)
        else if STARRED <= rest then
          match Unquote(rest[|STARRED|..])
          case None => None
          case Some(bytes) => Decode(bytes)
        else None
  }

  /** The string may stand between quotation marks: no bare quote, and no backslash left hanging. */
  predicate QuotedBody(s: string) {
    if s == "" then true
    else if s[0] == '"' then false
    else if s[0] == '\\' then |s| >= 2 && QuotedBody(s[2..])
    else QuotedBody(s[1..])
  }

  function Unescape(s: string): string
    requires QuotedBody(s)
  {
    if s == "" then ""
    else if s[0] == '\\' then [s[1]] + Unescape(s[2..])
    else [s[0]] + Unescape(s[1..])
  }

  lemma {:induction false} ReadBody(s: string, rest: string)
    requires QuotedBody(s)
    ensures ReadQuoted(s + "\"" + rest) == Some((Unescape(s), rest))
    decreases |s|
  {
    var t := s + "\"" + rest;
    if s == "" {
      assert t[1..] == rest;
    } else if s[0] == '\\' {
      assert t[0] == s[0] && t[1] == s[1] && t[2..] == s[2..] + "\"" + rest;
      ReadBody(s[2..], rest);
    } else {
      assert t[0] == s[0] && t[1..] == s[1..] + "\"" + rest;
      ReadBody(s[1..], rest);
    }
  }

  /** Without quotes there is no end to find. */
  lemma {:induction false} ReadWithoutQuote(s: string)
    requires '"' !in s
    ensures ReadQuoted(s) == None
    decreases |s|
  {
    if s != "" {
      assert s[0] in s;
      if s[0] == '\\' {
        if |s| >= 2 {
          ReadWithoutQuote(s[2..]);
        }
      } else {
        ReadWithoutQuote(s[1..]);
      }
    }
  }

  /** A string that may not stand between quotes: the reader stops inside it, or runs past its end. */
  lemma {:induction false} ReadBadBody(s: string, rest: string)
    requires !QuotedBody(s)
    ensures var r := ReadQuoted(s + "\"" + rest);
            r == ReadQuoted(rest) || r.None? || (r.Some? && '"' in r.value.1 && r.value.1 != "")
            || (r.Some? && ReadQuoted(rest).Some? && r.value.1 == ReadQuoted(rest).value.1)
    decreases |s|
  {
    var t := s + "\"" + rest;
    if s[0] == '"' {
      assert t[1..] == s[1..] + "\"" + rest;
      assert t[1..][|s| - 1] == '"';
    } else if s[0] == '\\' {
      if |s| < 2 {
        assert t[0] == '\\' && t[1] == '"' && t[2..] == rest;
      } else {
        assert t[0] == s[0] && t[1] == s[1] && t[2..] == s[2..] + "\"" + rest;
        ReadBadBody(s[2..], rest);
      }
    } else {
      assert t[0] == s[0] && t[1..] == s[1..] + "\"" + rest;
      ReadBadBody(s[1..], rest);
    }
  }

  lemma QuoteAlphabet(s: string)
    ensures '"' !in Quote(s)
  {
    QuoteRoundTrip(s);
    UnquoteAlphabet(Quote(s));
    QuoteIsNoAttr();
  }

  lemma QuoteIsNoAttr()
    ensures !IsAttrChar('"') && '"' != '%'
  {
  }

  /** A tail with a quotation mark in it is never a proper second parameter. */
  lemma NoQuoteInTail(rest: string)
    requires '"' in rest && STARRED <= rest
    ensures Unquote(rest[|STARRED|..]) == None
  {
    var tail := rest[|STARRED|..];
    var i :| 0 <= i < |rest| && rest[i] == '"';
    StarredHasNoQuote();
    assert forall k | 0 <= k < |STARRED| :: rest[k] == STARRED[k] && STARRED[k] in STARRED;
    assert tail[i - |STARRED|] == '"';
    if Unquote(tail).Some? {
      UnquoteAlphabet(tail);
      QuoteIsNoAttr();
    }
  }

  lemma StarredHasNoQuote()
    ensures '"' !in STARRED
  {
  }

  /** Both forms of the value are the opening, a body, a closing quote, and a tail. */
  function Body(filename: string): string {
    if Ascii(filename) then filename else Fallback(filename)
  }

  function Tail(filename: string): string {
    if Ascii(filename) then "" else STARRED + Quote(filename)
  }

  lemma FormatShape(filename: string)
    ensures FormatContentDisposition(filename) == OPENING + (Body(filename) + "\"" + Tail(filename))
    ensures FormatContentDisposition(filename)[|OPENING|..] == Body(filename) + "\"" + Tail(filename)
    ensures OPENING <= FormatContentDisposition(filename)
    ensures '"' !in Tail(filename)
  {
    hide Quote;
    QuoteAlphabet(filename);
    StarredHasNoQuote();
  }

  lemma {:induction false} UnescapeShorter(s: string)
    requires QuotedBody(s)
    ensures |Unescape(s)| <= |s|
    ensures Unescape(s) == s <==> '\\' !in s
    ensures '\\' in s ==> |Unescape(s)| < |s|
  {
    if s != "" {
      if s[0] == '\\' {
        UnescapeShorter(s[2..]);
      } else {
        UnescapeShorter(s[1..]);
        assert s == [s[0]] + s[1..];
      }
    }
  }

  /** Replacing foreign characters keeps quotes and backslashes where they were. */
  lemma {:induction false} FallbackBody(s: string)
    ensures QuotedBody(Fallback(s)) <==> QuotedBody(s)
    decreases |s|
  {
    var t := Fallback(s);
    if s != "" {
      if s[0] == '\\' && |s| >= 2 {
        assert Fallback(s[2..]) == t[2..];
        FallbackBody(s[2..]);
      } else if s[0] != '"' && s[0] != '\\' {
        assert Fallback(s[1..]) == t[1..];
        FallbackBody(s[1..]);
      }
    }
  }

  /** What a reader makes of the value, for every name. */
  lemma ReadsBack(filename: string)
    ensures ReadDisposition(FormatContentDisposition(filename)) ==
      if !QuotedBody(filename) then None
      else if Ascii(filename) then Some(Unescape(filename))
      else Some(filename)
  {
    FormatShape(filename);
    FallbackBody(filename);
    QuoteRoundTrip(filename);
    hide Quote, Unquote, Decode, Encode, FormatContentDisposition;
    var body, tail := Body(filename), Tail(filename);
    if QuotedBody(body) {
      ReadBody(body, tail);
      if !Ascii(filename) {
        assert tail[|STARRED|..] == Quote(filename);
      }
    } else {
      ReadBadBody(body, tail);
      ReadWithoutQuote(tail);
      var r := ReadQuoted(body + "\"" + tail);
      if r.Some? && STARRED <= r.value.1 {
        NoQuoteInTail(r.value.1);
      }
    }
  }

  /**
   The value promises to work for any file name. It does if and only if the name may stand
   between quotation marks and, being ASCII, has no backslash.
   */
  lemma RoundTripIff(filename: string)
    ensures ReadDisposition(FormatContentDisposition(filename)) == Some(filename) <==>
            QuotedBody(filename) && (Ascii(filename) ==> '\\' !in filename)
  {
    ReadsBack(filename);
    if QuotedBody(filename) {
      UnescapeShorter(filename);
    }
  }

  /** A name with a quotation mark in it is lost. */
  lemma QuoteInNameIsLost()
    ensures ReadDisposition(FormatContentDisposition("a\"b.zip")) == None
  {
    var s := "a\"b.zip";
    assert s[1..][0] == '"';
    assert !QuotedBody(s[1..]);
    ReadsBack(s);
  }

  lemma {:induction false} CleanIsBody(s: string)
    requires Clean(s)
    ensures QuotedBody(s) && '\\' !in s
  {
    if s != "" {
      assert !Forbidden(s[0]);
      forall i | 0 <= i < |s[1..]| ensures !Forbidden(s[1..][i]) {
        assert !Forbidden(s[i + 1]);
      }
      SpecialsForbidden();
      CleanIsBody(s[1..]);
      assert s == [s[0]] + s[1..];
    }
  }

  lemma SpecialsForbidden()
    ensures Forbidden('"') && Forbidden('\\')
  {
  }

  /** For every channel name, id and day, the browser gets back the file name that was meant. */
  lemma DisplayNameRoundTrip(name: Option<string>, id: nat, today: Calendar.Date)
    requires today.Valid()
    ensures
      var filename := DisplayFilename(name, id, today);
      ReadDisposition(FormatContentDisposition(filename)) == Some(filename)
  {
    var filename := DisplayFilename(name, id, today);
    DisplayFilenameClean(name, id, today);
    CleanIsBody(filename);
    RoundTripIff(filename);
  }

  /** An ASCII name stands as it is between the quotation marks. */
  lemma AsciiForm(filename: string)
    requires Ascii(filename)
    ensures FormatContentDisposition(filename) == "attachment; filename=\"" + filename + "\""
  {
  }

  /** The fallback keeps every ASCII character in its place and has a question mark for each other one. */
  lemma FallbackMeans(s: string, i: nat)
    requires i < |s|
    ensures |Fallback(s)| == |s|
    ensures Fallback(s)[i] == if (s[i] as int) < 128 then s[i] else '?'
  {
  }

  /** Any other name is given twice: with question marks, and as an extended value. */
  lemma StarredForm(filename: string)
    requires !Ascii(filename)
    ensures FormatContentDisposition(filename)
         == "attachment; filename=\"" + Fallback(filename) + "\"" + "; filename*=UTF-8''" + Quote(filename)
  {
    hide Quote, Fallback, Ascii;
  }

  /** The extended form consists of attr-chars and percent-escapes, and carries the name itself. */
  lemma StarredFormIsExtValue(filename: string)
    requires !Ascii(filename)
    ensures FormatContentDisposition(filename)
         == OPENING + Fallback(filename) + "\"" + STARRED + Quote(filename)
    ensures Ascii(Fallback(filename))
    ensures Unquote(Quote(filename)) == Some(Encode(filename)) && Decode(Encode(filename)) == Some(filename)
    ensures forall i | 0 <= i < |Quote(filename)| ::
              IsAttrChar(Quote(filename)[i]) || Quote(filename)[i] == '%'
  {
    QuoteRoundTrip(filename);
    UnquoteAlphabet(Quote(filename));
  }
}
