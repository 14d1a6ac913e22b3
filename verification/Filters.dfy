/**
 The per-invocation filters: what the cog accepts and enqueues, and what the worker makes
 of the payload.
 */
module Filters {
  import opened Options
  import opened Text
  import opened Channel
  import Durations
  import Calendar

  // ---------------------------------------------------------------- categories

  datatype Category = Image | Video | Audio | Gif | Other

  predicate IsImage(mime: string) {
    HasPrefix(mime, "image/") && mime != "image/gif"
  }

  predicate IsVideo(mime: string) {
    HasPrefix(mime, "video/")
  }

  predicate IsAudio(mime: string) {
    HasPrefix(mime, "audio/")
  }

  predicate IsGif(mime: string) {
    mime == "image/gif"
  }

  predicate IsOther(mime: string) {
    !(IsImage(mime) || IsVideo(mime) || IsAudio(mime) || IsGif(mime))
  }

  predicate InCategory(c: Category, mime: string) {
    match c
    case Image => IsImage(mime)
    case Video => IsVideo(mime)
    case Audio => IsAudio(mime)
    case Gif => IsGif(mime)
    case Other => IsOther(mime)
  }

  function CategoryName(c: Category): string {
    match c
    case Image => "image"
    case Video => "video"
    case Audio => "audio"
    case Gif => "gif"
    case Other => "other"
  }

  /** Lookup in the table of predicates; an unknown name filters nothing. */
  function CategoryOf(name: string): Option<Category> {
    if name == "image" then Some(Image)
    else if name == "video" then Some(Video)
    else if name == "audio" then Some(Audio)
    else if name == "gif" then Some(Gif)
    else if name == "other" then Some(Other)
    else None
  }

  lemma CategoryNames(c: Category)
    ensures CategoryOf(CategoryName(c)) == Some(c)
  {
  }

  /** Every media type belongs to exactly one category. */
  lemma CategoriesPartition(mime: string)
    ensures exists c :: InCategory(c, mime)
    ensures forall c, d | InCategory(c, mime) && InCategory(d, mime) :: c == d
  {
    assert InCategory(Image, mime) || InCategory(Video, mime) || InCategory(Audio, mime)
        || InCategory(Gif, mime) || InCategory(Other, mime);
    var image, video, audio := "image/", "video/", "audio/";
    assert image[0] == 'i' && video[0] == 'v' && audio[0] == 'a';
    assert image <= mime ==> mime[0] == 'i';
    assert video <= mime ==> mime[0] == 'v';
    assert audio <= mime ==> mime[0] == 'a';
    assert mime == "image/gif" ==> mime[0] == 'i';
  }

  predicate StartsWith(s: string, letters: string) {
    |s| >= |letters| && s[..|letters|] == letters
  }

  /** What the five names stand for, by the media type's own prefix; any other name stands for nothing. */
  lemma CategoriesMean(name: string, mime: string)
    ensures CategoryOf(name).Some? <==> name in ["image", "video", "audio", "gif", "other"]
    ensures CategoryOf(name).Some? ==>
      (InCategory(CategoryOf(name).value, mime) <==>
        && (name == "image" ==> StartsWith(mime, "image/") && mime != "image/gif")
        && (name == "video" ==> StartsWith(mime, "video/"))
        && (name == "audio" ==> StartsWith(mime, "audio/"))
        && (name == "gif" ==> mime == "image/gif")
        && (name == "other" ==> !StartsWith(mime, "image/") && !StartsWith(mime, "video/")
                                && !StartsWith(mime, "audio/")))
  {
    GifIsImage(mime);
  }

  lemma GifIsImage(mime: string)
    ensures mime == "image/gif" ==> StartsWith(mime, "image/")
    ensures forall p | p in ["image/", "video/", "audio/"] :: HasPrefix(mime, p) <==> StartsWith(mime, p)
  {
    assert "image/gif"[..6] == "image/";
  }

  // ---------------------------------------------------------------- the matcher

  /** `_content_type`: the media type without parameters, blanks or capitals. */
  function ContentType(a: Attachment): string {
    var raw := match a.contentType case None => "" case Some(s) => s;
    Lower(Trim(UpTo(raw, ';'), IsSpace))
  }

  /** What the matcher closure captures. */
  datatype Matcher = Matcher(category: Option<string>, fromUser: Option<nat>, allowed: Option<set<string>>) {
    predicate Accepts(a: Attachment, m: Message) {
      if fromUser.Some? && m.author != fromUser.value then false
      else
        var mime := ContentType(a);
        if allowed.Some? && mime !in allowed.value then false
        else
          var pred := if category.Some? then CategoryOf(category.value) else None;
          pred.None? || InCategory(pred.value, mime)
    }
  }

  /** A media type is taken from before the first semicolon, without the blanks around it, in small letters. */
  lemma ContentTypeMeans(a: Attachment, left: string, core: string, right: string, rest: string)
    requires a.contentType == Some(left + core + right + rest)
    requires All(left, IsSpace) && All(right, IsSpace) && ';' !in core && (rest == "" || rest[0] == ';')
    requires core == "" || (!IsSpace(core[0]) && !IsSpace(core[|core| - 1]))
    ensures ContentType(a) == Lower(core)
    ensures ContentType(a.(contentType := None)) == ""
  {
    assert !IsSpace(';');
    assert ';' !in left + core + right;
    UpToIs(left + core + right, rest, ';');
    TrimIs(left, core, right, IsSpace);
    hide IsSpace, All;
  }

  /**
   What a matcher accepts: messages of the author asked for, media types the guild allows,
   and the category asked for; whatever is not given does not matter.
   */
  lemma AcceptsMeans(f: Matcher, a: Attachment, m: Message)
    ensures f.Accepts(a, m) <==>
      && (f.fromUser.Some? ==> m.author == f.fromUser.value)
      && (f.allowed.Some? ==> ContentType(a) in f.allowed.value)
      && (f.category == Some("image") ==> StartsWith(ContentType(a), "image/") && ContentType(a) != "image/gif")
      && (f.category == Some("video") ==> StartsWith(ContentType(a), "video/"))
      && (f.category == Some("audio") ==> StartsWith(ContentType(a), "audio/"))
      && (f.category == Some("gif") ==> ContentType(a) == "image/gif")
      && (f.category == Some("other") ==>
            && !StartsWith(ContentType(a), "image/") && !StartsWith(ContentType(a), "video/")
            && !StartsWith(ContentType(a), "audio/"))
  {
    var mime := ContentType(a);
    if f.category.Some? {
      CategoriesMean(f.category.value, mime);
    }
    hide ContentType, InCategory, CategoryOf, StartsWith;
  }

  /** Users can narrow, never widen: whatever passes the filters passes the guild's policy. */
  lemma FiltersOnlyNarrow(f: Matcher, a: Attachment, m: Message)
    ensures f.Accepts(a, m) ==> Matcher(None, None, f.allowed).Accepts(a, m)
    ensures f.Accepts(a, m) <==>
            Matcher(None, None, f.allowed).Accepts(a, m)
            && Matcher(None, f.fromUser, None).Accepts(a, m)
            && Matcher(f.category, None, None).Accepts(a, m)
  {
  }

  /** An attachment that passes without a category passes with exactly one of the five. */
  lemma OneCategoryAccepts(fromUser: Option<nat>, allowed: Option<set<string>>, a: Attachment, m: Message)
    ensures Matcher(None, fromUser, allowed).Accepts(a, m) <==>
            exists c :: Matcher(Some(CategoryName(c)), fromUser, allowed).Accepts(a, m)
    ensures forall c, d | Matcher(Some(CategoryName(c)), fromUser, allowed).Accepts(a, m)
                          && Matcher(Some(CategoryName(d)), fromUser, allowed).Accepts(a, m) :: c == d
  {
    var mime := ContentType(a);
    CategoriesPartition(mime);
    forall c ensures Matcher(Some(CategoryName(c)), fromUser, allowed).Accepts(a, m)
                <==> Matcher(None, fromUser, allowed).Accepts(a, m) && InCategory(c, mime)
    {
      CategoryNames(c);
      hide ContentType, InCategory, CategoryOf;
    }
    hide Matcher.Accepts, InCategory;
    var c :| InCategory(c, mime);
    assert Matcher(None, fromUser, allowed).Accepts(a, m) ==>
           Matcher(Some(CategoryName(c)), fromUser, allowed).Accepts(a, m);
  }

  // ---------------------------------------------------------------- the payload

  datatype Value = Str(s: string) | Num(n: nat)

  /** The keys of the typed dictionary. */
  datatype Key = CategoryKey | FromUserKey | BeforeKey | AfterKey | DuringKey

  /** The dictionary that crosses the queue. */
  type Payload = map<Key, Value>

  /** What the user typed; the choices are limited to known categories and periods. */
  datatype Inputs = Inputs(
    mediaType: Option<Category>,
    fromUser: Option<nat>,
    before: Option<string>,
    after: Option<string>,
    during: Option<Calendar.Period>)

  function PeriodName(p: Calendar.Period): string {
    match p
    case Today => "today"
    case Yesterday => "yesterday"
    case ThisWeek => "this-week"
    case LastWeek => "last-week"
    case ThisMonth => "this-month"
    case LastMonth => "last-month"
    case ThisYear => "this-year"
    case LastYear => "last-year"
  }

  lemma PeriodNames(p: Calendar.Period)
    ensures Calendar.PeriodOf(PeriodName(p)) == Some(p)
  {
  }

  /** A dictionary with one more entry, if there is a value for it. */
  function Put(p: Payload, key: Key, v: Option<Value>): Payload {
    match v
    case None => p
    case Some(x) => p[key := x]
  }

  function StrOf(o: Option<string>): Option<Value> {
    match o
    case None => None
    case Some(s) => Some(Str(s))
  }

  /** The entries an input stands for. */
  function Entries(i: Inputs): Payload {
    var category := if i.mediaType.Some? then Some(Str(CategoryName(i.mediaType.value))) else None;
    var fromUser := if i.fromUser.Some? then Some(Num(i.fromUser.value)) else None;
    var during := if i.during.Some? then Some(Str(PeriodName(i.during.value))) else None;
    Put(Put(Put(Put(Put(map[], CategoryKey, category), FromUserKey, fromUser),
                BeforeKey, StrOf(i.before)), AfterKey, StrOf(i.after)), DuringKey, during)
  }

  /** `_build_filters`: the dictionary is filled key by key; an empty one becomes None. */
  method BuildFilters(i: Inputs) returns (p: Option<Payload>)
    ensures p == if i == Inputs(None, None, None, None, None) then None else Some(Entries(i))
  {
    hide CategoryName, PeriodName;
    var payload: Payload := map[];
    if i.mediaType.Some? {
      payload := payload[CategoryKey := Str(CategoryName(i.mediaType.value))];
    }
    if i.fromUser.Some? {
      payload := payload[FromUserKey := Num(i.fromUser.value)];
    }
    if i.before.Some? {
      payload := payload[BeforeKey := Str(i.before.value)];
    }
    if i.after.Some? {
      payload := payload[AfterKey := Str(i.after.value)];
    }
    if i.during.Some? {
      payload := payload[DuringKey := Str(PeriodName(i.during.value))];
    }
    EntriesKeys(i);
    hide Entries;
    assert payload == map[] ==> i == Inputs(None, None, None, None, None);
    p := if payload == map[] then None else Some(payload);
  }

  /** Reading an entry back gives the input. */
  lemma EntriesKeys(i: Inputs)
    ensures
      var p := Entries(i);
      && (CategoryKey in p <==> i.mediaType.Some?)
      && (i.mediaType.Some? ==> p[CategoryKey] == Str(CategoryName(i.mediaType.value)))
      && (FromUserKey in p <==> i.fromUser.Some?)
      && (i.fromUser.Some? ==> p[FromUserKey] == Num(i.fromUser.value))
      && (BeforeKey in p <==> i.before.Some?) && (i.before.Some? ==> p[BeforeKey] == Str(i.before.value))
      && (AfterKey in p <==> i.after.Some?) && (i.after.Some? ==> p[AfterKey] == Str(i.after.value))
      && (DuringKey in p <==> i.during.Some?)
      && (i.during.Some? ==> p[DuringKey] == Str(PeriodName(i.during.value)))
  {
  }

  // ---------------------------------------------------------------- the cog's checks

  /** The last is an exception the command does not catch: the duration is too long for `timedelta`. */
  datatype Check = Accepted | Conflict | BadDuration(error: Durations.Error) | Raises

  function CheckDuration(value: Option<string>): Check {
    if value.None? then Accepted
    else
      match Durations.ParseDuration(value.value)
      case Ok(_) => Accepted
      case Err(e) => if e.TooLong? then Raises else BadDuration(e)
  }

  /** `during` excludes the other two; then each duration given must parse. */
  function Validate(i: Inputs): Check {
    if i.during.Some? && (i.before.Some? || i.after.Some?) then Conflict
    else
      var first := CheckDuration(i.before);
      if first != Accepted then first else CheckDuration(i.after)
  }

  // ---------------------------------------------------------------- the worker's resolution

  datatype Resolved = Resolved(matcher: Matcher, before: Option<int>, after: Option<int>)

  /** The worker's outcomes: filters, a parse error, or an overflow of `timedelta` or `datetime`. */
  datatype Resolution = Fine(value: Resolved) | ParseError | Overflow

  function GetStr(p: Payload, key: Key): Option<string> {
    if key in p && p[key].Str? then Some(p[key].s) else None
  }

  function GetNum(p: Payload, key: Key): Option<nat> {
    if key in p && p[key].Num? then Some(p[key].n) else None
  }

  datatype Bound = Unbounded | From(stamp: int) | Unparsed | OutOfRange

  /**
   `now - duration` in microseconds since the first moment of year 1, before which there is
   no `datetime`. An empty or missing value is no bound.
   */
  function BoundOf(value: Option<string>, now: int): Bound {
    if value.None? || value.value == "" then Unbounded
    else
      match Durations.ParseDuration(value.value)
      case Err(e) => if e.TooLong? then OutOfRange else Unparsed
      case Ok(seconds) =>
        var stamp := now - seconds * 1_000_000;
        if stamp < 0 then OutOfRange else From(stamp)
  }

  function StampOf(b: Bound): Option<int> {
    if b.From? then Some(b.stamp) else None
  }

  /** `before` is computed first; whichever bound fails first decides how the worker fails. */
  function WithBounds(matcher: Matcher, before: Bound, after: Bound): Resolution {
    if before.Unparsed? then ParseError
    else if before.OutOfRange? then Overflow
    else if after.Unparsed? then ParseError
    else if after.OutOfRange? then Overflow
    else Fine(Resolved(matcher, StampOf(before), StampOf(after)))
  }

  function Resolve(payload: Option<Payload>, allowed: Option<set<string>>, now: Calendar.Moment): Resolution
    requires now.Valid() && now.date.year >= 2
  {
    var p := match payload case None => map[] case Some(x) => x;
    var matcher := Matcher(GetStr(p, CategoryKey), GetNum(p, FromUserKey), allowed);
    var during := GetStr(p, DuringKey);
    if during.Some? then
      match Calendar.ResolveNamedPeriod(during.value, now)
      case None => ParseError
      case Some(w) =>
        Calendar.WindowOrder(Calendar.PeriodOf(during.value).value, now);
        Fine(Resolved(matcher, Some(Calendar.Stamp(w.1)), Some(Calendar.Stamp(w.0))))
    else
      WithBounds(matcher, BoundOf(GetStr(p, BeforeKey), Calendar.Stamp(now)),
                 BoundOf(GetStr(p, AfterKey), Calendar.Stamp(now)))
  }

  /** The bound an accepted input asks for, said without the payload. */
  function AskedBound(value: Option<string>, now: int): Option<int>
    requires value.Some? ==> Durations.ParseDuration(value.value).Ok?
  {
    match value
    case None => None
    case Some(s) => Some(now - Durations.ParseDuration(s).seconds * 1_000_000)
  }

  /** The duration, if there is one, does not reach back past the first moment of year 1. */
  predicate Reaches(value: Option<string>, now: int) {
    value.Some? && Durations.ParseDuration(value.value).Ok? ==>
      Durations.ParseDuration(value.value).seconds * 1_000_000 <= now
  }

  lemma EmptyDuration()
    ensures Durations.ParseDuration("") == Durations.Err(Durations.BadGrammar)
  {
  }

  function CategoryAsked(i: Inputs): Option<string> {
    if i.mediaType.Some? then Some(CategoryName(i.mediaType.value)) else None
  }

  /** What the worker resolves from the dictionary, read off the inputs. */
  lemma ResolveReads(i: Inputs, allowed: Option<set<string>>, now: Calendar.Moment)
    requires now.Valid() && now.date.year >= 2
    ensures
      var matcher := Matcher(CategoryAsked(i), i.fromUser, allowed);
      Resolve(Some(Entries(i)), allowed, now) ==
        if i.during.Some? then
          var w := Calendar.Window(i.during.value, now);
          Calendar.WindowOrder(i.during.value, now);
          Fine(Resolved(matcher, Some(Calendar.Stamp(w.1)), Some(Calendar.Stamp(w.0))))
        else
          WithBounds(matcher, BoundOf(i.before, Calendar.Stamp(now)), BoundOf(i.after, Calendar.Stamp(now)))
  {
    EntriesKeys(i);
    if i.during.Some? {
      PeriodNames(i.during.value);
    }
    hide Entries, Calendar.Window, Calendar.PeriodOf, BoundOf, WithBounds, CategoryName;
  }

  /** The empty dictionary and None resolve alike. */
  lemma NoFilters(allowed: Option<set<string>>, now: Calendar.Moment)
    requires now.Valid() && now.date.year >= 2
    ensures Resolve(None, allowed, now) == Resolve(Some(Entries(Inputs(None, None, None, None, None))), allowed, now)
  {
  }

  function Enqueued(i: Inputs): Option<Payload> {
    if i == Inputs(None, None, None, None, None) then None else Some(Entries(i))
  }

  /**
   What the cog accepts never meets a parse error in the worker, and resolves if and only if
   neither duration reaches back past the first moment of year 1. It then means the same
   there: the window of the named period, or now minus the very durations the cog parsed.
   */
  lemma AcceptedResolves(i: Inputs, allowed: Option<set<string>>, now: Calendar.Moment)
    requires now.Valid() && now.date.year >= 2 && Validate(i) == Accepted
    ensures
      var r := Resolve(Enqueued(i), allowed, now);
      && (r.Fine? <==> Reaches(i.before, Calendar.Stamp(now)) && Reaches(i.after, Calendar.Stamp(now)))
      && (!r.Fine? ==> r == Overflow)
      && (r.Fine? ==> r.value.matcher == Matcher(CategoryAsked(i), i.fromUser, allowed))
      && (r.Fine? && i.during.None? ==>
            && r.value.before == AskedBound(i.before, Calendar.Stamp(now))
            && r.value.after == AskedBound(i.after, Calendar.Stamp(now)))
      && (r.Fine? && i.during.Some? ==>
            (Calendar.WindowOrder(i.during.value, now);
             && r.value.after == Some(Calendar.Stamp(Calendar.Window(i.during.value, now).0))
             && r.value.before == Some(Calendar.Stamp(Calendar.Window(i.during.value, now).1))))
  {
    EmptyDuration();
    ResolveReads(i, allowed, now);
    if i == Inputs(None, None, None, None, None) {
      NoFilters(allowed, now);
    }
    hide Entries, Resolve, CategoryName, Calendar.Window, Calendar.Stamp, Durations.ParseDuration;
  }

  /**
   And conversely: of the inputs without a conflict the worker resolves exactly those that
   the cog accepts and that stay within the calendar, and those with an empty duration,
   which the cog rejects and the worker would ignore.
   */
  lemma RejectedWouldFail(i: Inputs, allowed: Option<set<string>>, now: Calendar.Moment)
    requires now.Valid() && now.date.year >= 2 && Validate(i) != Conflict
    ensures Resolve(Enqueued(i), allowed, now).Fine? && i.before != Some("") && i.after != Some("") <==>
            Validate(i) == Accepted
            && Reaches(i.before, Calendar.Stamp(now)) && Reaches(i.after, Calendar.Stamp(now))
  {
    EmptyDuration();
    ResolveReads(i, allowed, now);
    if i == Inputs(None, None, None, None, None) {
      NoFilters(allowed, now);
    }
    hide Entries, Resolve, CategoryName, Calendar.Window, Calendar.Stamp, Durations.ParseDuration;
  }

  /** A day back from now is the same time of day one day earlier, and so for any number of days. */
  lemma DaysBack(n: nat, now: Calendar.Moment)
    requires now.Valid() && 0 < n < Calendar.Ordinal(now.date) && n < 1_000_000
    ensures Calendar.MinusDays(now.date, n).Valid()
    ensures BoundOf(Some(Decimal(n) + "d"), Calendar.Stamp(now))
         == From(Calendar.Stamp(Calendar.Moment(Calendar.MinusDays(now.date, n), now.micros)))
  {
    Durations.UnitsMean(n);
    Calendar.MinusDaysOrdinal(now.date, n);
    hide Durations.ParseDuration, Decimal, Calendar.MinusDays, Calendar.Ordinal;
  }

  /** Hours and minutes back from now, within the day. */
  lemma HoursBack(n: nat, now: Calendar.Moment)
    requires now.Valid() && 0 < n
    ensures n * 3_600_000_000 <= now.micros ==>
      BoundOf(Some(Decimal(n) + "h"), Calendar.Stamp(now))
      == From(Calendar.Stamp(Calendar.Moment(now.date, now.micros - n * 3_600_000_000)))
    ensures n * 60_000_000 <= now.micros ==>
      BoundOf(Some(Decimal(n) + "m"), Calendar.Stamp(now))
      == From(Calendar.Stamp(Calendar.Moment(now.date, now.micros - n * 60_000_000)))
  {
    Calendar.OrdinalPositive(now.date);
    if n * 60_000_000 <= now.micros {
      Durations.UnitsMean(n);
    }
    hide Durations.ParseDuration, Decimal, Calendar.Ordinal;
  }

  lemma LongDuration()
    ensures Durations.ParseDuration("200000w") == Durations.Ok(200000 * 604800)
  {
    var d := "200000";
    assert DecimalValue("") == 0;
    assert d[..1] == "2" && "2"[..0] == "" && DecimalValue("2") == 2;
    assert d[..2] == "20" && "20"[..1] == "2" && DecimalValue("20") == 20;
    assert d[..3] == "200" && "200"[..2] == "20" && DecimalValue("200") == 200;
    assert d[..4] == "2000" && "2000"[..3] == "200" && DecimalValue("2000") == 2000;
    assert d[..5] == "20000" && "20000"[..4] == "2000" && DecimalValue("20000") == 20000;
    assert DecimalValue(d) == 200000;
    assert "200000w" == "" + d + ['w'] + "";
    Durations.SpellsParses("200000w", "", d, 'w', "");
  }

  /** An input the cog accepts and the worker cannot resolve, on any day up to the year 3800. */
  lemma AcceptedCanOverflow(allowed: Option<set<string>>, now: Calendar.Moment)
    requires now.Valid() && 2 <= now.date.year <= 3800
    ensures
      var i := Inputs(None, None, Some("200000w"), None, None);
      Validate(i) == Accepted && Resolve(Enqueued(i), allowed, now) == Overflow
  {
    var i := Inputs(None, None, Some("200000w"), None, None);
    LongDuration();
    Calendar.YearsGrow(now.date.year, 3801);
    Calendar.DayInYear(now.date);
    assert Calendar.DaysBeforeYear(3801) == 1387921;
    assert Calendar.Stamp(now) < 1387921 * Calendar.DAY_MICROS;
    hide Durations.ParseDuration, Calendar.DaysBeforeYear;
    AcceptedResolves(i, allowed, now);
    hide Resolve, Entries;
  }
}
