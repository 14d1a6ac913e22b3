/**
 The download task of one task_id as a machine: attempts follow one another, each may
 crash or raise at any await, and what survives is two Redis keys with expiry, one blob
 under one key, and the messages already sent.
 */
module Pipeline {
  import opened Options
  import Schedules

  /** What is cached under `archive_url`: the empty-channel sentinel, or a signed link to one archive. */
  datatype Url =
    | EmptySentinel
    | Signed(archive: nat, sasExpiry: real)

  datatype Cached = Cached(url: Url, expiresAt: real)

  /** The single blob of a job. A new archive gets a new number. */
  datatype Blob = Absent | Partial | Complete(archive: nat)

  /** The settings an attempt reads: retention in hours, and whether a results channel is used. */
  datatype Settings = Settings(retentionHours: int, toChannel: bool) {
    predicate Valid() {
      retentionHours >= 1
    }

    function Ttl(): real {
      (retentionHours * 3600) as real
    }
  }

  /** Where a running attempt stands, between two awaits. */
  datatype Pc =
    | Starting
    | NeedSettings
    | CheckCache(cfg: Settings)
    | Fetching(cfg: Settings)
    | Uploading(cfg: Settings)
    | Signing(cfg: Settings, archive: nat)
    | Cleaning(cfg: Settings, failed: bool)
    | Caching(cfg: Settings, url: Url, since: real)
    | CheckDelivered(cfg: Settings, url: Url)
    | Announcing(cfg: Settings, url: Url)
    | Posting(cfg: Settings, url: Url)
    | Messaging(cfg: Settings, url: Url)
    | Marking(cfg: Settings, url: Url)
    | Finishing(url: Url)

  /** What later statements are about: cache writes, uploads begun, changes of the blob, messages, markers, successes. */
  datatype Event =
    | Landed(url: Url, until: real, delay: real)
    | Began(at: real)
    | Touched(at: real)
    | Sent(url: Url)
    | Marked(url: Url)
    | Succeeded(url: Url)

  datatype World = World(
    clock: real,
    cached: Option<Cached>,
    delivered: Option<real>,
    blob: Blob,
    archives: nat,
    sends: seq<Url>,
    attempt: Option<Pc>,
    marks: nat,
    lost: nat,
    lapses: nat,
    events: seq<Event>)

  function Init(t0: real): World {
    World(t0, None, None, Absent, 0, [], None, 0, 0, 0, [])
  }

  /** The cached URL as GET returns it: nothing once the key has expired. */
  function LiveUrl(w: World): Option<Url> {
    if w.cached.Some? && w.clock < w.cached.value.expiresAt then Some(w.cached.value.url) else None
  }

  predicate LiveMarker(w: World) {
    w.delivered.Some? && w.clock < w.delivered.value
  }

  datatype Action =
    | Tick(to: real)
    | Begin
    | Crash
    | Raise
    | PickUp
    | GetSettings(cfg: Settings)
    | ReadCache
    | Fetch
    | WritePart
    | FinishUpload
    | FindNothing
    | Sign
    | Delete(removed: bool)
    | WriteCache
    | ReadMarker
    | Announce
    | Post(usable: bool)
    | Message
    | WriteMarker
    | Finish

  /** Each action belongs to one point of the attempt; Raise from the upload goes to the cleanup. */
  predicate Enabled(w: World, a: Action) {
    match a
    case Tick(to) => w.clock <= to
    case Begin => w.attempt.None?
    case _ => w.attempt.Some? && EnabledAt(w.attempt.value, a)
  }

  predicate EnabledAt(pc: Pc, a: Action) {
    match a
    case Tick(_) => true
    case Begin => false
    case Crash => true
    case Raise => true
    case PickUp => pc.Starting?
    case GetSettings(cfg) => pc.NeedSettings? && cfg.Valid()
    case ReadCache => pc.CheckCache?
    case Fetch => pc.Fetching?
    case WritePart => pc.Uploading?
    case FinishUpload => pc.Uploading?
    case FindNothing => pc.Uploading?
    case Sign => pc.Signing?
    case Delete(_) => pc.Cleaning?
    case WriteCache => pc.Caching?
    case ReadMarker => pc.CheckDelivered?
    case Announce => pc.Announcing?
    case Post(_) => pc.Posting?
    case Message => pc.Messaging?
    case WriteMarker => pc.Marking?
    case Finish => pc.Finishing?
  }

  function At(w: World, pc: Pc): World {
    w.(attempt := Some(pc))
  }

  function Log(w: World, e: Event): World {
    w.(events := w.events + [e])
  }

  /** The attempt is over; a send whose marker was never written is counted as lost. */
  function End(w: World): World {
    w.(attempt := None, lost := if w.attempt.Some? && w.attempt.value.Marking? then w.lost + 1 else w.lost)
  }

  function Next(w: World, a: Action): World
    requires Enabled(w, a)
  {
    match a
    case Tick(to) => w.(clock := to)
    case Begin => At(w, Starting)
    case _ => Advance(w, w.attempt.value, a)
  }

  function Advance(w: World, pc: Pc, a: Action): World
    requires w.attempt == Some(pc) && EnabledAt(pc, a)
  {
    match a
    case Tick(_) => w
    case Crash => End(w)
    case Raise =>
      // upload_succeeded is still False: the finally block deletes the blob first
      if pc.Uploading? || pc.Signing? then At(w, Cleaning(pc.cfg, true)) else End(w)
    case PickUp => At(w, NeedSettings)
    case GetSettings(cfg) => At(w, CheckCache(cfg))
    case ReadCache =>
      (match LiveUrl(w)
       case Some(url) => At(w, CheckDelivered(pc.cfg, url))
       case None => Log(At(w, Fetching(pc.cfg)), Began(w.clock)))
    case Fetch => At(w, Uploading(pc.cfg))
    case WritePart => Log(w.(blob := Partial), Touched(w.clock))
    case FinishUpload =>
      Log(At(w.(blob := Complete(w.archives), archives := w.archives + 1), Signing(pc.cfg, w.archives)),
          Touched(w.clock))
    case FindNothing => At(w, Cleaning(pc.cfg, false))
    case Sign =>
      At(w, Caching(pc.cfg, Signed(pc.archive, w.clock + pc.cfg.Ttl()), w.clock))
    case Delete(removed) =>
      var w' := if removed then Log(w.(blob := Absent), Touched(w.clock)) else w;
      if pc.failed then End(w') else At(w', Caching(pc.cfg, EmptySentinel, w.clock))
    case WriteCache =>
      var until := w.clock + pc.cfg.Ttl();
      Log(At(w.(cached := Some(Cached(pc.url, until))), CheckDelivered(pc.cfg, pc.url)),
          Landed(pc.url, until, w.clock - pc.since))
    case ReadMarker =>
      // a marker that has run out is gone once it is looked up
      if LiveMarker(w) then At(w, Finishing(pc.url))
      else At(w.(delivered := None, lapses := if w.delivered.Some? then w.lapses + 1 else w.lapses),
              Announcing(pc.cfg, pc.url))
    case Announce =>
      At(w, if pc.cfg.toChannel then Posting(pc.cfg, pc.url) else Messaging(pc.cfg, pc.url))
    case Post(usable) =>
      if usable then Log(At(w.(sends := w.sends + [pc.url]), Marking(pc.cfg, pc.url)), Sent(pc.url))
      else At(w, Messaging(pc.cfg, pc.url))
    case Message => Log(At(w.(sends := w.sends + [pc.url]), Marking(pc.cfg, pc.url)), Sent(pc.url))
    case WriteMarker =>
      Log(At(w.(delivered := Some(w.clock + pc.cfg.Ttl()), marks := w.marks + 1), Finishing(pc.url)),
          Marked(pc.url))
    case Finish => Log(End(w), Succeeded(pc.url))
  }

  function Step(w: World, a: Action): Option<World> {
    if Enabled(w, a) then Some(Next(w, a)) else None
  }

  /** The state after a schedule, or None if some action was not enabled. */
  function Run(w: World, acts: seq<Action>): Option<World> {
    Schedules.Run(Step, w, acts)
  }

  // ---------------------------------------------------------------- the invariant of every run

  /** The attempt is in the part that only runs when it found no cached URL. */
  predicate Exclusive(pc: Pc) {
    pc.Fetching? || pc.Uploading? || pc.Signing? || pc.Cleaning? || pc.Caching?
  }

  /** The attempt is past the marker check and has not written the marker. */
  predicate Delivering(pc: Pc) {
    pc.Announcing? || pc.Posting? || pc.Messaging? || pc.Marking?
  }

  predicate Configured(pc: Pc) {
    pc.CheckCache? || Exclusive(pc) || pc.CheckDelivered? || Delivering(pc)
  }

  /** The cached entry is the one some cache write landed. */
  ghost predicate Stored(w: World, e: Cached) {
    exists k :: 0 <= k < |w.events| && w.events[k].Landed?
                && w.events[k].url == e.url && w.events[k].until == e.expiresAt
  }

  /** The URL in an attempt's hands is one that landed in the cache. */
  ghost predicate Known(w: World, url: Url) {
    url.Signed? ==> exists k :: 0 <= k < |w.events| && w.events[k].Landed? && w.events[k].url == url
  }

  /** The upload side: no cached URL meanwhile, and the blob is what is about to be cached. */
  ghost predicate Holding(w: World, pc: Pc) {
    && (Exclusive(pc) ==> LiveUrl(w).None?)
    && (pc.Signing? ==> w.blob == Complete(pc.archive))
    && (pc.Caching? ==>
          && pc.since <= w.clock
          && (pc.url.Signed? ==> w.blob == Complete(pc.url.archive)
                                 && pc.url.sasExpiry == pc.since + pc.cfg.Ttl()))
    && (Configured(pc) ==> pc.cfg.Valid())
  }

  /** The delivery side: the URL in hand once landed, and an attempt about to succeed has sent. */
  ghost predicate Carrying(w: World, pc: Pc) {
    && (pc.CheckDelivered? || Delivering(pc) || pc.Finishing? ==> Known(w, pc.url))
    && (pc.Finishing? ==> |w.sends| >= 1)
  }

  ghost predicate PcInv(w: World, pc: Pc) {
    Holding(w, pc) && Carrying(w, pc)
  }

  /** A cached key that landed is still there, untouched, or has run out. */
  ghost predicate LandedInv(w: World, e: Event) {
    e.Landed? ==>
      && e.delay >= 0.0
      && (e.url.Signed? ==> e.until == e.url.sasExpiry + e.delay)
      && (w.clock < e.until ==> w.cached == Some(Cached(e.url, e.until)))
  }

  ghost predicate CacheInv(w: World) {
    && (forall k | 0 <= k < |w.events| :: LandedInv(w, w.events[k]))
    && (w.cached.Some? ==> Stored(w, w.cached.value))
    && (LiveUrl(w).Some? && LiveUrl(w).value.Signed? ==> w.blob == Complete(LiveUrl(w).value.archive))
    && (forall k | 0 <= k < |w.sends| :: Known(w, w.sends[k]))
  }

  /** After a cache write lands, uploads begin and the blob changes only once that key has run out. */
  ghost predicate OrderInv(w: World) {
    && (forall k | 0 <= k < |w.events| && w.events[k].Began? :: w.events[k].at <= w.clock)
    && (forall k | 0 <= k < |w.events| && w.events[k].Touched? :: w.events[k].at <= w.clock)
    && (forall j, k | 0 <= j < k < |w.events| && w.events[j].Landed? ::
          (w.events[k].Began? || w.events[k].Touched? ==> w.events[j].until <= w.events[k].at))
  }

  /** The send account: every returned send has its marker, was lost, or is about to be marked; markers run out or stand. */
  ghost predicate SendInv(w: World) {
    && |w.sends| == w.marks + w.lost + (if w.attempt.Some? && w.attempt.value.Marking? then 1 else 0)
    && w.marks == w.lapses + (if w.delivered.Some? then 1 else 0)
    && (w.attempt.Some? && Delivering(w.attempt.value) ==> w.delivered.None?)
    && (SomeSuccess(w) ==> |w.sends| >= 1)
  }

  /** The URL that landed last. */
  function LastLanded(events: seq<Event>): Option<Url> {
    if events == [] then None
    else
      var e := events[|events| - 1];
      if e.Landed? then Some(e.url) else LastLanded(events[..|events| - 1])
  }

  /** The marker was written after the last cache write. */
  predicate MarkedSince(events: seq<Event>) {
    events != []
    && var e := events[|events| - 1];
       e.Marked? || (!e.Landed? && MarkedSince(events[..|events| - 1]))
  }

  /** A message was sent after the last cache write. */
  predicate SentSince(events: seq<Event>) {
    events != []
    && var e := events[|events| - 1];
       e.Sent? || (!e.Landed? && SentSince(events[..|events| - 1]))
  }

  /** The archive that is being signed or cached is the newest, and no link to it has landed yet. */
  ghost predicate FreshInv(w: World) {
    && (forall k | 0 <= k < |w.events| :: LandedBelow(w.events[k], w.archives))
    && (w.attempt.Some? && InMaking(w.attempt.value).Some? ==>
          && w.archives > 0 && InMaking(w.attempt.value).value == w.archives - 1
          && forall k | 0 <= k < |w.events| :: LandedBelow(w.events[k], w.archives - 1))
  }

  predicate LandedBelow(e: Event, n: nat) {
    e.Landed? && e.url.Signed? ==> e.url.archive < n
  }

  /** The archive whose link is not cached yet. */
  function InMaking(pc: Pc): Option<nat> {
    match pc
    case Signing(_, archive) => Some(archive)
    case Caching(_, Signed(archive, _), _) => Some(archive)
    case _ => None
  }

  predicate InHand(pc: Pc) {
    pc.CheckDelivered? || Delivering(pc) || pc.Finishing?
  }

  /** Everybody works with the URL that landed last. */
  ghost predicate HandInv(w: World) {
    && (w.cached.Some? ==> LastLanded(w.events) == Some(w.cached.value.url))
    && (w.attempt.Some? && InHand(w.attempt.value) ==> LastLanded(w.events) == Some(w.attempt.value.url))
  }

  /** Messages sent and markers written since then are about it. */
  ghost predicate SentInv(w: World) {
    && (SentSince(w.events) ==> LastLanded(w.events).Some? && LastLanded(w.events).value in w.sends)
    && (MarkedSince(w.events) ==> SentSince(w.events))
    && (w.attempt.Some? && w.attempt.value.Marking? ==> SentSince(w.events))
  }

  /** A link that was sent was sent since it landed. */
  ghost predicate LinkInv(w: World) {
    LastLanded(w.events).Some? && LastLanded(w.events).value.Signed? && LastLanded(w.events).value in w.sends ==>
      SentSince(w.events)
  }

  /** If something was sent since the last cache write and not marked, every marker has run out. */
  ghost predicate UnmarkedInv(w: World) {
    SentSince(w.events) && !MarkedSince(w.events) ==>
      !LiveMarker(w) && !(w.attempt.Some? && w.attempt.value.Finishing?)
  }

  ghost predicate ReportInv(w: World) {
    FreshInv(w) && HandInv(w) && SentInv(w) && LinkInv(w) && UnmarkedInv(w)
  }

  ghost predicate Inv(w: World) {
    && (w.attempt.Some? ==> PcInv(w, w.attempt.value))
    && CacheInv(w) && OrderInv(w) && SendInv(w) && ReportInv(w)
  }

  /** Known URLs stay known as the log grows. */
  lemma KnownGrows(w: World, w': World, url: Url)
    requires Known(w, url) && w.events <= w'.events
    ensures Known(w', url)
  {
  }

  lemma StoredIsKnown(w: World, w': World, e: Cached)
    requires Stored(w, e) && w.events <= w'.events
    ensures Stored(w', e) && Known(w', e.url)
  {
  }

  lemma HoldingStep(w: World, a: Action)
    requires Inv(w) && Enabled(w, a)
    ensures Next(w, a).attempt.Some? ==> Holding(Next(w, a), Next(w, a).attempt.value)
  {
    hide OrderInv, SendInv, CacheInv, ReportInv, Carrying, Known;
  }

  lemma CarryingStep(w: World, a: Action)
    requires Inv(w) && Enabled(w, a)
    ensures Next(w, a).attempt.Some? ==> Carrying(Next(w, a), Next(w, a).attempt.value)
  {
    hide OrderInv, ReportInv, Holding;
    var w' := Next(w, a);
    if w.attempt.Some? && w'.attempt.Some? {
      var pc := w.attempt.value;
      if pc.CheckDelivered? || Delivering(pc) || pc.Finishing? {
        KnownGrows(w, w', pc.url);
      }
      if a.ReadCache? && LiveUrl(w).Some? {
        StoredIsKnown(w, w', w.cached.value);
      }
      if a.WriteCache? {
        assert w'.events[|w.events|].Landed? && w'.events[|w.events|].url == pc.url;
      }
      hide Known;
    }
  }

  lemma CacheStep(w: World, a: Action)
    requires Inv(w) && Enabled(w, a)
    ensures CacheInv(Next(w, a))
  {
    hide OrderInv, SendInv, ReportInv;
    var w' := Next(w, a);
    assert w.events <= w'.events;
    forall k | 0 <= k < |w'.events| ensures LandedInv(w', w'.events[k]) {
      if k < |w.events| {
        assert LandedInv(w, w.events[k]);
      }
    }
    if a.WriteCache? {
      var e := w'.events[|w.events|];
      assert e.Landed? && e.url == w'.cached.value.url && e.until == w'.cached.value.expiresAt;
    } else if w'.cached.Some? {
      StoredIsKnown(w, w', w.cached.value);
    }
    forall k | 0 <= k < |w'.sends| ensures Known(w', w'.sends[k]) {
      if k < |w.sends| {
        KnownGrows(w, w', w.sends[k]);
      } else {
        KnownGrows(w, w', w.attempt.value.url);
      }
    }
  }

  /** What a step adds to the log: an upload begins, or the blob changes, now, with no cached URL. */
  lemma NewEvent(w: World, a: Action)
    requires Inv(w) && Enabled(w, a)
    ensures
      var w' := Next(w, a);
      && w.events <= w'.events && |w'.events| <= |w.events| + 1 && w.clock <= w'.clock
      && (|w.events| < |w'.events| ==>
            var e := w'.events[|w.events|];
            (e.Began? || e.Touched? ==>
               e.at == w.clock && (w.cached.Some? ==> w.cached.value.expiresAt <= w.clock)))
  {
    hide SendInv, OrderInv, CacheInv, ReportInv, Carrying;
  }

  lemma OrderStep(w: World, a: Action)
    requires Inv(w) && Enabled(w, a)
    ensures OrderInv(Next(w, a))
  {
    hide SendInv, ReportInv, Known, Carrying, Stored;
    var w' := Next(w, a);
    NewEvent(w, a);
    forall j, k | 0 <= j < k < |w'.events| && w'.events[j].Landed?
                  && (w'.events[k].Began? || w'.events[k].Touched?)
      ensures w'.events[j].until <= w'.events[k].at
    {
      hide Next, PcInv, LiveUrl;
      assert w'.events[j] == w.events[j];
      if k == |w.events| {
        assert LandedInv(w, w.events[j]);
      } else {
        assert w'.events[k] == w.events[k];
      }
    }
  }

  ghost predicate SomeSuccess(w: World) {
    exists k :: 0 <= k < |w.events| && w.events[k].Succeeded?
  }

  lemma SuccessSeen(w: World, w': World)
    requires w.events <= w'.events && |w'.events| <= |w.events| + 1
    ensures SomeSuccess(w') ==>
              SomeSuccess(w) || (|w.events| < |w'.events| && w'.events[|w.events|].Succeeded?)
  {
  }

  lemma SendStep(w: World, a: Action)
    requires Inv(w) && Enabled(w, a)
    ensures SendInv(Next(w, a))
  {
    hide OrderInv, CacheInv, ReportInv, Known, Holding, SomeSuccess;
    SuccessSeen(w, Next(w, a));
  }

  lemma OneMoreEvent(events: seq<Event>, e: Event)
    ensures LastLanded(events + [e]) == if e.Landed? then Some(e.url) else LastLanded(events)
    ensures SentSince(events + [e]) <==> e.Sent? || (!e.Landed? && SentSince(events))
    ensures MarkedSince(events + [e]) <==> e.Marked? || (!e.Landed? && MarkedSince(events))
  {
    assert (events + [e])[..|events|] == events;
  }

  predicate Sends(a: Action) {
    a.Message? || (a.Post? && a.usable)
  }

  /** What a step adds to the log, in so far as links, messages and markers go. */
  lemma EventStep(w: World, a: Action)
    requires Enabled(w, a)
    ensures
      var (events, events') := (w.events, Next(w, a).events);
      && LastLanded(events') == (if a.WriteCache? then Some(w.attempt.value.url) else LastLanded(events))
      && (SentSince(events') <==> Sends(a) || (!a.WriteCache? && SentSince(events)))
      && (MarkedSince(events') <==> a.WriteMarker? || (!a.WriteCache? && MarkedSince(events)))
  {
    EventKind(w, a);
    var events' := Next(w, a).events;
    hide LastLanded, SentSince, MarkedSince, Next, Enabled, Sends;
    if events' != w.events {
      OneMoreEvent(w.events, events'[|w.events|]);
      assert events' == w.events + [events'[|w.events|]];
    }
  }

  lemma EventKind(w: World, a: Action)
    requires Enabled(w, a)
    ensures
      var (events, events') := (w.events, Next(w, a).events);
      && events <= events' && |events'| <= |events| + 1
      && (a.WriteCache? ==> events' != events && events'[|events|].Landed? && w.attempt.Some?
                            && InHandOrCaching(w.attempt.value) && events'[|events|].url == w.attempt.value.url)
      && (Sends(a) ==> events' != events && events'[|events|].Sent?)
      && (a.WriteMarker? ==> events' != events && events'[|events|].Marked?)
      && (events' != events ==>
            && (events'[|events|].Landed? ==> a.WriteCache?)
            && (events'[|events|].Sent? ==> Sends(a))
            && (events'[|events|].Marked? ==> a.WriteMarker?))
  {
  }

  predicate InHandOrCaching(pc: Pc) {
    pc.Caching? || InHand(pc)
  }

  lemma FreshStep(w: World, a: Action)
    requires FreshInv(w) && Enabled(w, a)
    ensures FreshInv(Next(w, a))
  {
    var w' := Next(w, a);
    forall k | 0 <= k < |w'.events| ensures LandedBelow(w'.events[k], w'.archives) {
      if k < |w.events| {
        assert LandedBelow(w.events[k], w.archives);
      }
    }
    if w'.attempt.Some? && InMaking(w'.attempt.value).Some? {
      forall k | 0 <= k < |w'.events| ensures LandedBelow(w'.events[k], w'.archives - 1) {
        if k < |w.events| {
          assert LandedBelow(w.events[k], w.archives);
        }
      }
    }
  }

  lemma HandStep(w: World, a: Action)
    requires HandInv(w) && Enabled(w, a)
    ensures HandInv(Next(w, a))
  {
    EventStep(w, a);
    UrlMoves(w, a);
    hide LastLanded, SentSince, MarkedSince, Next, Enabled, Sends, InHand;
  }

  /** Where a step takes the cached URL, and the URL in hand, from. */
  lemma UrlMoves(w: World, a: Action)
    requires Enabled(w, a)
    ensures
      var w' := Next(w, a);
      && (a.WriteCache? ==> w.attempt.Some? && InHandOrCaching(w.attempt.value)
                            && w'.cached.Some? && w'.cached.value.url == w.attempt.value.url)
      && (!a.WriteCache? ==> w'.cached == w.cached)
      && (w'.attempt.Some? && InHand(w'.attempt.value) ==>
            if a.WriteCache? then w'.attempt.value.url == w.attempt.value.url
            else (w.cached.Some? && w'.attempt.value.url == w.cached.value.url)
                 || (w.attempt.Some? && InHand(w.attempt.value) && w'.attempt.value.url == w.attempt.value.url))
  {
  }

  lemma SentStep(w: World, a: Action)
    requires HandInv(w) && SentInv(w) && Enabled(w, a)
    ensures SentInv(Next(w, a))
  {
    EventStep(w, a);
    SendsGrow(w, a);
    hide LastLanded, SentSince, MarkedSince, Next, Enabled, Sends;
    var w' := Next(w, a);
    if LastLanded(w.events).Some? && LastLanded(w.events).value in w.sends {
      var k :| 0 <= k < |w.sends| && w.sends[k] == LastLanded(w.events).value;
      assert w'.sends[k] == w.sends[k];
    }
  }

  lemma SendsGrow(w: World, a: Action)
    requires HandInv(w) && Enabled(w, a)
    ensures
      var w' := Next(w, a);
      && w.sends <= w'.sends
      && (Sends(a) ==> !a.WriteCache? && LastLanded(w.events).Some?
                       && w'.sends == w.sends + [LastLanded(w.events).value])
      && (w'.attempt.Some? && w'.attempt.value.Marking? ==>
            !a.WriteCache? && (Sends(a) || w.attempt == w'.attempt))
      && (a.WriteMarker? ==> w.attempt.Some? && w.attempt.value.Marking?)
      && (a.WriteMarker? || Sends(a) ==> !a.WriteCache?)
  {
    hide LastLanded;
  }

  /** A link that lands was never sent before. */
  lemma NewLinkUnsent(w: World)
    requires FreshInv(w) && (forall k | 0 <= k < |w.sends| :: Known(w, w.sends[k]))
    requires w.attempt.Some? && w.attempt.value.Caching? && w.attempt.value.url.Signed?
    ensures w.attempt.value.url !in w.sends
  {
    forall k | 0 <= k < |w.sends| ensures w.sends[k] != w.attempt.value.url {
      assert Known(w, w.sends[k]);
      if w.sends[k].Signed? {
        var j :| 0 <= j < |w.events| && w.events[j].Landed? && w.events[j].url == w.sends[k];
        assert LandedBelow(w.events[j], w.archives - 1);
      }
    }
  }

  lemma LinkStep(w: World, a: Action)
    requires Inv(w) && Enabled(w, a)
    ensures LinkInv(Next(w, a))
  {
    EventStep(w, a);
    if a.WriteCache? && w.attempt.value.url.Signed? {
      NewLinkUnsent(w);
    }
    hide LastLanded, SentSince, MarkedSince, PcInv, OrderInv, CacheInv, SendInv, FreshInv;
  }

  lemma UnmarkedStep(w: World, a: Action)
    requires SendInv(w) && SentInv(w) && UnmarkedInv(w) && Enabled(w, a)
    ensures UnmarkedInv(Next(w, a))
  {
    EventStep(w, a);
    hide LastLanded, SentSince, MarkedSince, SomeSuccess;
  }

  lemma NextKeepsInv(w: World, a: Action)
    requires Inv(w) && Enabled(w, a)
    ensures Inv(Next(w, a))
  {
    HoldingStep(w, a);
    CarryingStep(w, a);
    CacheStep(w, a);
    OrderStep(w, a);
    SendStep(w, a);
    FreshStep(w, a);
    HandStep(w, a);
    SentStep(w, a);
    LinkStep(w, a);
    UnmarkedStep(w, a);
  }

  lemma RunKeepsInv(w: World, acts: seq<Action>)
    requires Inv(w) && Run(w, acts).Some?
    ensures Inv(Run(w, acts).value)
  {
    forall x, a | Inv(x) && Step(x, a).Some? ensures Inv(Step(x, a).value) {
      NextKeepsInv(x, a);
    }
    hide Inv, Next, Enabled;
    Schedules.Keeps(Step, Inv, w, acts);
  }

  /** The state every theorem below is about: reached from an empty world by some schedule. */
  ghost predicate Reached(t0: real, acts: seq<Action>, w: World) {
    Run(Init(t0), acts) == Some(w)
  }

  lemma ReachedInv(t0: real, acts: seq<Action>, w: World)
    requires Reached(t0, acts, w)
    ensures Inv(w)
  {
    RunKeepsInv(Init(t0), acts);
  }

  // ---------------------------------------------------------------- the theorems

  /**
   Across all attempts, crashes, failed cleanups and expiries: a live cached link means
   that the archive it was signed for is complete under the job's key.
   */
  lemma CachedLinkHasItsArchive(t0: real, acts: seq<Action>, w: World)
    requires Reached(t0, acts, w)
    requires LiveUrl(w).Some? && LiveUrl(w).value.Signed?
    ensures w.blob == Complete(LiveUrl(w).value.archive)
  {
    ReachedInv(t0, acts, w);
    hide Schedules.Run;
  }

  /** No step deletes or overwrites the blob, or replaces the cached URL, while one is cached. */
  lemma CachedLinkIsProtected(t0: real, acts: seq<Action>, w: World, a: Action)
    requires Reached(t0, acts, w) && Enabled(w, a) && LiveUrl(w).Some?
    ensures Next(w, a).blob == w.blob && Next(w, a).cached == w.cached
    ensures !a.WritePart? && !a.FinishUpload? && !a.Delete? && !a.WriteCache?
  {
    ReachedInv(t0, acts, w);
    hide Schedules.Run, ReportInv, CacheInv, OrderInv, SendInv, Known;
  }

  /** A link that was sent works until its own expiry: its archive is still the blob. */
  lemma SentLinkStaysGood(t0: real, acts: seq<Action>, w: World, k: nat)
    requires Reached(t0, acts, w)
    requires k < |w.sends| && w.sends[k].Signed? && w.clock < w.sends[k].sasExpiry
    ensures w.blob == Complete(w.sends[k].archive)
  {
    ReachedInv(t0, acts, w);
    hide Schedules.Run, ReportInv, OrderInv, SendInv;
    assert Known(w, w.sends[k]);
    var j :| 0 <= j < |w.events| && w.events[j].Landed? && w.events[j].url == w.sends[k];
    assert LandedInv(w, w.events[j]);
  }

  /**
   Once a cache write has landed, no attempt begins another upload, or touches the blob,
   before that key runs out, hence not before the link's own expiry; later changes of the
   retention setting do not matter.
   */
  lemma NoEarlyReupload(t0: real, acts: seq<Action>, w: World, j: nat, k: nat)
    requires Reached(t0, acts, w)
    requires j < k < |w.events| && w.events[j].Landed?
    requires w.events[k].Began? || w.events[k].Touched?
    ensures w.events[j].until <= w.events[k].at
    ensures w.events[j].url.Signed? ==> w.events[j].url.sasExpiry <= w.events[k].at
  {
    ReachedInv(t0, acts, w);
    hide Schedules.Run, ReportInv, SendInv, Known;
    assert LandedInv(w, w.events[j]);
  }

  /** An attempt that succeeded, and a delivered marker, both stand for a send that returned. */
  lemma SuccessMeansSent(t0: real, acts: seq<Action>, w: World)
    requires Reached(t0, acts, w)
    ensures SomeSuccess(w) ==> |w.sends| >= 1
    ensures w.delivered.Some? ==> |w.sends| >= 1
  {
    ReachedInv(t0, acts, w);
    hide Schedules.Run, ReportInv, OrderInv, CacheInv, Known;
  }

  /**
   Exact account of the messages: each was followed by its marker or by a failure before the
   marker landed, or is about to be marked, and each marker stands or was found run out once.
   So there is at most one more message than such failures and markers that ran out.
   */
  lemma SendAccount(t0: real, acts: seq<Action>, w: World)
    requires Reached(t0, acts, w)
    ensures |w.sends| == w.marks + w.lost + (if w.attempt.Some? && w.attempt.value.Marking? then 1 else 0)
    ensures w.marks == w.lapses + (if w.delivered.Some? then 1 else 0)
    ensures |w.sends| <= 1 + w.lost + w.lapses
  {
    ReachedInv(t0, acts, w);
    hide Schedules.Run, ReportInv, OrderInv, CacheInv, Known;
  }

  /**
   What a successful attempt reports is meant to have been sent, now or earlier. It was if
   and only if the marker was written after the reported URL landed in the cache. For a link
   this is whether it is among the messages sent at all; the sentinel of an empty channel
   may have been sent before on another occasion.
   */
  lemma ReportedIsSentIff(t0: real, acts: seq<Action>, w: World)
    requires Reached(t0, acts, w) && w.attempt.Some? && w.attempt.value.Finishing?
    ensures LastLanded(w.events) == Some(w.attempt.value.url)
    ensures SentSince(w.events) <==> MarkedSince(w.events)
    ensures SentSince(w.events) ==> w.attempt.value.url in w.sends
    ensures w.attempt.value.url.Signed? ==> (w.attempt.value.url in w.sends <==> MarkedSince(w.events))
  {
    ReachedInv(t0, acts, w);
    hide Schedules.Run, OrderInv, CacheInv, SendInv, Known, LastLanded, SentSince, MarkedSince;
  }

  /** A reused link may have run out, but by less than the time its cache write took. */
  lemma ReusedLinkAge(t0: real, acts: seq<Action>, w: World)
    requires Reached(t0, acts, w) && w.attempt.Some? && w.attempt.value.CheckCache?
    requires LiveUrl(w).Some? && LiveUrl(w).value.Signed?
    ensures exists k :: 0 <= k < |w.events| && w.events[k].Landed? && w.events[k].url == LiveUrl(w).value
                        && w.clock < LiveUrl(w).value.sasExpiry + w.events[k].delay
  {
    ReachedInv(t0, acts, w);
    hide Schedules.Run, ReportInv, OrderInv, SendInv;
    var e := w.cached.value;
    var k :| 0 <= k < |w.events| && w.events[k].Landed?
             && w.events[k].url == e.url && w.events[k].until == e.expiresAt;
    assert LandedInv(w, w.events[k]);
  }

  // ---------------------------------------------------------------- where the two expiries part

  /** Whoever finds the key at t finds a link that has not run out. */
  ghost predicate ReuseIsTimely(e: Event, t: real)
    requires e.Landed? && e.url.Signed?
  {
    t < e.until ==> t < e.url.sasExpiry
  }

  /**
   The cache key is meant to live as long as the link. It lives longer by exactly the time
   between signing and the landing of the write, so every reuse of the key hands out an
   unexpired link if and only if that time was zero.
   */
  lemma ReuseIsTimelyIff(t0: real, acts: seq<Action>, w: World, k: nat)
    requires Reached(t0, acts, w)
    requires k < |w.events| && w.events[k].Landed? && w.events[k].url.Signed?
    ensures (forall t :: ReuseIsTimely(w.events[k], t)) <==> w.events[k].delay == 0.0
  {
    ReachedInv(t0, acts, w);
    hide Schedules.Run, ReportInv, OrderInv, SendInv;
    var e := w.events[k];
    assert LandedInv(w, e);
    if forall t :: ReuseIsTimely(e, t) {
      assert ReuseIsTimely(e, e.url.sasExpiry);
    }
  }

  const HOUR: Settings := Settings(1, false)
  const FIRST_LINK: Url := Signed(0, 3600.0)

  /** Sign at 0; then cache at 10 and crash; the retry at 3605 finds the key and sends the link. */
  function FirstUpload(): seq<Action> {
    [Begin, PickUp, GetSettings(HOUR), ReadCache, Fetch, FinishUpload, Sign]
  }

  function LandAndCrash(): seq<Action> {
    [Tick(10.0), WriteCache, Crash, Tick(3605.0)]
  }

  function LateRetry(): seq<Action> {
    [Begin, PickUp, GetSettings(HOUR), ReadCache, ReadMarker, Announce, Message]
  }

  const SIGNED_AT_0: World :=
    World(0.0, None, None, Complete(0), 1, [], Some(Caching(HOUR, FIRST_LINK, 0.0)), 0, 0, 0,
          [Began(0.0), Touched(0.0)])
  const CRASHED: World :=
    World(3605.0, Some(Cached(FIRST_LINK, 3610.0)), None, Complete(0), 1, [], None, 0, 0, 0,
          [Began(0.0), Touched(0.0), Landed(FIRST_LINK, 3610.0, 10.0)])

  lemma FirstSegment()
    ensures Run(Init(0.0), FirstUpload()) == Some(SIGNED_AT_0)
  {
    hide Schedules.Run;
    var w := Init(0.0);
    var w1 := w.(events := [Began(0.0)]);
    var w2 := SIGNED_AT_0.(attempt := Some(Signing(HOUR, 0)));
    Schedules.First(Step, w, FirstUpload(), At(w, Starting),
         [PickUp, GetSettings(HOUR), ReadCache, Fetch, FinishUpload, Sign]);
    Schedules.First(Step, At(w, Starting), [PickUp, GetSettings(HOUR), ReadCache, Fetch, FinishUpload, Sign],
         At(w, NeedSettings), [GetSettings(HOUR), ReadCache, Fetch, FinishUpload, Sign]);
    Schedules.First(Step, At(w, NeedSettings), [GetSettings(HOUR), ReadCache, Fetch, FinishUpload, Sign],
         At(w, CheckCache(HOUR)), [ReadCache, Fetch, FinishUpload, Sign]);
    assert Next(At(w, CheckCache(HOUR)), ReadCache) == At(w1, Fetching(HOUR));
    Schedules.First(Step, At(w, CheckCache(HOUR)), [ReadCache, Fetch, FinishUpload, Sign],
         At(w1, Fetching(HOUR)), [Fetch, FinishUpload, Sign]);
    Schedules.First(Step, At(w1, Fetching(HOUR)), [Fetch, FinishUpload, Sign],
         At(w1, Uploading(HOUR)), [FinishUpload, Sign]);
    assert Next(At(w1, Uploading(HOUR)), FinishUpload) == w2;
    Schedules.First(Step, At(w1, Uploading(HOUR)), [FinishUpload, Sign], w2, [Sign]);
    Schedules.First(Step, w2, [Sign], SIGNED_AT_0, []);
    Schedules.Empty(Step, SIGNED_AT_0);
  }

  lemma SecondSegment()
    ensures Run(SIGNED_AT_0, LandAndCrash()) == Some(CRASHED)
  {
    hide Schedules.Run;
    var w1 := SIGNED_AT_0.(clock := 10.0);
    var w3 := CRASHED.(clock := 10.0);
    var w2 := At(w3, CheckDelivered(HOUR, FIRST_LINK));
    Schedules.First(Step, SIGNED_AT_0, LandAndCrash(), w1, [WriteCache, Crash, Tick(3605.0)]);
    assert Next(w1, WriteCache) == w2;
    Schedules.First(Step, w1, [WriteCache, Crash, Tick(3605.0)], w2, [Crash, Tick(3605.0)]);
    Schedules.First(Step, w2, [Crash, Tick(3605.0)], w3, [Tick(3605.0)]);
    Schedules.First(Step, w3, [Tick(3605.0)], CRASHED, []);
    Schedules.Empty(Step, CRASHED);
  }

  lemma ThirdSegment()
    ensures Run(CRASHED, LateRetry())
         == Some(At(CRASHED.(sends := [FIRST_LINK], events := CRASHED.events + [Sent(FIRST_LINK)]),
                    Marking(HOUR, FIRST_LINK)))
  {
    hide Schedules.Run;
    var w := CRASHED;
    Schedules.First(Step, w, LateRetry(), At(w, Starting),
         [PickUp, GetSettings(HOUR), ReadCache, ReadMarker, Announce, Message]);
    Schedules.First(Step, At(w, Starting), [PickUp, GetSettings(HOUR), ReadCache, ReadMarker, Announce, Message],
         At(w, NeedSettings), [GetSettings(HOUR), ReadCache, ReadMarker, Announce, Message]);
    Schedules.First(Step, At(w, NeedSettings), [GetSettings(HOUR), ReadCache, ReadMarker, Announce, Message],
         At(w, CheckCache(HOUR)), [ReadCache, ReadMarker, Announce, Message]);
    Schedules.First(Step, At(w, CheckCache(HOUR)), [ReadCache, ReadMarker, Announce, Message],
         At(w, CheckDelivered(HOUR, FIRST_LINK)), [ReadMarker, Announce, Message]);
    Schedules.First(Step, At(w, CheckDelivered(HOUR, FIRST_LINK)), [ReadMarker, Announce, Message],
         At(w, Announcing(HOUR, FIRST_LINK)), [Announce, Message]);
    Schedules.First(Step, At(w, Announcing(HOUR, FIRST_LINK)), [Announce, Message],
         At(w, Messaging(HOUR, FIRST_LINK)), [Message]);
    var sent := At(w.(sends := [FIRST_LINK], events := w.events + [Sent(FIRST_LINK)]), Marking(HOUR, FIRST_LINK));
    assert Next(At(w, Messaging(HOUR, FIRST_LINK)), Message) == sent;
    Schedules.First(Step, At(w, Messaging(HOUR, FIRST_LINK)), [Message], sent, []);
    Schedules.Empty(Step, sent);
  }

  /** An expired link can be sent: the key was still cached five seconds after the link ran out. */
  lemma ExpiredLinkCanBeSent()
    ensures
      var run := Run(Init(0.0), FirstUpload() + LandAndCrash() + LateRetry());
      run.Some? && run.value.sends == [FIRST_LINK] && FIRST_LINK.sasExpiry < run.value.clock
  {
    hide Schedules.Run;
    FirstSegment();
    SecondSegment();
    ThirdSegment();
    Schedules.Split(Step, Init(0.0), FirstUpload(), LandAndCrash());
    Schedules.Split(Step, Init(0.0), FirstUpload() + LandAndCrash(), LateRetry());
  }

  // ---------------------------------------------------------------- a reported link that nobody got

  const SECOND_LINK: Url := Signed(1, 7250.0)

  /** Cache and send the first link; write its marker a little later; crash. */
  function SendFirst(): seq<Action> {
    [WriteCache, ReadMarker, Announce, Message]
  }

  function MarkLate(): seq<Action> {
    [Tick(100.0), WriteMarker, Crash, Tick(3650.0)]
  }

  /** The key has run out, the marker has not: upload again, and skip the message. */
  function UploadAgain(): seq<Action> {
    [Begin, PickUp, GetSettings(HOUR), ReadCache, Fetch, FinishUpload, Sign]
  }

  function SkipMessage(): seq<Action> {
    [WriteCache, ReadMarker]
  }

  const SENT_FIRST: World :=
    World(0.0, Some(Cached(FIRST_LINK, 3600.0)), None, Complete(0), 1, [FIRST_LINK],
          Some(Marking(HOUR, FIRST_LINK)), 0, 0, 0,
          [Began(0.0), Touched(0.0), Landed(FIRST_LINK, 3600.0, 0.0), Sent(FIRST_LINK)])
  const MARKED_LATE: World :=
    World(3650.0, Some(Cached(FIRST_LINK, 3600.0)), Some(3700.0), Complete(0), 1, [FIRST_LINK], None, 1, 0, 0,
          [Began(0.0), Touched(0.0), Landed(FIRST_LINK, 3600.0, 0.0), Sent(FIRST_LINK), Marked(FIRST_LINK)])
  const SIGNED_AGAIN: World :=
    MARKED_LATE.(blob := Complete(1), archives := 2, attempt := Some(Caching(HOUR, SECOND_LINK, 3650.0)),
                 events := MARKED_LATE.events + [Began(3650.0), Touched(3650.0)])
  const UNSENT: World :=
    SIGNED_AGAIN.(cached := Some(Cached(SECOND_LINK, 7250.0)), attempt := Some(Finishing(SECOND_LINK)),
                  events := SIGNED_AGAIN.events + [Landed(SECOND_LINK, 7250.0, 0.0)])

  lemma SendFirstRuns()
    ensures Run(SIGNED_AT_0, SendFirst()) == Some(SENT_FIRST)
  {
    hide Schedules.Run;
    var w := SENT_FIRST.(sends := [], events := [Began(0.0), Touched(0.0), Landed(FIRST_LINK, 3600.0, 0.0)]);
    assert Next(SIGNED_AT_0, WriteCache) == At(w, CheckDelivered(HOUR, FIRST_LINK));
    assert Next(At(w, CheckDelivered(HOUR, FIRST_LINK)), ReadMarker) == At(w, Announcing(HOUR, FIRST_LINK));
    assert Next(At(w, Messaging(HOUR, FIRST_LINK)), Message) == SENT_FIRST;
    Schedules.First(Step, SIGNED_AT_0, SendFirst(), At(w, CheckDelivered(HOUR, FIRST_LINK)),
         [ReadMarker, Announce, Message]);
    Schedules.First(Step, At(w, CheckDelivered(HOUR, FIRST_LINK)), [ReadMarker, Announce, Message],
         At(w, Announcing(HOUR, FIRST_LINK)), [Announce, Message]);
    Schedules.First(Step, At(w, Announcing(HOUR, FIRST_LINK)), [Announce, Message],
         At(w, Messaging(HOUR, FIRST_LINK)), [Message]);
    Schedules.First(Step, At(w, Messaging(HOUR, FIRST_LINK)), [Message], SENT_FIRST, []);
    Schedules.Empty(Step, SENT_FIRST);
  }

  lemma MarkLateRuns()
    ensures Run(SENT_FIRST, MarkLate()) == Some(MARKED_LATE)
  {
    hide Schedules.Run;
    var w1 := SENT_FIRST.(clock := 100.0);
    var w2 := MARKED_LATE.(clock := 100.0);
    assert Next(w1, WriteMarker) == At(w2, Finishing(FIRST_LINK));
    Schedules.First(Step, SENT_FIRST, MarkLate(), w1, [WriteMarker, Crash, Tick(3650.0)]);
    Schedules.First(Step, w1, [WriteMarker, Crash, Tick(3650.0)], At(w2, Finishing(FIRST_LINK)), [Crash, Tick(3650.0)]);
    Schedules.First(Step, At(w2, Finishing(FIRST_LINK)), [Crash, Tick(3650.0)], w2, [Tick(3650.0)]);
    Schedules.First(Step, w2, [Tick(3650.0)], MARKED_LATE, []);
    Schedules.Empty(Step, MARKED_LATE);
  }

  lemma UploadAgainRuns()
    ensures Run(MARKED_LATE, UploadAgain()) == Some(SIGNED_AGAIN)
  {
    hide Schedules.Run;
    var w := MARKED_LATE;
    var w1 := w.(events := w.events + [Began(3650.0)]);
    var w2 := SIGNED_AGAIN.(attempt := Some(Signing(HOUR, 1)));
    assert Next(At(w, CheckCache(HOUR)), ReadCache) == At(w1, Fetching(HOUR));
    assert Next(At(w1, Uploading(HOUR)), FinishUpload) == w2;
    Schedules.First(Step, w, UploadAgain(), At(w, Starting),
         [PickUp, GetSettings(HOUR), ReadCache, Fetch, FinishUpload, Sign]);
    Schedules.First(Step, At(w, Starting), [PickUp, GetSettings(HOUR), ReadCache, Fetch, FinishUpload, Sign],
         At(w, NeedSettings), [GetSettings(HOUR), ReadCache, Fetch, FinishUpload, Sign]);
    Schedules.First(Step, At(w, NeedSettings), [GetSettings(HOUR), ReadCache, Fetch, FinishUpload, Sign],
         At(w, CheckCache(HOUR)), [ReadCache, Fetch, FinishUpload, Sign]);
    Schedules.First(Step, At(w, CheckCache(HOUR)), [ReadCache, Fetch, FinishUpload, Sign],
         At(w1, Fetching(HOUR)), [Fetch, FinishUpload, Sign]);
    Schedules.First(Step, At(w1, Fetching(HOUR)), [Fetch, FinishUpload, Sign],
         At(w1, Uploading(HOUR)), [FinishUpload, Sign]);
    Schedules.First(Step, At(w1, Uploading(HOUR)), [FinishUpload, Sign], w2, [Sign]);
    Schedules.First(Step, w2, [Sign], SIGNED_AGAIN, []);
    Schedules.Empty(Step, SIGNED_AGAIN);
  }

  lemma SkipMessageRuns()
    ensures Run(SIGNED_AGAIN, SkipMessage()) == Some(UNSENT)
  {
    hide Schedules.Run;
    var w := At(UNSENT, CheckDelivered(HOUR, SECOND_LINK));
    assert Next(SIGNED_AGAIN, WriteCache) == w;
    Schedules.First(Step, SIGNED_AGAIN, SkipMessage(), w, [ReadMarker]);
    Schedules.First(Step, w, [ReadMarker], UNSENT, []);
    Schedules.Empty(Step, UNSENT);
  }

  /**
   A success can report a link that nobody was sent, while the link that was sent has run
   out: the marker outlives the cached URL, the retry uploads again, and skips the message.
   */
  lemma ReportedLinkCanBeUnsent()
    ensures
      var run := Run(Init(0.0), FirstUpload() + SendFirst() + MarkLate() + UploadAgain() + SkipMessage());
      && run.Some? && run.value.attempt == Some(Finishing(SECOND_LINK))
      && run.value.sends == [FIRST_LINK] && FIRST_LINK.sasExpiry < run.value.clock
  {
    hide Schedules.Run;
    FirstSegment();
    SendFirstRuns();
    MarkLateRuns();
    UploadAgainRuns();
    SkipMessageRuns();
    Schedules.Split(Step, Init(0.0), FirstUpload(), SendFirst());
    Schedules.Split(Step, Init(0.0), FirstUpload() + SendFirst(), MarkLate());
    Schedules.Split(Step, Init(0.0), FirstUpload() + SendFirst() + MarkLate(), UploadAgain());
    Schedules.Split(Step, Init(0.0), FirstUpload() + SendFirst() + MarkLate() + UploadAgain(), SkipMessage());
  }
}
