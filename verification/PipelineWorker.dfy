/**
 `download_channel_media` as the worker runs it: a straight line of effects with two flags
 and a cleanup block. Every effect is one step of the Pipeline machine, so whatever is
 proved about all runs of the machine holds of every sequence of calls made here.
 */
module PipelineWorker {
  import opened Options
  import opened Pipeline
  import Schedules

  /** How an await ends: normally, with an exception, or with the death of the worker. */
  datatype Fate = Fine | Fails | Dies

  datatype Await = Await(fate: Fate, seconds: real)

  /** How the await at position i ends; awaits beyond the list end normally. */
  function FateAt(awaits: seq<Await>, i: nat): Fate {
    if i < |awaits| then awaits[i].fate else Fine
  }

  /** A guild's row, as far as delivery and retention go. */
  datatype GuildRow = GuildRow(channelMode: bool, resultsChannel: Option<nat>, retentionHours: int)

  const DEFAULTS: GuildRow := GuildRow(false, None, 24)

  /** `dm_me` and commands from a DM skip the lookup: defaults, and a direct message. */
  function EffectiveSettings(guild: Option<nat>, dmMe: bool, row: GuildRow): Settings {
    var used := if guild.Some? && !dmMe then row else DEFAULTS;
    Settings(used.retentionHours, !dmMe && used.channelMode && used.resultsChannel.Some?)
  }

  /** How long the await at position i takes. */
  function Wait(awaits: seq<Await>, i: nat): real {
    if i < |awaits| then MaxReal(0.0, awaits[i].seconds) else 0.0
  }

  predicate Goes(awaits: seq<Await>, i: nat) {
    FateAt(awaits, i) == Fine
  }

  /** The upload raises, or it completes an archive and signing the link raises. */
  predicate UploadFails(awaits: seq<Await>, i: nat, nothing: bool) {
    FateAt(awaits, i) == Fails || (FateAt(awaits, i) == Fine && !nothing && FateAt(awaits, i + 1) == Fails)
  }

  /** What the outside answers in one attempt. */
  datatype Answers = Answers(
    row: GuildRow,           // the guild's settings at the time
    nothing: bool,           // the walk found nothing to archive
    part: bool,              // a part of the archive was committed before an upload failure
    removed: bool,           // the cleanup really removed the blob
    usable: bool)            // the results channel accepted the message

  // ---------------------------------------------------------------- when an attempt gets through

  /** The upload and the signing return, or on an empty channel the cleanup does. */
  predicate UploadReturns(awaits: seq<Await>, i: nat, nothing: bool) {
    Goes(awaits, i) && Goes(awaits, if nothing then i + 2 else i + 1)
  }

  function UploadTime(awaits: seq<Await>, i: nat, nothing: bool): real {
    Wait(awaits, i) + Wait(awaits, if nothing then i + 2 else i + 1)
  }

  /** The progress report returns, then the post if there is a channel, then the direct message if still needed. */
  predicate SendReturns(awaits: seq<Await>, i: nat, toChannel: bool, usable: bool) {
    && Goes(awaits, i)
    && (toChannel ==> Goes(awaits, i + 1))
    && (!toChannel || !usable ==> Goes(awaits, i + 2))
  }

  function UrlOf(cached: Option<Cached>): Option<Url> {
    if cached.Some? then Some(cached.value.url) else None
  }

  /** How long the message takes. */
  function SendTime(awaits: seq<Await>, i: nat, toChannel: bool, usable: bool): real {
    Wait(awaits, i)
    + (if toChannel then Wait(awaits, i + 1) else 0.0)
    + (if !toChannel || !usable then Wait(awaits, i + 2) else 0.0)
  }

  /** When the attempt looks up the cached URL, and whether it finds one. */
  function CacheLookup(w: World, awaits: seq<Await>): real {
    w.clock + Wait(awaits, 0) + Wait(awaits, 1) + Wait(awaits, 2)
  }

  predicate Reused(w: World, awaits: seq<Await>) {
    w.cached.Some? && CacheLookup(w, awaits) < w.cached.value.expiresAt
  }

  /** When it writes the cached URL, if it found none. */
  function CacheWrite(w: World, awaits: seq<Await>, nothing: bool): real {
    CacheLookup(w, awaits) + Wait(awaits, 3) + UploadTime(awaits, 4, nothing) + Wait(awaits, 7)
  }

  /** When it looks up the marker, and whether it finds that. */
  function MarkerLookup(w: World, awaits: seq<Await>, nothing: bool): real {
    (if Reused(w, awaits) then CacheLookup(w, awaits) else CacheWrite(w, awaits, nothing)) + Wait(awaits, 8)
  }

  /** When it writes the marker, if it found none. */
  function MarkerWrite(w: World, awaits: seq<Await>, toChannel: bool, o: Answers): real {
    MarkerLookup(w, awaits, o.nothing) + SendTime(awaits, 9, toChannel, o.usable) + Wait(awaits, 12)
  }

  predicate Skipped(w: World, awaits: seq<Await>, nothing: bool) {
    w.delivered.Some? && MarkerLookup(w, awaits, nothing) < w.delivered.value
  }

  /** A key written when no URL was found runs out the lifetime after that write, and its link the lifetime after signing. */
  predicate Expires(w: World, awaits: seq<Await>, nothing: bool, cached: Option<Cached>, lifetime: real) {
    && cached.Some? && cached.value.expiresAt == CacheWrite(w, awaits, nothing) + lifetime
    && (cached.value.url.Signed? ==>
          cached.value.url.sasExpiry == CacheWrite(w, awaits, nothing) - Wait(awaits, 7) + lifetime)
  }

  /** Results go to a channel only in a guild that is set to it and names one, and never under `dm_me`. */
  predicate UsesChannel(guild: Option<nat>, dmMe: bool, row: GuildRow) {
    guild.Some? && !dmMe && row.channelMode && row.resultsChannel.Some?
  }

  /** Every await on the path of an attempt that starts in w ends normally. */
  predicate GetsThrough(w: World, awaits: seq<Await>, toChannel: bool, o: Answers) {
    && Goes(awaits, 0) && Goes(awaits, 1) && Goes(awaits, 2)
    && (Reused(w, awaits) || (Goes(awaits, 3) && UploadReturns(awaits, 4, o.nothing) && Goes(awaits, 7)))
    && Goes(awaits, 8)
    && (Skipped(w, awaits, o.nothing) || (SendReturns(awaits, 9, toChannel, o.usable) && Goes(awaits, 12)))
    && Goes(awaits, 13)
  }

  datatype DownloadResult = DownloadResult(url: Url, empty: bool)

  lemma RunGrows(w: World, acts: seq<Action>, a: Action)
    requires Run(w, acts).Some? && Enabled(Run(w, acts).value, a)
    ensures Run(w, acts + [a]) == Some(Next(Run(w, acts).value, a))
  {
    hide Next, Enabled;
    Schedules.Split(Step, w, acts, [a]);
    assert [a][1..] == [];
  }

  class Lineage {
    var clock: real
    var cached: Option<Cached>
    var delivered: Option<real>
    var blob: Blob
    var archives: nat
    var sends: seq<Url>
    ghost var attempt: Option<Pc>
    ghost var marks: nat
    ghost var lost: nat
    ghost var lapses: nat
    ghost var events: seq<Event>
    ghost var origin: real
    ghost var trace: seq<Action>

    ghost function View(): World
      reads this
    {
      World(clock, cached, delivered, blob, archives, sends, attempt, marks, lost, lapses, events)
    }

    /** The state is where the machine's schedule `trace` leads. */
    ghost predicate Valid()
      reads this
    {
      Reached(origin, trace, View())
    }

    constructor (t0: real)
      ensures Valid() && View() == Init(t0)
    {
      clock, cached, delivered, blob, archives, sends := t0, None, None, Absent, 0, [];
      attempt, marks, lost, lapses, events := None, 0, 0, 0, [];
      origin, trace := t0, [];
    }

    ghost predicate Runs(pc: Pc)
      reads this
    {
      Valid() && attempt == Some(pc)
    }

    /** Time passes at an await, and the await ends one way or another. */
    method Pause(awaits: seq<Await>, i: nat) returns (fate: Fate)
      requires Valid()
      modifies this`clock, this`trace
      ensures Valid() && old(clock) <= clock == old(clock) + Wait(awaits, i) && old(trace) <= trace
      ensures fate == FateAt(awaits, i)
    {
      fate := Fine;
      if i < |awaits| {
        fate := awaits[i].fate;
        if awaits[i].seconds > 0.0 {
          clock := clock + awaits[i].seconds;
        }
      }
      RunGrows(Init(origin), trace, Tick(clock));
      trace := trace + [Tick(clock)];
    }

    /** The attempt moves on without any effect outside itself. */
    ghost method Goto(a: Action, pc: Pc)
      requires Valid() && Enabled(View(), a) && Next(View(), a) == At(View(), pc)
      modifies this`attempt, this`trace
      ensures Valid() && attempt == Some(pc) && trace == old(trace) + [a]
    {
      RunGrows(Init(origin), trace, a);
      attempt, trace := Some(pc), trace + [a];
    }

    /** The attempt ends with an exception outside the upload, or with the worker's death. */
    ghost method Stop(fate: Fate)
      requires Valid() && attempt.Some? && fate != Fine
      requires fate == Fails ==> !attempt.value.Uploading? && !attempt.value.Signing?
      modifies this`attempt, this`trace, this`lost
      ensures Valid() && attempt.None? && old(trace) <= trace
      ensures lost == if old(attempt).value.Marking? then old(lost) + 1 else old(lost)
    {
      var a := if fate == Dies then Crash else Raise;
      RunGrows(Init(origin), trace, a);
      var after := Next(View(), a);
      attempt, lost, trace := after.attempt, after.lost, trace + [a];
    }

    ghost method Start()
      requires Valid() && attempt.None?
      modifies this`attempt, this`trace
      ensures Runs(Starting) && trace == old(trace) + [Begin]
    {
      Goto(Begin, Starting);
    }

    /** The progress sentinel `picked_up`. */
    ghost method EmitPickedUp()
      requires Runs(Starting)
      modifies this`attempt, this`trace
      ensures Runs(NeedSettings) && old(trace) <= trace
    {
      Goto(PickUp, NeedSettings);
    }

    ghost method LoadSettings(cfg: Settings)
      requires Runs(NeedSettings) && cfg.Valid()
      modifies this`attempt, this`trace
      ensures Runs(CheckCache(cfg)) && old(trace) <= trace
    {
      Goto(GetSettings(cfg), CheckCache(cfg));
    }

    ghost method FetchChannel(cfg: Settings)
      requires Runs(Fetching(cfg))
      modifies this`attempt, this`trace
      ensures Runs(Uploading(cfg)) && old(trace) <= trace
    {
      Goto(Fetch, Uploading(cfg));
    }

    /** GET of the cached URL: nothing once the key has expired. */
    method GetCachedArchiveUrl(ghost cfg: Settings) returns (url: Option<Url>)
      requires Runs(CheckCache(cfg))
      modifies this`attempt, this`trace, this`events
      ensures Valid() && old(trace) <= trace
      ensures url == LiveUrl(old(View()))
      ensures attempt == Some(if url.Some? then CheckDelivered(cfg, url.value) else Fetching(cfg))
      ensures events == if url.Some? then old(events) else old(events) + [Began(clock)]
    {
      url := if cached.Some? && clock < cached.value.expiresAt then Some(cached.value.url) else None;
      ghost var after := Next(View(), ReadCache);
      RunGrows(Init(origin), trace, ReadCache);
      attempt, events, trace := after.attempt, after.events, trace + [ReadCache];
    }

    /** SET with an expiry. */
    method CacheArchiveUrl(url: Url, ttl: real, ghost cfg: Settings, ghost since: real)
      requires Runs(Caching(cfg, url, since)) && ttl == cfg.Ttl()
      modifies this`cached, this`attempt, this`trace, this`events
      ensures Runs(CheckDelivered(cfg, url)) && old(trace) <= trace
      ensures cached == Some(Cached(url, clock + (cfg.retentionHours * 3600) as real))
      ensures events == old(events) + [Landed(url, clock + ttl, clock - since)]
    {
      ghost var after := Next(View(), WriteCache);
      RunGrows(Init(origin), trace, WriteCache);
      cached := Some(Cached(url, clock + ttl));
      attempt, events, trace := after.attempt, after.events, trace + [WriteCache];
    }

    /** EXISTS of the marker: one that has run out is gone. */
    method IsDelivered(ghost cfg: Settings, ghost url: Url) returns (yes: bool)
      requires Runs(CheckDelivered(cfg, url))
      modifies this`delivered, this`attempt, this`trace, this`lapses
      ensures Valid() && old(trace) <= trace
      ensures yes <==> LiveMarker(old(View()))
      ensures delivered == if yes then old(delivered) else None
      ensures attempt == Some(if yes then Finishing(url) else Announcing(cfg, url))
      ensures lapses == if !yes && old(delivered).Some? then old(lapses) + 1 else old(lapses)
    {
      yes := delivered.Some? && clock < delivered.value;
      ghost var after := Next(View(), ReadMarker);
      RunGrows(Init(origin), trace, ReadMarker);
      delivered := if yes then delivered else None;
      attempt, lapses, trace := after.attempt, after.lapses, trace + [ReadMarker];
    }

    /** SET of the marker, after the send has returned. */
    method MarkDelivered(ttl: real, ghost cfg: Settings, ghost url: Url)
      requires Runs(Marking(cfg, url)) && ttl == cfg.Ttl()
      modifies this`delivered, this`attempt, this`trace, this`marks, this`events
      ensures Runs(Finishing(url)) && old(trace) <= trace
      ensures delivered == Some(clock + (cfg.retentionHours * 3600) as real) && marks == old(marks) + 1
      ensures events == old(events) + [Marked(url)]
    {
      hide Schedules.Run;
      RunGrows(Init(origin), trace, WriteMarker);
      delivered := Some(clock + ttl);
      attempt, marks := Some(Finishing(url)), marks + 1;
      events, trace := events + [Marked(url)], trace + [WriteMarker];
    }

    /** A part of an archive is committed; the upload goes on. */
    method PutPart(ghost cfg: Settings)
      requires Runs(Uploading(cfg))
      modifies this`blob, this`trace, this`events
      ensures Runs(Uploading(cfg)) && old(trace) <= trace
      ensures blob == Partial && events == old(events) + [Touched(clock)]
    {
      RunGrows(Init(origin), trace, WritePart);
      blob := Partial;
      events, trace := events + [Touched(clock)], trace + [WritePart];
    }

    /** The upload completes a new archive. */
    method PutArchive(ghost cfg: Settings) returns (archive: nat)
      requires Runs(Uploading(cfg))
      modifies this`blob, this`archives, this`attempt, this`trace, this`events
      ensures Runs(Signing(cfg, archive)) && old(trace) <= trace
      ensures archive == old(archives) && archives == archive + 1 && blob == Complete(archive)
      ensures events == old(events) + [Touched(clock)]
    {
      RunGrows(Init(origin), trace, FinishUpload);
      archive := archives;
      blob, archives := Complete(archive), archives + 1;
      attempt := Some(Signing(cfg, archive));
      events, trace := events + [Touched(clock)], trace + [FinishUpload];
    }

    method SignUrl(archive: nat, cfg: Settings) returns (url: Url)
      requires Runs(Signing(cfg, archive))
      modifies this`attempt, this`trace
      ensures url == Signed(archive, clock + (cfg.retentionHours * 3600) as real)
      ensures Runs(Caching(cfg, url, clock)) && old(trace) <= trace
    {
      url := Signed(archive, clock + cfg.Ttl());
      Goto(Sign, Caching(cfg, url, clock));
    }

    /** An exception inside the upload leads to the cleanup. */
    ghost method FailUpload(cfg: Settings)
      requires Valid() && attempt.Some? && (attempt.value.Uploading? || attempt.value.Signing?)
      requires attempt.value.cfg == cfg
      modifies this`attempt, this`trace
      ensures Runs(Cleaning(cfg, true)) && old(trace) <= trace
    {
      Goto(Raise, Cleaning(cfg, true));
    }

    ghost method NoMatchingAttachments(cfg: Settings)
      requires Runs(Uploading(cfg))
      modifies this`attempt, this`trace
      ensures Runs(Cleaning(cfg, false)) && old(trace) <= trace
    {
      Goto(FindNothing, Cleaning(cfg, false));
    }

    /** A missing blob counts as deleted; a failed delete is only logged. */
    method DeleteBlob(removed: bool, ghost cfg: Settings, ghost failed: bool)
      requires Runs(Cleaning(cfg, failed))
      modifies this`blob, this`attempt, this`trace, this`events
      ensures Valid() && old(trace) <= trace
      ensures attempt == if failed then None else Some(Caching(cfg, EmptySentinel, clock))
      ensures blob == if removed then Absent else old(blob)
      ensures events == if removed then old(events) + [Touched(clock)] else old(events)
    {
      ghost var after := Next(View(), Delete(removed));
      RunGrows(Init(origin), trace, Delete(removed));
      if removed {
        blob := Absent;
      }
      attempt, events, trace := after.attempt, after.events, trace + [Delete(removed)];
    }

    ghost method EmitDeliver(cfg: Settings, url: Url)
      requires Runs(Announcing(cfg, url))
      modifies this`attempt, this`trace
      ensures Runs(if cfg.toChannel then Posting(cfg, url) else Messaging(cfg, url)) && old(trace) <= trace
    {
      Goto(Announce, if cfg.toChannel then Posting(cfg, url) else Messaging(cfg, url));
    }

    /** A post to the results channel, which may turn out to be unusable. */
    method PostToChannel(url: Url, usable: bool, ghost cfg: Settings)
      requires Runs(Posting(cfg, url))
      modifies this`sends, this`attempt, this`trace, this`events
      ensures Runs(if usable then Marking(cfg, url) else Messaging(cfg, url)) && old(trace) <= trace
      ensures sends == if usable then old(sends) + [url] else old(sends)
      ensures events == if usable then old(events) + [Sent(url)] else old(events)
    {
      RunGrows(Init(origin), trace, Post(usable));
      if usable {
        sends, events := sends + [url], events + [Sent(url)];
        attempt, trace := Some(Marking(cfg, url)), trace + [Post(usable)];
      } else {
        attempt, trace := Some(Messaging(cfg, url)), trace + [Post(usable)];
      }
    }

    method DmUser(url: Url, ghost cfg: Settings)
      requires Runs(Messaging(cfg, url))
      modifies this`sends, this`attempt, this`trace, this`events
      ensures Runs(Marking(cfg, url)) && old(trace) <= trace && sends == old(sends) + [url]
      ensures events == old(events) + [Sent(url)]
    {
      RunGrows(Init(origin), trace, Message);
      sends, events := sends + [url], events + [Sent(url)];
      attempt, trace := Some(Marking(cfg, url)), trace + [Message];
    }

    ghost method Conclude(url: Url)
      requires Runs(Finishing(url))
      modifies this`attempt, this`trace, this`events
      ensures Valid() && attempt.None? && old(trace) <= trace
      ensures events == old(events) + [Succeeded(url)]
    {
      RunGrows(Init(origin), trace, Finish);
      attempt, events, trace := None, events + [Succeeded(url)], trace + [Finish];
    }

    /** The cleanup block: best effort, but a delete that is not interrupted and works leaves no blob. */
    method Cleanup(cfg: Settings, failed: bool, awaits: seq<Await>, i: nat, removed: bool) returns (ok: bool)
      requires Runs(Cleaning(cfg, failed))
      modifies this`clock, this`blob, this`attempt, this`lost, this`trace, this`events
      ensures Valid() && old(trace) <= trace && lost == old(lost)
      ensures ok <==> Goes(awaits, i)
      ensures clock == old(clock) + Wait(awaits, i)
      ensures attempt == if ok && !failed then Some(Caching(cfg, EmptySentinel, clock)) else None
      ensures blob == if ok && removed then Absent else old(blob)
    {
      hide Schedules.Run, Reached, Next, Enabled;
      var fate := Pause(awaits, i);
      ok := fate == Fine;
      if !ok { Stop(fate); return; }
      DeleteBlob(removed, cfg, failed);
    }

    /**
     The upload phase: returns the URL to cache and deliver, or None if the attempt is over.
     The cleanup runs on every path but success, and on the empty channel.
     */
    method Upload(cfg: Settings, awaits: seq<Await>, i: nat, o: Answers)
      returns (url: Option<Url>, ghost since: real)
      requires Runs(Uploading(cfg))
      modifies this`clock, this`blob, this`archives, this`attempt, this`lost, this`trace, this`events
      ensures Valid() && old(trace) <= trace && lost == old(lost)
      ensures attempt == if url.Some? then Some(Caching(cfg, url.value, since)) else None
      // the attempt goes on exactly when the upload and, for an empty channel, its cleanup return
      ensures url.Some? <==> UploadReturns(awaits, i, o.nothing)
      ensures url.Some? ==> clock == old(clock) + UploadTime(awaits, i, o.nothing)
      ensures url.Some? ==> (url.value == EmptySentinel <==> o.nothing)
      ensures url.Some? && !o.nothing ==>
                archives == old(archives) + 1 && blob == Complete(old(archives))
                && url.value == Signed(old(archives), clock + (cfg.retentionHours * 3600) as real)
      ensures url.Some? && o.nothing ==> blob == if o.removed then Absent else old(blob)
      // whatever a failed upload or signing leaves behind is removed by a cleanup that works
      ensures UploadFails(awaits, i, o.nothing) && FateAt(awaits, i + 2) == Fine && o.removed ==> blob == Absent
    {
      hide Schedules.Run, Reached, Next, Enabled;
      var uploadSucceeded, emptyChannel := false, false;
      url, since := None, clock;
      var fate := Pause(awaits, i);
      if fate != Fine {
        if o.part { PutPart(cfg); }
        if fate == Dies { Stop(Dies); return; }
        FailUpload(cfg);
      } else if o.nothing {
        NoMatchingAttachments(cfg);
        emptyChannel, uploadSucceeded := true, true;
      } else {
        var archive := PutArchive(cfg);
        fate := Pause(awaits, i + 1);
        if fate == Dies { Stop(Dies); return; }
        if fate == Fails {
          FailUpload(cfg);
        } else {
          var link := SignUrl(archive, cfg);
          url, since := Some(link), clock;
          uploadSucceeded := true;
        }
      }
      if !uploadSucceeded || emptyChannel {
        var ok := Cleanup(cfg, !uploadSucceeded, awaits, i + 2, o.removed);
        if ok && emptyChannel {
          url, since := Some(EmptySentinel), clock;
        }
      }
    }

    /** Send the message: to the results channel if there is one and it is usable, else to the user. */
    method SendEmbed(cfg: Settings, url: Url, awaits: seq<Await>, i: nat, o: Answers) returns (ok: bool)
      requires Runs(Announcing(cfg, url))
      modifies this`clock, this`sends, this`attempt, this`lost, this`trace, this`events
      ensures Valid() && old(trace) <= trace && lost == old(lost)
      ensures ok <==> SendReturns(awaits, i, cfg.toChannel, o.usable)
      ensures ok ==> clock == old(clock) + SendTime(awaits, i, cfg.toChannel, o.usable)
      ensures attempt == if ok then Some(Marking(cfg, url)) else None
      ensures sends == if ok then old(sends) + [url] else old(sends)
    {
      hide Schedules.Run, Reached, Next, Enabled;
      ok := false;
      var fate := Pause(awaits, i);
      if fate != Fine { Stop(fate); return; }
      EmitDeliver(cfg, url);
      var posted := false;
      if cfg.toChannel {
        fate := Pause(awaits, i + 1);
        if fate != Fine { Stop(fate); return; }
        PostToChannel(url, o.usable, cfg);
        posted := o.usable;
      }
      if !posted {
        fate := Pause(awaits, i + 2);
        if fate != Fine { Stop(fate); return; }
        DmUser(url, cfg);
      }
      ok := true;
    }

    /**
     The delivery phase: true if a send returned and its marker was written. Otherwise at
     most one send returned, and it is then counted as lost.
     */
    method Deliver(cfg: Settings, url: Url, awaits: seq<Await>, i: nat, o: Answers) returns (ok: bool)
      requires Runs(Announcing(cfg, url))
      modifies this`clock, this`sends, this`delivered, this`attempt, this`lost, this`marks, this`trace, this`events
      ensures Valid() && old(trace) <= trace
      ensures ok <==> SendReturns(awaits, i, cfg.toChannel, o.usable) && Goes(awaits, i + 3)
      ensures attempt == if ok then Some(Finishing(url)) else None
      ensures ok ==> sends == old(sends) + [url] && lost == old(lost) && marks == old(marks) + 1
      ensures ok ==> delivered == Some(clock + (cfg.retentionHours * 3600) as real) && MarkedSince(events)
      ensures ok ==> clock == old(clock) + SendTime(awaits, i, cfg.toChannel, o.usable) + Wait(awaits, i + 3)
      ensures !ok ==> delivered == old(delivered) && marks == old(marks)
      ensures !ok ==> if SendReturns(awaits, i, cfg.toChannel, o.usable)
                      then lost == old(lost) + 1 && sends == old(sends) + [url]
                      else lost == old(lost) && sends == old(sends)
    {
      hide Schedules.Run, Reached, Next, Enabled, SendReturns, SendTime;
      ok := SendEmbed(cfg, url, awaits, i, o);
      if !ok { return; }
      var fate := Pause(awaits, i + 3);
      if fate != Fine {
        ok := false;
        Stop(fate);
        return;
      }
      MarkDelivered(cfg.Ttl(), cfg, url);
    }

    /** From the start to the cache check. */
    method Prepare(awaits: seq<Await>, cfg: Settings) returns (go: bool)
      requires Valid() && attempt.None? && cfg.Valid()
      modifies this`clock, this`attempt, this`lost, this`trace
      ensures Valid() && old(trace) < trace && lost == old(lost)
      ensures go <==> Goes(awaits, 0) && Goes(awaits, 1) && Goes(awaits, 2)
      ensures go ==> clock == CacheLookup(old(View()), awaits)
      ensures attempt == if go then Some(CheckCache(cfg)) else None
    {
      hide Schedules.Run, Reached, Next, Enabled, Wait;
      go := false;
      Start();
      var fate := Pause(awaits, 0);
      if fate != Fine { Stop(fate); return; }
      EmitPickedUp();
      fate := Pause(awaits, 1);
      if fate != Fine { Stop(fate); return; }
      LoadSettings(cfg);
      fate := Pause(awaits, 2);
      if fate != Fine { Stop(fate); return; }
      go := true;
    }

    /** This URL has just been cached for the retention, and if it is a link it was signed for it before that write. */
    ghost predicate NewUrl(cfg: Settings, url: Url, awaits: seq<Await>, nothing: bool)
      reads this
    {
      && cached == Some(Cached(url, clock + (cfg.retentionHours * 3600) as real))
      && !MarkedSince(events)
      && (url == EmptySentinel <==> nothing)
      && (url.Signed? ==> url.sasExpiry == clock - Wait(awaits, 7) + (cfg.retentionHours * 3600) as real)
    }

    /** No URL is cached: fetch the channel, upload, and cache what comes of it. */
    method UploadAndCache(cfg: Settings, awaits: seq<Await>, o: Answers) returns (url: Option<Url>)
      requires Runs(Fetching(cfg))
      modifies this`clock, this`cached, this`blob, this`archives, this`attempt, this`lost, this`trace, this`events
      ensures Valid() && old(trace) <= trace && lost == old(lost)
      ensures url.Some? <==> Goes(awaits, 3) && UploadReturns(awaits, 4, o.nothing) && Goes(awaits, 7)
      ensures url.Some? ==>
                clock == old(clock) + Wait(awaits, 3) + UploadTime(awaits, 4, o.nothing) + Wait(awaits, 7)
      ensures attempt == if url.Some? then Some(CheckDelivered(cfg, url.value)) else None
      ensures url.Some? ==> NewUrl(cfg, url.value, awaits, o.nothing)
    {
      hide Schedules.Run, Reached, Next, Enabled, Wait, UploadTime, UploadReturns, UploadFails;
      var fate := Pause(awaits, 3);
      if fate != Fine { Stop(fate); return None; }
      FetchChannel(cfg);
      ghost var since;
      url, since := Upload(cfg, awaits, 4, o);
      if url.None? { return None; }
      fate := Pause(awaits, 7);
      if fate != Fine { Stop(fate); return None; }
      CacheArchiveUrl(url.value, cfg.Ttl(), cfg, since);
    }

    /** Phase 1: reuse the cached URL, or upload and cache a new one. */
    method ObtainUrl(cfg: Settings, awaits: seq<Await>, o: Answers) returns (url: Option<Url>)
      requires Runs(CheckCache(cfg))
      modifies this`clock, this`cached, this`blob, this`archives, this`attempt, this`lost, this`trace, this`events
      ensures Valid() && old(trace) <= trace && lost == old(lost)
      ensures attempt == if url.Some? then Some(CheckDelivered(cfg, url.value)) else None
      ensures LiveUrl(old(View())).Some? ==>
                url == LiveUrl(old(View())) && blob == old(blob) && cached == old(cached)
                && clock == old(clock) && events == old(events)
      ensures LiveUrl(old(View())).None? ==>
                && (url.Some? <==> Goes(awaits, 3) && UploadReturns(awaits, 4, o.nothing) && Goes(awaits, 7))
                && (url.Some? ==>
                      && clock == old(clock) + Wait(awaits, 3) + UploadTime(awaits, 4, o.nothing) + Wait(awaits, 7)
                      && NewUrl(cfg, url.value, awaits, o.nothing))
    {
      hide Schedules.Run, Reached, Next, Enabled, Wait, UploadTime, UploadReturns, MarkedSince;
      url := GetCachedArchiveUrl(cfg);
      if url.None? {
        url := UploadAndCache(cfg, awaits, o);
      }
    }

    /** Everything up to the marker check: the URL to deliver, and when the marker will be looked up. */
    method PrepareUrl(cfg: Settings, awaits: seq<Await>, o: Answers) returns (url: Option<Url>)
      requires Valid() && attempt.None? && cfg.Valid()
      modifies this`clock, this`cached, this`blob, this`archives, this`attempt, this`lost, this`trace, this`events
      ensures Valid() && old(trace) < trace && lost == old(lost)
      ensures attempt == if url.Some? then Some(CheckDelivered(cfg, url.value)) else None
      ensures url.Some? <==>
                && Goes(awaits, 0) && Goes(awaits, 1) && Goes(awaits, 2)
                && (Reused(old(View()), awaits)
                    || (Goes(awaits, 3) && UploadReturns(awaits, 4, o.nothing) && Goes(awaits, 7)))
      ensures url.Some? ==> clock + Wait(awaits, 8) == MarkerLookup(old(View()), awaits, o.nothing)
      ensures url.Some? ==> if Reused(old(View()), awaits) then url == UrlOf(old(cached)) && events == old(events)
                            else NewUrl(cfg, url.value, awaits, o.nothing)
                                 && clock == CacheWrite(old(View()), awaits, o.nothing)
    {
      hide Schedules.Run, Reached, Next, Enabled, Wait, UploadTime, UploadReturns, MarkedSince, Goes;
      var go := Prepare(awaits, cfg);
      if !go { return None; }
      url := ObtainUrl(cfg, awaits, o);
    }

    /** Phase 2: deliver, unless the marker says that it was done. */
    method DeliverOnce(cfg: Settings, url: Url, awaits: seq<Await>, o: Answers)
      returns (ok: bool, skipped: bool)
      requires Runs(CheckDelivered(cfg, url))
      modifies this`clock, this`sends, this`delivered, this`attempt, this`lost, this`marks, this`lapses,
               this`trace, this`events
      ensures Valid() && old(trace) <= trace
      ensures skipped <==> Goes(awaits, 8)
                           && old(delivered).Some? && old(clock) + Wait(awaits, 8) < old(delivered).value
      ensures ok <==> Goes(awaits, 8)
                      && (skipped || (SendReturns(awaits, 9, cfg.toChannel, o.usable) && Goes(awaits, 12)))
      ensures attempt == if ok then Some(Finishing(url)) else None
      ensures ok ==> delivered.Some? && sends == if skipped then old(sends) else old(sends) + [url]
      ensures ok ==> delivered == if skipped then old(delivered)
                                  else Some(old(clock) + Wait(awaits, 8)
                                            + SendTime(awaits, 9, cfg.toChannel, o.usable) + Wait(awaits, 12)
                                            + (cfg.retentionHours * 3600) as real)
      ensures ok ==> (MarkedSince(events) <==> !skipped || MarkedSince(old(events)))
      ensures !ok ==> if lost == old(lost) then sends == old(sends) else sends == old(sends) + [url]
    {
      hide Schedules.Run, Reached, Next, Enabled, SendReturns, SendTime, Wait, MarkedSince;
      ok, skipped := false, false;
      var fate := Pause(awaits, 8);
      if fate != Fine { Stop(fate); return; }
      skipped := IsDelivered(cfg, url);
      ok := skipped;
      if !skipped {
        ok := Deliver(cfg, url, awaits, 9, o);
      }
    }

    /** The end of a successful attempt: it reports its URL, which was sent if a marker stands for it. */
    method ConcludeAttempt(url: Url, awaits: seq<Await>) returns (ok: bool)
      requires Runs(Finishing(url))
      modifies this`clock, this`attempt, this`lost, this`trace, this`events
      ensures Valid() && attempt.None? && old(trace) <= trace
      ensures ok <==> Goes(awaits, 13)
      ensures ok ==> events == old(events) + [Succeeded(url)]
      ensures ok ==> (MarkedSince(events) <==> MarkedSince(old(events)))
      ensures ok && url.Signed? ==> (url in sends <==> MarkedSince(events))
    {
      hide Schedules.Run, Reached, Next, Enabled, MarkedSince, LastLanded, SentSince;
      var fate := Pause(awaits, 13);
      ok := fate == Fine;
      if !ok { Stop(fate); return; }
      ReportedIsSentIff(origin, trace, View());
      OneMoreEvent(events, Succeeded(url));
      Conclude(url);
    }

    /**
     One attempt with given settings. It returns a result exactly if every await on its path
     ends normally. The message goes out unless the marker was alive when it was looked up.
     */
    method Attempt(cfg: Settings, awaits: seq<Await>, o: Answers) returns (r: Option<DownloadResult>)
      requires Valid() && attempt.None? && cfg.Valid()
      modifies this
      ensures Valid() && attempt.None?
      ensures origin == old(origin) && old(trace) < trace
      ensures r.Some? <==> GetsThrough(old(View()), awaits, cfg.toChannel, o)
      ensures r.Some? ==> events != [] && events[|events| - 1] == Succeeded(r.value.url)
      ensures r.Some? ==> (r.value.empty <==> r.value.url == EmptySentinel)
      ensures r.Some? ==> if Reused(old(View()), awaits) then Some(r.value.url) == UrlOf(old(cached))
                          else cached.Some? && r.value.url == cached.value.url && (r.value.empty <==> o.nothing)
      ensures r.Some? && !Reused(old(View()), awaits) ==>
                Expires(old(View()), awaits, o.nothing, cached, (cfg.retentionHours * 3600) as real)
      ensures r.Some? && !Skipped(old(View()), awaits, o.nothing) ==>
                delivered == Some(MarkerWrite(old(View()), awaits, cfg.toChannel, o)
                                  + (cfg.retentionHours * 3600) as real)
      ensures r.Some? ==> sends == if Skipped(old(View()), awaits, o.nothing) then old(sends)
                                   else old(sends) + [r.value.url]
      ensures r.Some? ==> (MarkedSince(events) <==> !Skipped(old(View()), awaits, o.nothing)
                                                    || (Reused(old(View()), awaits) && MarkedSince(old(events))))
      ensures r.Some? && r.value.url.Signed? ==> (r.value.url in sends <==> MarkedSince(events))
      ensures |old(sends)| <= |sends| <= |old(sends)| + 1
    {
      hide Schedules.Run, Reached, Next, Enabled, Wait, Reused, MarkerLookup, UploadReturns, SendReturns, MarkedSince,
           Goes;
      var archiveUrl := PrepareUrl(cfg, awaits, o);
      if archiveUrl.None? { return None; }
      var url := archiveUrl.value;
      var ok, skipped := DeliverOnce(cfg, url, awaits, o);
      if !ok { return None; }
      ok := ConcludeAttempt(url, awaits);
      if !ok { return None; }
      return Some(DownloadResult(url, url == EmptySentinel));
    }

    /**
     One attempt. Whatever happens, the lineage moves along the machine. A result names the
     URL that was cached before or is cached now; that is what was sent if and only if the
     marker was written after that URL landed in the cache. So a link is reported that nobody
     was sent exactly if the message was skipped and the link was uploaded by this attempt,
     or is reused and already was one that no marker stands for.
     */
    method DownloadChannelMedia(guild: Option<nat>, dmMe: bool, awaits: seq<Await>, o: Answers)
      returns (r: Option<DownloadResult>)
      requires Valid() && attempt.None? && o.row.retentionHours >= 1
      modifies this
      ensures Valid() && attempt.None?
      ensures origin == old(origin) && old(trace) < trace
      // when there is a result
      ensures r.Some? <==>
                GetsThrough(old(View()), awaits, UsesChannel(guild, dmMe, o.row), o)
      // what it names
      ensures r.Some? ==> |sends| >= 1 && events != [] && events[|events| - 1] == Succeeded(r.value.url)
      ensures r.Some? ==> (r.value.empty <==> r.value.url == EmptySentinel)
      ensures r.Some? ==> if Reused(old(View()), awaits) then Some(r.value.url) == UrlOf(old(cached))
                          else cached.Some? && r.value.url == cached.value.url && (r.value.empty <==> o.nothing)
      // how long it lasts: the guild's retention, or a day
      ensures var hours := if guild.Some? && !dmMe then o.row.retentionHours else 24;
              r.Some? && !Reused(old(View()), awaits) ==>
                Expires(old(View()), awaits, o.nothing, cached, 3600.0 * hours as real)
      ensures var hours := if guild.Some? && !dmMe then o.row.retentionHours else 24;
              r.Some? && !Skipped(old(View()), awaits, o.nothing) ==>
                delivered == Some(MarkerWrite(old(View()), awaits, UsesChannel(guild, dmMe, o.row), o)
                                  + 3600.0 * hours as real)
      // what was sent
      ensures r.Some? ==> sends == if Skipped(old(View()), awaits, o.nothing) then old(sends)
                                   else old(sends) + [r.value.url]
      ensures r.Some? ==> (MarkedSince(events) <==> !Skipped(old(View()), awaits, o.nothing)
                                                    || (Reused(old(View()), awaits) && MarkedSince(old(events))))
      ensures r.Some? && r.value.url.Signed? ==> (r.value.url in sends <==> MarkedSince(events))
      // and in any case
      ensures |old(sends)| <= |sends| <= |old(sends)| + 1
      ensures |sends| == marks + lost && |sends| <= 1 + lost + lapses
      ensures LiveUrl(View()).Some? && LiveUrl(View()).value.Signed? ==>
                blob == Complete(LiveUrl(View()).value.archive)
    {
      hide Reused, Skipped, GetsThrough, MarkedSince, Expires, MarkerWrite;
      r := Attempt(EffectiveSettings(guild, dmMe, o.row), awaits, o);
      SendAccount(origin, trace, View());
      SuccessMeansSent(origin, trace, View());
      if LiveUrl(View()).Some? && LiveUrl(View()).value.Signed? {
        CachedLinkHasItsArchive(origin, trace, View());
      }
    }
  }
}
