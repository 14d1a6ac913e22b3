/**
 One job from /download through the worker's attempts to any number of /cancel commands,
 interleaved at the grain of their awaits.

 The cancellation wrapper around the job is modelled as the middleware documents it: a
 pickup checks the flag and raises before the body if it is set; a set flag may also
 interrupt an attempt that is already past its check. Attempts of one job are sequential,
 and progress, once emitted, stays readable.
 */
module CancelProtocol {
  import opened Options
  import Schedules

  /** What the index stores for /status and /cancel. */
  datatype Meta = Meta(guild: Option<nat>, consumedToken: bool)

  /** The /download command: decide, take a token or bypass the bucket, enqueue, record. */
  datatype Enqueue =
    | Deciding
    | Admitted(guild: Option<nat>, consumed: bool)
    | Kicked(guild: Option<nat>, consumed: bool)
    | Over

  /** A worker attempt: before its flag check, past it, and in the body, which has emitted progress. */
  datatype Attempt = Picked | Cleared | InBody

  /** A /cancel command, with what it knows so far. */
  datatype Cancel =
    | Resolved(meta: Meta)
    | Flagged(meta: Meta)
    | SawReady(meta: Meta, ready: bool)
    | SawProgress(meta: Meta, ready: bool, progress: bool)
    | Closed(refunded: bool)

  datatype Event =
    | TokenTaken(guild: nat)
    | FlagSet(cmd: nat)
    | BodyStarted
    | Cancelled
    | Succeeded
    | GaveUp
    | Dropped
    | Retried
    | RefundOf(cmd: nat, guild: nat)

  /** `recorded` keeps what was once written to `meta`, for the statements. */
  datatype Job = Job(
    enqueue: Enqueue,
    queued: nat,
    flag: bool,
    progress: bool,
    ready: bool,
    meta: Option<Meta>,
    recorded: Option<Meta>,
    attempt: Option<Attempt>,
    cancels: map<nat, Cancel>,
    events: seq<Event>)

  const INITIAL: Job := Job(Deciding, 0, false, false, false, None, None, None, map[], [])

  datatype Action =
    | Reject                              // permission, filters, or the bucket said no
    | Bypass(guild: Option<nat>)          // no guild, or its owner
    | TakeToken(of: nat)                  // acquire was allowed
    | Kiq(ok: bool)
    | RecordMeta(ok: bool)
    | LoseMeta                            // forgotten or expired
    | PickUp
    | CheckFlag
    | EmitProgress
    | Succeed
    | Fail(retry: bool)                   // an ordinary exception; the retry bound is the middleware's
    | Interrupt                           // a running attempt learns of the cancellation
    | Die(redeliver: bool)                // the worker dies; the broker may deliver again
    | DropResult                          // the stored result expires
    | Resolve(id: nat)
    | SetFlag(id: nat)
    | ReadReady(id: nat)
    | ReadProgress(id: nat)
    | Settle(id: nat, creditOk: bool)

  predicate Enabled(j: Job, a: Action) {
    match a
    case Reject => j.enqueue.Deciding?
    case Bypass(_) => j.enqueue.Deciding?
    case TakeToken(_) => j.enqueue.Deciding?
    case Kiq(_) => j.enqueue.Admitted?
    case RecordMeta(_) => j.enqueue.Kicked?
    case LoseMeta => true
    case PickUp => j.queued > 0 && j.attempt.None?
    case CheckFlag => j.attempt == Some(Picked)
    case EmitProgress => j.attempt == Some(Cleared)
    case Succeed => j.attempt == Some(InBody)
    case Fail(_) => j.attempt == Some(Cleared) || j.attempt == Some(InBody)
    case Interrupt => j.flag && (j.attempt == Some(Cleared) || j.attempt == Some(InBody))
    case Die(_) => j.attempt.Some?
    case DropResult => true
    case Resolve(id) => id !in j.cancels && j.meta.Some?
    case SetFlag(id) => id in j.cancels && j.cancels[id].Resolved?
    case ReadReady(id) => id in j.cancels && j.cancels[id].Flagged?
    case ReadProgress(id) => id in j.cancels && j.cancels[id].SawReady?
    case Settle(id, _) => id in j.cancels && j.cancels[id].SawProgress?
  }

  function Log(j: Job, e: Event): Job {
    j.(events := j.events + [e])
  }

  /** The attempt ends in cancellation: a result is stored, and the middleware does not re-kick. */
  function EndCancelled(j: Job): Job {
    Log(j.(attempt := None, ready := true), Cancelled)
  }

  /** refund_eligible, and the guild the refund goes to. */
  predicate Eligible(meta: Meta, ready: bool, progress: bool) {
    meta.consumedToken && !ready && !progress && meta.guild.Some?
  }

  function Next(j: Job, a: Action): Job
    requires Enabled(j, a)
  {
    match a
    case Reject => j.(enqueue := Over)
    case Bypass(guild) => j.(enqueue := Admitted(guild, false))
    case TakeToken(guild) => Log(j.(enqueue := Admitted(Some(guild), true)), TokenTaken(guild))
    case Kiq(ok) =>
      if ok then j.(enqueue := Kicked(j.enqueue.guild, j.enqueue.consumed), queued := j.queued + 1)
      else j.(enqueue := Over)
    case RecordMeta(ok) =>
      if ok then
        var meta := Some(Meta(j.enqueue.guild, j.enqueue.consumed));
        j.(enqueue := Over, meta := meta, recorded := meta)
      else
        j.(enqueue := Over)
    case LoseMeta => j.(meta := None)
    case PickUp => j.(queued := j.queued - 1, attempt := Some(Picked))
    case CheckFlag => if j.flag then EndCancelled(j) else j.(attempt := Some(Cleared))
    case EmitProgress => Log(j.(attempt := Some(InBody), progress := true), BodyStarted)
    case Succeed => Log(j.(attempt := None, ready := true), Succeeded)
    case Fail(retry) =>
      if retry then Log(j.(attempt := None, queued := j.queued + 1), Retried)
      else Log(j.(attempt := None, ready := true), GaveUp)
    case Interrupt => EndCancelled(j)
    case Die(redeliver) => j.(attempt := None, queued := if redeliver then j.queued + 1 else j.queued)
    case DropResult => Log(j.(ready := false), Dropped)
    case Resolve(id) => j.(cancels := j.cancels[id := Resolved(j.meta.value)])
    case SetFlag(id) => Log(j.(flag := true, cancels := j.cancels[id := Flagged(j.cancels[id].meta)]), FlagSet(id))
    case ReadReady(id) => j.(cancels := j.cancels[id := SawReady(j.cancels[id].meta, j.ready)])
    case ReadProgress(id) =>
      var k := j.cancels[id];
      j.(cancels := j.cancels[id := SawProgress(k.meta, k.ready, j.progress)])
    case Settle(id, creditOk) =>
      var k := j.cancels[id];
      if Eligible(k.meta, k.ready, k.progress) && creditOk then
        Log(j.(cancels := j.cancels[id := Closed(true)]), RefundOf(id, k.meta.guild.value))
      else
        j.(cancels := j.cancels[id := Closed(false)])
  }

  function Step(j: Job, a: Action): Option<Job> {
    if Enabled(j, a) then Some(Next(j, a)) else None
  }

  /** The state after a schedule, or None if some action was not enabled. */
  function Run(j: Job, acts: seq<Action>): Option<Job> {
    Schedules.Run(Step, j, acts)
  }

  ghost predicate Reached(acts: seq<Action>, j: Job) {
    Run(INITIAL, acts) == Some(j)
  }

  // ---------------------------------------------------------------- the invariant of every run

  /** The flag of command `id` was set at entry k. */
  predicate FlagAt(events: seq<Event>, k: int, id: nat) {
    0 <= k < |events| && events[k] == FlagSet(id)
  }

  predicate BodyAt(events: seq<Event>, k: int) {
    0 <= k < |events| && events[k].BodyStarted?
  }

  predicate CancelledAt(events: seq<Event>, k: int) {
    0 <= k < |events| && events[k].Cancelled?
  }

  /** The meta names a guild in which this job's own enqueue took a token, if it says so. */
  ghost predicate MetaTrue(j: Job, guild: Option<nat>, consumed: bool) {
    consumed ==> guild.Some? && exists k :: 0 <= k < |j.events| && j.events[k] == TokenTaken(guild.value)
  }

  ghost predicate CancelTrue(j: Job, id: nat, k: Cancel) {
    match k
    case Resolved(meta) => MetaTrue(j, meta.guild, meta.consumedToken)
    case Flagged(meta) => MetaTrue(j, meta.guild, meta.consumedToken) && FlaggedBy(j, id)
    case SawReady(meta, _) => MetaTrue(j, meta.guild, meta.consumedToken) && FlaggedBy(j, id)
    case SawProgress(meta, _, progress) =>
      && MetaTrue(j, meta.guild, meta.consumedToken) && FlaggedBy(j, id)
      && (!progress ==> QuietBefore(j, id))
    case Closed(_) => true
  }

  ghost predicate FlaggedBy(j: Job, id: nat) {
    exists k :: FlagAt(j.events, k, id)
  }

  /** No attempt had emitted progress when this command set the flag. */
  ghost predicate QuietBefore(j: Job, id: nat) {
    exists k :: FlagAt(j.events, k, id) && forall i :: BodyAt(j.events, i) ==> k < i
  }

  ghost predicate MetasTrue(j: Job) {
    && (j.enqueue.Admitted? || j.enqueue.Kicked? ==> MetaTrue(j, j.enqueue.guild, j.enqueue.consumed))
    && (j.meta.Some? ==> MetaTrue(j, j.meta.value.guild, j.meta.value.consumedToken))
    && (forall id | id in j.cancels :: CancelTrue(j, id, j.cancels[id]))
  }

  /** Every refund so far: quiet before its flag, and paid for by this job's token. */
  ghost predicate RefundsTrue(j: Job) {
    forall k | 0 <= k < |j.events| && j.events[k].RefundOf? ::
      && QuietBefore(j, j.events[k].cmd)
      && MetaTrue(j, Some(j.events[k].guild), true)
  }

  /** The number of bodies started from entry `from` on. */
  function Bodies(events: seq<Event>, from: nat): nat {
    if |events| <= from then 0
    else Bodies(events[..|events| - 1], from) + if events[|events| - 1].BodyStarted? then 1 else 0
  }

  /** After a flag, one attempt may still be past its check; once its body starts nobody is. */
  ghost predicate FlagInv(j: Job) {
    && (j.flag <==> exists k, id :: FlagAt(j.events, k, id))
    && (j.progress <==> exists k :: BodyAt(j.events, k))
    && (forall k, id | FlagAt(j.events, k, id) ::
          Bodies(j.events, k) + (if j.attempt == Some(Cleared) then 1 else 0) <= 1)
  }

  /** After a cancellation, no attempt is past its check, and none was ever again. */
  ghost predicate TerminalInv(j: Job) {
    && (forall k | CancelledAt(j.events, k) :: j.flag && (j.attempt.None? || j.attempt == Some(Picked)))
    && (forall i, k | CancelledAt(j.events, i) && i < k < |j.events| ::
          !j.events[k].BodyStarted? && !j.events[k].Retried?)
  }

  /** A meta is written once; every command acts on that one, and every refund is its doing. */
  ghost predicate OnceInv(j: Job) {
    RecordedOnce(j) && CommandsOnce(j)
  }

  predicate RecordedOnce(j: Job) {
    (j.recorded.Some? ==> j.enqueue.Over?) && (j.meta.Some? ==> j.meta == j.recorded)
  }

  ghost predicate CommandsOnce(j: Job) {
    && (forall id | id in j.cancels && !j.cancels[id].Closed? :: j.recorded == Some(j.cancels[id].meta))
    && (forall k | 0 <= k < |j.events| && j.events[k].RefundOf? :: j.recorded == Some(Meta(Some(j.events[k].guild), true)))
  }

  /** An attempt that ends for good leaves a result: it succeeded, gave up or was cancelled. */
  predicate LeavesResult(e: Event) {
    e.Succeeded? || e.GaveUp? || e.Cancelled?
  }

  /** The last attempt that ended for good left a result, and it has not been dropped since. */
  predicate ResultStands(events: seq<Event>) {
    events != []
    && var e := events[|events| - 1];
       LeavesResult(e) || (!e.Dropped? && ResultStands(events[..|events| - 1]))
  }

  ghost predicate Inv(j: Job) {
    MetasTrue(j) && RefundsTrue(j) && FlagInv(j) && TerminalInv(j) && OnceInv(j)
    && (j.ready <==> ResultStands(j.events))
  }

  // ---------------------------------------------------------------- every step keeps it

  lemma MetaGrows(j: Job, j': Job, guild: Option<nat>, consumed: bool)
    requires MetaTrue(j, guild, consumed) && j.events <= j'.events
    ensures MetaTrue(j', guild, consumed)
  {
  }

  lemma QuietGrows(j: Job, j': Job, id: nat)
    requires QuietBefore(j, id) && j.events <= j'.events
    ensures QuietBefore(j', id)
  {
    var k :| FlagAt(j.events, k, id) && forall i :: BodyAt(j.events, i) ==> k < i;
    assert FlagAt(j'.events, k, id);
    forall i | BodyAt(j'.events, i) ensures k < i {
      if i <= k {
        assert BodyAt(j.events, i);
      }
    }
  }

  lemma CancelGrows(j: Job, j': Job, id: nat, c: Cancel)
    requires CancelTrue(j, id, c) && j.events <= j'.events
    ensures CancelTrue(j', id, c)
  {
    hide MetaTrue, QuietBefore;
    if !c.Closed? {
      MetaGrows(j, j', c.meta.guild, c.meta.consumedToken);
      if !c.Resolved? {
        var k :| FlagAt(j.events, k, id);
        assert FlagAt(j'.events, k, id);
      }
      if c.SawProgress? && !c.progress {
        QuietGrows(j, j', id);
      }
    }
  }

  lemma EventsGrow(j: Job, a: Action)
    requires Enabled(j, a)
    ensures j.events <= Next(j, a).events
    ensures |Next(j, a).events| <= |j.events| + 1
  {
  }

  /** The command that moves. */
  lemma OwnCancel(j: Job, a: Action)
    requires Inv(j) && Enabled(j, a)
    requires ByCommand(a)
    ensures CancelTrue(Next(j, a), a.id, Next(j, a).cancels[a.id])
  {
    hide TerminalInv, RefundsTrue, OnceInv;
    var j' := Next(j, a);
    if a.Resolve? {
    } else {
      var c := j.cancels[a.id];
      assert CancelTrue(j, a.id, c);
      MetaGrows(j, j', c.meta.guild, c.meta.consumedToken);
      if a.SetFlag? {
        assert FlagAt(j'.events, |j.events|, a.id);
      } else if a.ReadProgress? && !j.progress {
        var k :| FlagAt(j.events, k, a.id);
        assert forall i :: !BodyAt(j.events, i);
        assert QuietBefore(j', a.id);
      }
    }
  }

  lemma RecordStep(j: Job, a: Action)
    requires MetasTrue(j) && Enabled(j, a)
    ensures
      var j' := Next(j, a);
      && (j'.enqueue.Admitted? || j'.enqueue.Kicked? ==> MetaTrue(j', j'.enqueue.guild, j'.enqueue.consumed))
      && (j'.meta.Some? ==> MetaTrue(j', j'.meta.value.guild, j'.meta.value.consumedToken))
  {
    var j' := Next(j, a);
    EventsGrow(j, a);
    hide CancelTrue;
    if a.TakeToken? {
      assert j'.events[|j.events|] == TokenTaken(a.of);
    }
    if j.enqueue.Admitted? || j.enqueue.Kicked? {
      MetaGrows(j, j', j.enqueue.guild, j.enqueue.consumed);
    }
    if j.meta.Some? {
      MetaGrows(j, j', j.meta.value.guild, j.meta.value.consumedToken);
    }
  }

  predicate ByCommand(a: Action) {
    a.Resolve? || a.SetFlag? || a.ReadReady? || a.ReadProgress? || a.Settle?
  }

  lemma CancelsMove(j: Job, a: Action, id: nat)
    requires Enabled(j, a) && id in Next(j, a).cancels && !(ByCommand(a) && a.id == id)
    ensures id in j.cancels && Next(j, a).cancels[id] == j.cancels[id]
  {
  }

  lemma MetasStep(j: Job, a: Action)
    requires Inv(j) && Enabled(j, a)
    ensures MetasTrue(Next(j, a))
  {
    var j' := Next(j, a);
    EventsGrow(j, a);
    RecordStep(j, a);
    hide TerminalInv, RefundsTrue, FlagInv, OnceInv, CancelTrue, MetaTrue, Next;
    forall id | id in j'.cancels ensures CancelTrue(j', id, j'.cancels[id]) {
      if ByCommand(a) && a.id == id {
        OwnCancel(j, a);
      } else {
        CancelsMove(j, a, id);
        CancelGrows(j, j', id, j.cancels[id]);
      }
    }
  }

  lemma RefundsStep(j: Job, a: Action)
    requires Inv(j) && Enabled(j, a)
    ensures RefundsTrue(Next(j, a))
  {
    var j' := Next(j, a);
    EventsGrow(j, a);
    forall k | 0 <= k < |j'.events| && j'.events[k].RefundOf?
      ensures QuietBefore(j', j'.events[k].cmd) && MetaTrue(j', Some(j'.events[k].guild), true)
    {
      hide FlagInv, TerminalInv, OnceInv, QuietBefore, MetaTrue;
      var e := j'.events[k];
      if k < |j.events| {
        assert e == j.events[k];
      } else {
        assert CancelTrue(j, a.id, j.cancels[a.id]);
      }
      QuietGrows(j, j', e.cmd);
      MetaGrows(j, j', Some(e.guild), true);
    }
  }

  lemma BodiesGrow(events: seq<Event>, e: Event, from: nat)
    ensures Bodies(events + [e], from)
         == Bodies(events, from) + if from <= |events| && e.BodyStarted? then 1 else 0
  {
  }

  lemma BodiesNone(events: seq<Event>, from: nat)
    requires |events| <= from
    ensures Bodies(events, from) == 0
  {
  }

  /** What a step does to the flag and the progress, and to the log about them. */
  lemma BitsMove(j: Job, a: Action)
    requires Enabled(j, a)
    ensures
      var (j', n) := (Next(j, a), |j.events|);
      && j.events <= j'.events && |j'.events| <= n + 1
      && (j'.flag <==> j.flag || a.SetFlag?) && (j'.progress <==> j.progress || a.EmitProgress?)
      && (a.SetFlag? ==> FlagAt(j'.events, n, a.id)) && (a.EmitProgress? ==> BodyAt(j'.events, n))
      && (!a.SetFlag? && |j'.events| > n ==> !j'.events[n].FlagSet?)
      && (!a.EmitProgress? && |j'.events| > n ==> !j'.events[n].BodyStarted?)
  {
  }

  lemma BitsStep(j: Job, a: Action)
    requires FlagInv(j) && Enabled(j, a)
    ensures Next(j, a).flag <==> exists k, id :: FlagAt(Next(j, a).events, k, id)
    ensures Next(j, a).progress <==> exists k :: BodyAt(Next(j, a).events, k)
  {
    BitsMove(j, a);
    hide Bodies, Next, Enabled;
    FlagSeen(j, Next(j, a));
  }

  lemma FlagStep(j: Job, a: Action)
    requires Inv(j) && Enabled(j, a)
    ensures FlagInv(Next(j, a))
  {
    BitsStep(j, a);
    forall k, id | FlagAt(Next(j, a).events, k, id)
      ensures Bodies(Next(j, a).events, k) + (if Next(j, a).attempt == Some(Cleared) then 1 else 0) <= 1
    {
      CountStep(j, a, k, id);
    }
  }

  /** An attempt gets past its check only without a flag, and starts its body only from there. */
  lemma ClearedMoves(j: Job, a: Action)
    requires Enabled(j, a)
    ensures
      var j' := Next(j, a);
      && j.events <= j'.events && |j'.events| <= |j.events| + 1
      && (j'.attempt == Some(Cleared) ==>
            (j.attempt == Some(Cleared) || !j.flag) && !BodyAt(j'.events, |j.events|))
      && (BodyAt(j'.events, |j.events|) ==> j.attempt == Some(Cleared))
  {
  }

  lemma CountStep(j: Job, a: Action, k: int, id: nat)
    requires FlagInv(j) && Enabled(j, a) && FlagAt(Next(j, a).events, k, id)
    ensures Bodies(Next(j, a).events, k) + (if Next(j, a).attempt == Some(Cleared) then 1 else 0) <= 1
  {
    ClearedMoves(j, a);
    hide Bodies, Next, Enabled;
    var j' := Next(j, a);
    if k < |j.events| {
      assert FlagAt(j.events, k, id);
    }
    CountEvents(j.events, j'.events, k, j.attempt == Some(Cleared), j'.attempt == Some(Cleared));
  }

  /** One more event: a body that starts is that of the one attempt past its check. */
  lemma CountEvents(events: seq<Event>, events': seq<Event>, k: nat, was: bool, cleared: bool)
    requires events <= events' && |events'| <= |events| + 1 && k < |events'| && (k == |events| ==> !events'[k].BodyStarted?)
    requires k < |events| ==> Bodies(events, k) + (if was then 1 else 0) <= 1 && (cleared ==> was)
    requires BodyAt(events', |events|) ==> was && !cleared
    ensures Bodies(events', k) + (if cleared then 1 else 0) <= 1
  {
    hide Bodies;
    if |events'| == |events| {
      assert events' == events;
    } else {
      var e := events'[|events|];
      assert events' == events + [e];
      BodiesGrow(events, e, k);
      if k == |events| {
        BodiesNone(events, k);
      } else {
        assert e.BodyStarted? <==> BodyAt(events', |events|);
      }
    }
  }

  /** Flags and bodies seen before are seen after. */
  lemma FlagSeen(j: Job, j': Job)
    requires j.events <= j'.events
    ensures (exists k, id :: FlagAt(j.events, k, id)) ==> exists k, id :: FlagAt(j'.events, k, id)
    ensures (exists k :: BodyAt(j.events, k)) ==> exists k :: BodyAt(j'.events, k)
    ensures j.events == j'.events || (|j'.events| == |j.events| + 1 && !j'.events[|j.events|].FlagSet?) ==>
              ((exists k, id :: FlagAt(j'.events, k, id)) ==> exists k, id :: FlagAt(j.events, k, id))
    ensures j.events == j'.events || (|j'.events| == |j.events| + 1 && !j'.events[|j.events|].BodyStarted?) ==>
              ((exists k :: BodyAt(j'.events, k)) ==> exists k :: BodyAt(j.events, k))
  {
    if k, id :| FlagAt(j.events, k, id) {
      assert FlagAt(j'.events, k, id);
    }
    if k :| BodyAt(j.events, k) {
      assert BodyAt(j'.events, k);
    }
    if k, id :| FlagAt(j'.events, k, id) && k < |j.events| {
      assert FlagAt(j.events, k, id);
    }
    if k :| BodyAt(j'.events, k) && k < |j.events| {
      assert BodyAt(j.events, k);
    }
  }

  lemma TerminalStep(j: Job, a: Action)
    requires Inv(j) && Enabled(j, a)
    ensures TerminalInv(Next(j, a))
  {
    hide MetasTrue, RefundsTrue, FlagInv, OnceInv;
    var j' := Next(j, a);
    EventsGrow(j, a);
    forall k | CancelledAt(j'.events, k)
      ensures j'.flag && (j'.attempt.None? || j'.attempt == Some(Picked))
    {
      if k < |j.events| {
        assert CancelledAt(j.events, k);
      }
    }
    forall i, k | CancelledAt(j'.events, i) && i < k < |j'.events|
      ensures !j'.events[k].BodyStarted? && !j'.events[k].Retried?
    {
      assert CancelledAt(j.events, i);
    }
  }

  lemma OnceStep(j: Job, a: Action)
    requires OnceInv(j) && Enabled(j, a)
    ensures OnceInv(Next(j, a))
  {
    var j' := Next(j, a);
    EventsGrow(j, a);
    RecordedStays(j, a);
    forall id | id in j'.cancels && !j'.cancels[id].Closed? ensures j'.recorded == Some(j'.cancels[id].meta) {
      if ByCommand(a) && a.id == id {
        CommandMeta(j, a);
      } else {
        CancelsMove(j, a, id);
      }
      hide Next, Enabled;
    }
    forall k | 0 <= k < |j'.events| && j'.events[k].RefundOf?
      ensures j'.recorded == Some(Meta(Some(j'.events[k].guild), true))
    {
      if k < |j.events| {
        hide Next, Enabled;
        assert j'.events[k] == j.events[k];
      }
    }
    hide Next, Enabled;
  }

  lemma RecordedStays(j: Job, a: Action)
    requires RecordedOnce(j) && Enabled(j, a)
    ensures RecordedOnce(Next(j, a)) && (j.recorded.Some? ==> Next(j, a).recorded == j.recorded)
  {
  }

  lemma CommandMeta(j: Job, a: Action)
    requires OnceInv(j) && Enabled(j, a) && ByCommand(a) && !Next(j, a).cancels[a.id].Closed?
    ensures Next(j, a).recorded == Some(Next(j, a).cancels[a.id].meta)
  {
  }

  lemma ResultGrows(events: seq<Event>, e: Event)
    ensures ResultStands(events + [e]) <==> LeavesResult(e) || (!e.Dropped? && ResultStands(events))
  {
    assert (events + [e])[..|events|] == events;
  }

  lemma ReadyStep(j: Job, a: Action)
    requires (j.ready <==> ResultStands(j.events)) && Enabled(j, a)
    ensures Next(j, a).ready <==> ResultStands(Next(j, a).events)
  {
    EventsGrow(j, a);
    var j' := Next(j, a);
    if j'.events != j.events {
      ResultGrows(j.events, j'.events[|j.events|]);
      assert j'.events == j.events + [j'.events[|j.events|]];
    }
    hide ResultStands;
  }

  lemma NextKeepsInv(j: Job, a: Action)
    requires Inv(j) && Enabled(j, a)
    ensures Inv(Next(j, a))
  {
    MetasStep(j, a);
    RefundsStep(j, a);
    FlagStep(j, a);
    TerminalStep(j, a);
    OnceStep(j, a);
    ReadyStep(j, a);
  }

  lemma RunKeepsInv(j: Job, acts: seq<Action>)
    requires Inv(j) && Run(j, acts).Some?
    ensures Inv(Run(j, acts).value)
  {
    forall x, a | Inv(x) && Step(x, a).Some? ensures Inv(Step(x, a).value) {
      NextKeepsInv(x, a);
    }
    hide Inv, Next, Enabled;
    Schedules.Keeps(Step, Inv, j, acts);
  }

  lemma ReachedInv(acts: seq<Action>, j: Job)
    requires Reached(acts, j)
    ensures Inv(j)
  {
    RunKeepsInv(INITIAL, acts);
  }

  // ---------------------------------------------------------------- the theorems

  /**
   A refund is honest: this job's enqueue took a token in the refunded guild, and no attempt
   had emitted progress when the refunding command set the flag.
   */
  lemma RefundIsHonest(acts: seq<Action>, j: Job, r: nat)
    requires Reached(acts, j) && r < |j.events| && j.events[r].RefundOf?
    ensures exists t :: 0 <= t < |j.events| && j.events[t] == TokenTaken(j.events[r].guild)
    ensures exists f :: FlagAt(j.events, f, j.events[r].cmd)
                        && forall i :: BodyAt(j.events, i) ==> f < i
  {
    ReachedInv(acts, j);
    hide Schedules.Run, FlagInv, TerminalInv, MetasTrue, OnceInv;
    assert QuietBefore(j, j.events[r].cmd) && MetaTrue(j, Some(j.events[r].guild), true);
  }

  /** Once the flag is set, at most one more body starts: that of an attempt already past its check. */
  lemma AtMostOneBodyAfterFlag(acts: seq<Action>, j: Job, f: nat, id: nat)
    requires Reached(acts, j) && FlagAt(j.events, f, id)
    ensures Bodies(j.events, f) <= 1
    ensures j.attempt == Some(Cleared) ==> Bodies(j.events, f) == 0
  {
    ReachedInv(acts, j);
    hide Schedules.Run, TerminalInv, MetasTrue, RefundsTrue, OnceInv;
  }

  lemma {:induction false} BodiesAllAfter(events: seq<Event>, f: nat)
    requires f <= |events| && forall i :: BodyAt(events, i) ==> f < i
    ensures Bodies(events, 0) == Bodies(events, f)
  {
    if events != [] {
      var n := |events| - 1;
      if f <= n {
        forall i | BodyAt(events[..n], i) ensures f < i {
          assert BodyAt(events, i);
        }
        BodiesAllAfter(events[..n], f);
      } else {
        BodiesNone(events, f);
        assert forall i :: !BodyAt(events, i);
        NoBodies(events);
      }
    }
  }

  lemma {:induction false} NoBodies(events: seq<Event>)
    requires forall i :: !BodyAt(events, i)
    ensures Bodies(events, 0) == 0
  {
    if events != [] {
      var n := |events| - 1;
      assert !BodyAt(events, n);
      forall i ensures !BodyAt(events[..n], i) {
        assert !BodyAt(events, i);
      }
      NoBodies(events[..n]);
    }
  }

  /** Over its whole life, a job whose token was refunded runs its body at most once. */
  lemma RefundedJobRunsAtMostOnce(acts: seq<Action>, j: Job, r: nat)
    requires Reached(acts, j) && r < |j.events| && j.events[r].RefundOf?
    ensures Bodies(j.events, 0) <= 1
  {
    RefundIsHonest(acts, j, r);
    hide Schedules.Run;
    var f :| FlagAt(j.events, f, j.events[r].cmd) && forall i :: BodyAt(j.events, i) ==> f < i;
    AtMostOneBodyAfterFlag(acts, j, f, j.events[r].cmd);
    BodiesAllAfter(j.events, f);
  }

  /** Cancellation is terminal: nothing runs and nothing is retried after the first cancelled attempt. */
  lemma CancellationIsTerminal(acts: seq<Action>, j: Job, i: nat, k: nat)
    requires Reached(acts, j) && CancelledAt(j.events, i) && i < k < |j.events|
    ensures !j.events[k].BodyStarted? && !j.events[k].Retried?
  {
    ReachedInv(acts, j);
    hide Schedules.Run, MetasTrue, RefundsTrue, FlagInv, OnceInv;
  }

  /** The flag is set and no attempt is past its check. */
  predicate Stopped(j: Job) {
    j.flag && (j.attempt.None? || j.attempt == Some(Picked))
  }

  predicate Idle(e: Event) {
    !e.BodyStarted? && !e.Retried?
  }

  lemma StoppedStep(j: Job, a: Action)
    requires Stopped(j) && Enabled(j, a)
    ensures Stopped(Next(j, a)) && j.events <= Next(j, a).events
    ensures forall k | |j.events| <= k < |Next(j, a).events| :: Idle(Next(j, a).events[k])
  {
  }

  /** From there on it stays so, whatever happens: nothing runs and nothing is retried. */
  lemma {:induction false} StoppedForGood(j: Job, acts: seq<Action>)
    requires Stopped(j) && Run(j, acts).Some?
    ensures var j' := Run(j, acts).value;
            && Stopped(j') && j.events <= j'.events
            && forall k | |j.events| <= k < |j'.events| :: Idle(j'.events[k])
    decreases |acts|
  {
    hide Next, Enabled, Stopped, Idle;
    if acts != [] {
      var m := Next(j, acts[0]);
      var end := Run(j, acts).value;
      StoppedStep(j, acts[0]);
      StoppedForGood(m, acts[1..]);
      assert end == Run(m, acts[1..]).value;
      forall k | |j.events| <= k < |end.events| ensures Idle(end.events[k]) {
        if k < |m.events| {
          assert end.events[k] == m.events[k];
        }
      }
    }
  }

  /**
   In every run: once a pickup follows a flag, no body starts and nothing is retried from
   then on, whatever commands, deliveries, deaths and pickups come after.
   */
  lemma PickupAfterFlagStops(before: seq<Action>, after: seq<Action>, j: Job, j': Job, f: nat, id: nat)
    requires Reached(before, j) && FlagAt(j.events, f, id)
    requires Reached(before + [PickUp] + after, j')
    ensures j.events <= j'.events
    ensures forall k | |j.events| <= k < |j'.events| :: Idle(j'.events[k])
  {
    ReachedInv(before, j);
    Schedules.Split(Step, INITIAL, before + [PickUp], after);
    Schedules.Split(Step, INITIAL, before, [PickUp]);
    assert [PickUp][1..] == [];
    StoppedForGood(Next(j, PickUp), after);
  }

  // ---------------------------------------------------------------- how often a refund may happen

  /** The events that one undisturbed /cancel leaves behind. */
  function CancelEvents(id: nat, meta: Meta, refunded: bool): seq<Event> {
    if refunded then [FlagSet(id), RefundOf(id, if meta.guild.Some? then meta.guild.value else 0)]
    else [FlagSet(id)]
  }

  /** Where the command `id` stands changes, and nothing else. */
  function With(j: Job, id: nat, c: Cancel): Job {
    j.(cancels := j.cancels[id := c])
  }

  function AfterFlag(j: Job, id: nat): Job {
    j.(flag := true, events := j.events + [FlagSet(id)])
  }

  lemma ResolveStep(j: Job, id: nat)
    requires j.meta.Some? && id !in j.cancels
    ensures Enabled(j, Resolve(id)) && Next(j, Resolve(id)) == With(j, id, Resolved(j.meta.value))
  {
  }

  lemma SetFlagStep(j: Job, id: nat, meta: Meta)
    ensures var j1 := With(j, id, Resolved(meta));
            Enabled(j1, SetFlag(id)) && Next(j1, SetFlag(id)) == With(AfterFlag(j, id), id, Flagged(meta))
  {
  }

  lemma ReadsStep(j: Job, id: nat, meta: Meta)
    ensures var j1 := With(j, id, Flagged(meta));
            Enabled(j1, ReadReady(id)) && Next(j1, ReadReady(id)) == With(j, id, SawReady(meta, j.ready))
    ensures var j2 := With(j, id, SawReady(meta, j.ready));
            Enabled(j2, ReadProgress(id))
            && Next(j2, ReadProgress(id)) == With(j, id, SawProgress(meta, j.ready, j.progress))
  {
    assert Next(With(j, id, Flagged(meta)), ReadReady(id)).cancels == j.cancels[id := SawReady(meta, j.ready)];
    assert Next(With(j, id, SawReady(meta, j.ready)), ReadProgress(id)).cancels
        == j.cancels[id := SawProgress(meta, j.ready, j.progress)];
  }

  lemma SettleStep(j: Job, id: nat, meta: Meta)
    ensures
      var j1 := With(AfterFlag(j, id), id, SawProgress(meta, j.ready, j.progress));
      var refunded := Eligible(meta, j.ready, j.progress);
      && Enabled(j1, Settle(id, true))
      && Next(j1, Settle(id, true))
         == j.(flag := true, cancels := j.cancels[id := Closed(refunded)],
               events := j.events + CancelEvents(id, meta, refunded))
  {
  }

  /**
   An undisturbed /cancel on a readable job refunds if and only if the enqueue took a
   token, no result is stored and no progress was emitted.
   */
  lemma SoloCancel(j: Job, id: nat)
    requires j.meta.Some? && id !in j.cancels
    ensures
      var refunded := Eligible(j.meta.value, j.ready, j.progress);
      Run(j, CancelSteps(id))
      == Some(j.(flag := true, cancels := j.cancels[id := Closed(refunded)],
                 events := j.events + CancelEvents(id, j.meta.value, refunded)))
  {
    hide Schedules.Run, Next, Enabled, CancelEvents;
    var meta := j.meta.value;
    var f := AfterFlag(j, id);
    var refunded := Eligible(meta, j.ready, j.progress);
    var end := j.(flag := true, cancels := j.cancels[id := Closed(refunded)],
                  events := j.events + CancelEvents(id, meta, refunded));
    ResolveStep(j, id);
    SetFlagStep(j, id, meta);
    ReadsStep(f, id, meta);
    SettleStep(j, id, meta);
    Schedules.First(Step, j, [Resolve(id), SetFlag(id), ReadReady(id), ReadProgress(id), Settle(id, true)],
             With(j, id, Resolved(meta)), [SetFlag(id), ReadReady(id), ReadProgress(id), Settle(id, true)]);
    Schedules.First(Step, With(j, id, Resolved(meta)), [SetFlag(id), ReadReady(id), ReadProgress(id), Settle(id, true)],
             With(f, id, Flagged(meta)), [ReadReady(id), ReadProgress(id), Settle(id, true)]);
    Schedules.First(Step, With(f, id, Flagged(meta)), [ReadReady(id), ReadProgress(id), Settle(id, true)],
             With(f, id, SawReady(meta, j.ready)), [ReadProgress(id), Settle(id, true)]);
    Schedules.First(Step, With(f, id, SawReady(meta, j.ready)), [ReadProgress(id), Settle(id, true)],
             With(f, id, SawProgress(meta, j.ready, j.progress)), [Settle(id, true)]);
    Schedules.First(Step, With(f, id, SawProgress(meta, j.ready, j.progress)), [Settle(id, true)], end, []);
    Schedules.Empty(Step, end);
  }

  function CancelSteps(id: nat): seq<Action> {
    [Resolve(id), SetFlag(id), ReadReady(id), ReadProgress(id), Settle(id, true)]
  }

  /**
   Nothing limits a job to one refund. In every reachable state in which a token has already
   been refunded, a further undisturbed /cancel on the readable job refunds again if and
   only if no result is stored and no progress was emitted.
   */
  lemma RefundedAgainIff(acts: seq<Action>, j: Job, r: nat, id: nat)
    requires Reached(acts, j) && r < |j.events| && j.events[r].RefundOf?
    requires j.meta.Some? && id !in j.cancels
    ensures
      var refunded := !j.ready && !j.progress;
      Run(j, CancelSteps(id))
      == Some(j.(flag := true, cancels := j.cancels[id := Closed(refunded)],
                 events := j.events + if refunded then [FlagSet(id), RefundOf(id, j.events[r].guild)]
                                      else [FlagSet(id)]))
  {
    ReachedInv(acts, j);
    SoloCancel(j, id);
    hide Schedules.Run, MetasTrue, RefundsTrue, FlagInv, TerminalInv, CancelSteps;
    assert j.meta.value == Meta(Some(j.events[r].guild), true);
  }

  /** A job queued with a token of guild 1, then two /cancel commands before any pickup. */
  function QueuedJob(): seq<Action> {
    [TakeToken(1), Kiq(true), RecordMeta(true)]
  }

  const QUEUED: Job :=
    var meta := Some(Meta(Some(1), true));
    Job(Over, 1, false, false, false, meta, meta, None, map[], [TokenTaken(1)])

  lemma JobIsQueued()
    ensures Run(INITIAL, QueuedJob()) == Some(QUEUED)
  {
    hide Schedules.Run;
    var j1 := INITIAL.(enqueue := Admitted(Some(1), true), events := [TokenTaken(1)]);
    var j2 := j1.(enqueue := Kicked(Some(1), true), queued := 1);
    assert Next(INITIAL, TakeToken(1)) == j1;
    Schedules.First(Step, INITIAL, QueuedJob(), j1, [Kiq(true), RecordMeta(true)]);
    Schedules.First(Step, j1, [Kiq(true), RecordMeta(true)], j2, [RecordMeta(true)]);
    Schedules.First(Step, j2, [RecordMeta(true)], QUEUED, []);
    Schedules.Empty(Step, QUEUED);
  }

  /** At most one refund per job does not hold: from the very start, two commands both refund one token. */
  lemma SecondCancelRefundsAgain()
    ensures
      var run := Run(INITIAL, QueuedJob() + CancelSteps(1) + CancelSteps(2));
      && run.Some?
      && run.value.events == [TokenTaken(1), FlagSet(1), RefundOf(1, 1), FlagSet(2), RefundOf(2, 1)]
  {
    hide Schedules.Run, CancelSteps, QueuedJob;
    JobIsQueued();
    SoloCancel(QUEUED, 1);
    var once := Run(QUEUED, CancelSteps(1)).value;
    Schedules.Split(Step, INITIAL, QueuedJob(), CancelSteps(1));
    Schedules.Split(Step, INITIAL, QueuedJob() + CancelSteps(1), CancelSteps(2));
    assert once.events == [TokenTaken(1), FlagSet(1), RefundOf(1, 1)];
    RefundedAgainIff(QueuedJob() + CancelSteps(1), once, 2, 2);
  }

  // ---------------------------------------------------------------- commands interleaved

  /** Steps of commands only: the worker and the broker are quiet, and credits succeed. */
  predicate CommandsOnly(acts: seq<Action>) {
    forall a | a in acts :: ByCommand(a) && (a.Settle? ==> a.creditOk)
  }

  /** What a command knows is what holds, and when it is through it has refunded as it should. */
  predicate Informed(j: Job, c: Cancel)
    requires j.meta.Some?
  {
    match c
    case Resolved(meta) => meta == j.meta.value
    case Flagged(meta) => meta == j.meta.value
    case SawReady(meta, ready) => meta == j.meta.value && ready == j.ready
    case SawProgress(meta, ready, progress) => meta == j.meta.value && ready == j.ready && progress == j.progress
    case Closed(refunded) => refunded == Eligible(j.meta.value, j.ready, j.progress)
  }

  function RefundCount(events: seq<Event>): nat {
    if events == [] then 0
    else RefundCount(events[..|events| - 1]) + if events[|events| - 1].RefundOf? then 1 else 0
  }

  ghost function ClosedIds(j: Job): set<nat> {
    set id | id in j.cancels && j.cancels[id].Closed?
  }

  lemma RefundCountGrows(events: seq<Event>, e: Event)
    ensures RefundCount(events + [e]) == RefundCount(events) + if e.RefundOf? then 1 else 0
  {
    assert (events + [e])[..|events|] == events;
  }

  /** Every command through or under way since `j0`, and the refunds they made. */
  ghost predicate Interleaved(j0: Job, j: Job)
    requires j0.meta.Some?
  {
    && j.meta == j0.meta && j.ready == j0.ready && j.progress == j0.progress
    && (forall id | id in j0.cancels :: id in j.cancels && j.cancels[id] == j0.cancels[id])
    && (forall id | id in j.cancels && id !in j0.cancels :: Informed(j0, j.cancels[id]))
    && |ClosedIds(j)| >= |ClosedIds(j0)|
    && RefundCount(j.events) == RefundCount(j0.events)
         + if Eligible(j0.meta.value, j0.ready, j0.progress) then |ClosedIds(j)| - |ClosedIds(j0)| else 0
  }

  lemma InterleavedStep(j0: Job, j: Job, a: Action)
    requires j0.meta.Some? && Interleaved(j0, j) && Enabled(j, a)
    requires forall id | id in j0.cancels :: j0.cancels[id].Closed?
    requires ByCommand(a) && (a.Settle? ==> a.creditOk)
    ensures Interleaved(j0, Next(j, a))
  {
    CommandStep(j0, j, a);
    hide RefundCount, Informed, Next, Enabled, Eligible, ByCommand;
    var j' := Next(j, a);
    if a.Settle? {
      assert ClosedIds(j') == ClosedIds(j) + {a.id} && a.id !in ClosedIds(j);
    } else {
      assert ClosedIds(j') == ClosedIds(j);
    }
    hide ClosedIds;
  }

  /** The step of one command: what it learns, and whether it refunds. */
  lemma CommandStep(j0: Job, j: Job, a: Action)
    requires j0.meta.Some? && Interleaved(j0, j) && Enabled(j, a)
    requires forall id | id in j0.cancels :: j0.cancels[id].Closed?
    requires ByCommand(a) && (a.Settle? ==> a.creditOk)
    ensures
      var j' := Next(j, a);
      && a.id !in j0.cancels
      && j'.meta == j.meta && j'.ready == j.ready && j'.progress == j.progress
      && j'.cancels == j.cancels[a.id := j'.cancels[a.id]] && Informed(j0, j'.cancels[a.id])
      && (a.Settle? <==> j'.cancels[a.id].Closed?) && (a.id in j.cancels ==> !j.cancels[a.id].Closed?)
      && RefundCount(j'.events) == RefundCount(j.events)
           + if a.Settle? && Eligible(j0.meta.value, j0.ready, j0.progress) then 1 else 0
  {
    hide RefundCount, ClosedIds;
    var j' := Next(j, a);
    if a.SetFlag? {
      RefundCountGrows(j.events, FlagSet(a.id));
    }
    if a.Settle? {
      assert Informed(j0, j.cancels[a.id]);
      if j.cancels[a.id].meta.guild.Some? {
        RefundCountGrows(j.events, RefundOf(a.id, j.cancels[a.id].meta.guild.value));
      }
    }
  }

  lemma {:induction false} InterleavedRun(j0: Job, j: Job, acts: seq<Action>)
    requires j0.meta.Some? && Interleaved(j0, j) && Run(j, acts).Some? && CommandsOnly(acts)
    requires forall id | id in j0.cancels :: j0.cancels[id].Closed?
    ensures Interleaved(j0, Run(j, acts).value)
    decreases |acts|
  {
    hide Interleaved, Next, Enabled, ByCommand;
    if acts != [] {
      assert acts[0] in acts;
      InterleavedStep(j0, j, acts[0]);
      InterleavedRun(j0, Next(j, acts[0]), acts[1..]);
    }
  }

  /**
   Any number of /cancel commands on a readable job, interleaved in any way while the worker
   is quiet: each that gets through refunds if and only if the enqueue took a token and
   neither result nor progress is there, so the refunds are as many as the commands, or none.
   */
  lemma InterleavedCancels(j: Job, acts: seq<Action>, id: nat)
    requires j.meta.Some? && (forall id | id in j.cancels :: j.cancels[id].Closed?)
    requires Run(j, acts).Some? && CommandsOnly(acts)
    ensures
      var j' := Run(j, acts).value;
      var eligible := Eligible(j.meta.value, j.ready, j.progress);
      && (id in j'.cancels && id !in j.cancels && j'.cancels[id].Closed? ==> j'.cancels[id].refunded == eligible)
      && RefundCount(j'.events) == RefundCount(j.events)
           + if eligible then |ClosedIds(j')| - |ClosedIds(j)| else 0
  {
    InterleavedRun(j, j, acts);
    hide Schedules.Run, RefundCount, ClosedIds;
  }

  // ---------------------------------------------------------------- what /status shows

  datatype Phase = ShowCancelled | ShowDone | ShowQueued | ShowRunning

  /** The precedence of the command: cancelled, then done, then queued, then the worker's phase. */
  function Status(j: Job): Phase {
    if j.flag then ShowCancelled
    else if j.ready then ShowDone
    else if !j.progress then ShowQueued
    else ShowRunning
  }

  lemma {:induction false} StandingResult(events: seq<Event>) returns (k: nat)
    requires ResultStands(events)
    ensures k < |events| && LeavesResult(events[k])
    ensures forall i | k < i < |events| :: !events[i].Dropped?
  {
    var n := |events| - 1;
    if LeavesResult(events[n]) {
      k := n;
    } else {
      k := StandingResult(events[..n]);
      assert forall i | k < i < n :: events[..n][i] == events[i];
    }
  }

  /**
   What is shown is what happened. "Cancelled": a flag was set. Otherwise "done": the last
   attempt that ended for good left a result that still stands; and without one "queued" if
   no body has ever started, and "running" if one has.
   */
  lemma StatusIsTruthful(acts: seq<Action>, j: Job)
    requires Reached(acts, j)
    ensures
      var flagged := exists k, id :: FlagAt(j.events, k, id);
      var started := exists k :: BodyAt(j.events, k);
      && (Status(j) == ShowCancelled <==> flagged)
      && (Status(j) == ShowDone <==> !flagged && ResultStands(j.events))
      && (Status(j) == ShowQueued <==> !flagged && !ResultStands(j.events) && !started)
      && (Status(j) == ShowRunning <==> !flagged && !ResultStands(j.events) && started)
  {
    ReachedInv(acts, j);
    hide Schedules.Run, MetasTrue, RefundsTrue, TerminalInv, OnceInv, ResultStands;
  }

  /** "Done" means that an attempt of this job succeeded or gave up: a cancelled one shows as cancelled. */
  lemma DoneMeansEnded(acts: seq<Action>, j: Job) returns (k: nat)
    requires Reached(acts, j) && Status(j) == ShowDone
    ensures k < |j.events| && (j.events[k].Succeeded? || j.events[k].GaveUp?)
  {
    ReachedInv(acts, j);
    hide Schedules.Run, MetasTrue, RefundsTrue, OnceInv;
    k := StandingResult(j.events);
    assert !CancelledAt(j.events, k);
  }

  // ---------------------------------------------------------------- the worker undisturbed

  function BodySteps(): seq<Action> {
    [PickUp, CheckFlag, EmitProgress]
  }

  /** A queued job that nobody cancelled runs its body. */
  lemma SoloPickup(j: Job)
    requires j.queued > 0 && j.attempt.None? && !j.flag
    ensures Run(j, BodySteps())
         == Some(j.(queued := j.queued - 1, attempt := Some(InBody), progress := true, events := j.events + [BodyStarted]))
  {
    hide Schedules.Run;
    var j1 := j.(queued := j.queued - 1, attempt := Some(Picked));
    var j2 := j1.(attempt := Some(Cleared));
    Schedules.First(Step, j, BodySteps(), j1, [CheckFlag, EmitProgress]);
    Schedules.First(Step, j1, [CheckFlag, EmitProgress], j2, [EmitProgress]);
    Schedules.First(Step, j2, [EmitProgress], Next(j2, EmitProgress), []);
    Schedules.Empty(Step, Next(j2, EmitProgress));
  }

  /** And then it is done, or queued again for a retry. */
  lemma SoloWorker(j: Job)
    requires j.queued > 0 && j.attempt.None? && !j.flag
    ensures Run(j, BodySteps() + [Succeed])
         == Some(j.(queued := j.queued - 1, progress := true, ready := true,
                    events := j.events + [BodyStarted, Succeeded]))
    ensures Run(j, BodySteps() + [Fail(true)])
         == Some(j.(progress := true, events := j.events + [BodyStarted, Retried]))
  {
    hide Schedules.Run, BodySteps;
    SoloPickup(j);
    var j' := Run(j, BodySteps()).value;
    forall a | a in [Succeed, Fail(true)] ensures Run(j, BodySteps() + [a]) == Some(Next(j', a)) {
      Schedules.Split(Step, j, BodySteps(), [a]);
      Schedules.First(Step, j', [a], Next(j', a), []);
      Schedules.Empty(Step, Next(j', a));
    }
    assert Succeed in [Succeed, Fail(true)] && Fail(true) in [Succeed, Fail(true)];
    assert Next(j', Succeed).events == j.events + [BodyStarted, Succeeded];
    assert Next(j', Fail(true)).events == j.events + [BodyStarted, Retried];
  }
}
