/**
 The two commands that touch everything: /download takes a token, enqueues and records;
 /cancel sets the flag, looks, and may give the token back.
 */
module CogCommands {
  import opened Options
  import opened TokenBucket
  import opened RateStore
  import opened RateLimiter
  import opened JobIndex
  import Filters
  import Durations

  datatype Guild = Guild(id: nat, owner: UserId, mayReadHistory: bool)

  datatype Context = Context(author: UserId, channel: nat, guild: Option<Guild>)

  /** What `kiq` sends to the worker. */
  datatype Task = Task(id: TaskId, channel: nat, user: UserId, guild: Option<nat>, dmMe: bool,
                       filters: Option<Filters.Payload>)

  /** The queue, the cancellation flags, and what the result backend holds. */
  class Broker {
    var queue: seq<Task>
    var flags: set<TaskId>
    var ready: set<TaskId>
    var progress: set<TaskId>

    constructor ()
      ensures queue == [] && flags == {} && ready == {} && progress == {}
    {
      queue, flags, ready, progress := [], {}, {}, {};
    }
  }

  /** What the worker may do while a command waits. */
  datatype WorkerStep = Emits(task: TaskId) | Finishes(task: TaskId)

  datatype Reply =
    | MissingPermission
    | ConflictingFilters
    | InvalidFilter(error: Durations.Error)
    | Uncaught                              // the command itself raises
    | RateLimited(retryAfter: real)
    | ServiceUnavailable
    | Queued(task: TaskId)

  /** The guild whose bucket is asked: none in a DM, none for the guild's owner. */
  predicate Metered(ctx: Context) {
    ctx.guild.Some? && ctx.author != ctx.guild.value.owner
  }

  /**
   /download. `bucket` is the key of the command's guild; `task` the id the broker would
   give; the two booleans say whether the broker and the index could be reached.
   */
  method Download(ctx: Context, i: Filters.Inputs, dmMe: bool, c: Config, retentionHours: nat,
                  bucket: GuildBucket, index: Redis, broker: Broker,
                  me: nat, sched: seq<Round>, task: TaskId, brokerUp: bool, indexUp: bool)
    returns (reply: Reply)
    requires c.Valid() && bucket.Valid(c) && index.Valid() && RoundsByOthers(me, sched)
    modifies bucket, index, broker`queue
    ensures bucket.Valid(c) && index.Valid()
    // which reply, in the order of the checks
    ensures reply == MissingPermission <==> ctx.guild.Some? && !ctx.guild.value.mayReadHistory
    ensures reply != MissingPermission ==>
              (reply == ConflictingFilters <==> i.during.Some? && (i.before.Some? || i.after.Some?))
              && (reply.InvalidFilter? <==> Filters.Validate(i).BadDuration?)
              && (reply == Uncaught <==> Filters.Validate(i) == Filters.Raises)
    ensures reply.InvalidFilter? ==> Filters.Validate(i) == Filters.BadDuration(reply.error)
    // the bucket is asked exactly once, and only for metered commands that passed the checks
    ensures reply == MissingPermission || reply == ConflictingFilters || reply.InvalidFilter? || reply == Uncaught
            || !Metered(ctx) ==>
              bucket.View() == old(bucket.View())
    ensures (reply.RateLimited? || reply.ServiceUnavailable? || reply.Queued?) && Metered(ctx) ==>
              old(bucket.log) < bucket.log && bucket.log[|bucket.log| - 1].Acquired?
              && bucket.log[|bucket.log| - 1].who == me
              && (forall k | |old(bucket.log)| <= k < |bucket.log| - 1 :: bucket.log[k].who != me)
              && (bucket.log[|bucket.log| - 1].verdict.allowed <==> !reply.RateLimited?)
    ensures reply.RateLimited? ==> Metered(ctx) && bucket.log[|bucket.log| - 1].verdict.retryAfter == reply.retryAfter
    // the job exists exactly when the reply says so
    ensures broker.queue == if reply.Queued?
              then old(broker.queue)
                   + [Task(task, ctx.channel, ctx.author, if ctx.guild.Some? then Some(ctx.guild.value.id) else None,
                           dmMe, Filters.Enqueued(i))]
              else old(broker.queue)
    ensures reply.Queued? ==> reply.task == task && brokerUp
    ensures reply.ServiceUnavailable? ==> !brokerUp
    // and what the index says about tokens is true
    ensures index.View() == if reply.Queued? && indexUp
              then Record(old(index.View()), task,
                          JobMeta(ctx.author, if ctx.guild.Some? then Some(ctx.guild.value.id) else None, ctx.channel,
                                  ctx.guild.Some? && ctx.author != ctx.guild.value.owner),
                          (retentionHours * 3600) as real)
              else old(index.View())
  {
    hide StoreInv, Replay, Ideal, Filters.Entries, Durations.ParseDuration;
    if ctx.guild.Some? && !ctx.guild.value.mayReadHistory {
      return MissingPermission;
    }
    if i.during.Some? && (i.before.Some? || i.after.Some?) {
      return ConflictingFilters;
    }
    if i.before.Some? {
      var d := Durations.ParseDuration(i.before.value);
      if d.Err? {
        return if d.error.TooLong? then Uncaught else InvalidFilter(d.error);
      }
    }
    if i.after.Some? {
      var d := Durations.ParseDuration(i.after.value);
      if d.Err? {
        return if d.error.TooLong? then Uncaught else InvalidFilter(d.error);
      }
    }
    var consumedToken := false;
    if ctx.guild.Some? && ctx.author != ctx.guild.value.owner {
      var verdict, _ := bucket.Acquire(c, me, sched);
      if !verdict.allowed {
        return RateLimited(verdict.retryAfter);
      }
      consumedToken := true;
    }
    var filters := Filters.BuildFilters(i);
    if !brokerUp {
      return ServiceUnavailable;
    }
    var guildId: Option<nat> := None;
    if ctx.guild.Some? {
      guildId := Some(ctx.guild.value.id);
    }
    broker.queue := broker.queue + [Task(task, ctx.channel, ctx.author, guildId, dmMe, filters)];
    if indexUp {
      var meta := JobMeta(ctx.author, guildId, ctx.channel, consumedToken);
      index.RecordJob(task, meta, (retentionHours * 3600) as real);
    }
    return Queued(task);
  }

  // ---------------------------------------------------------------- /cancel

  /** The argument: none, a well-formed id, or something else. */
  datatype TaskArg = Latest | Given(task: TaskId) | Malformed

  /** The requester, the bot's owner, or the owner of the job's guild, from within that guild. */
  predicate CanActOn(ctx: Context, isBotOwner: bool, meta: JobMeta) {
    || meta.owner == ctx.author
    || isBotOwner
    || (ctx.guild.Some? && meta.guild.Some? && meta.guild.value == ctx.guild.value.id
        && ctx.author == ctx.guild.value.owner)
  }

  /** The check in the order in which it is made. */
  method MayActOn(ctx: Context, isBotOwner: bool, meta: JobMeta) returns (yes: bool)
    ensures yes <==> CanActOn(ctx, isBotOwner, meta)
  {
    if meta.owner == ctx.author {
      return true;
    }
    if isBotOwner {
      return true;
    }
    if ctx.guild.None? || meta.guild.None? || meta.guild.value != ctx.guild.value.id {
      return false;
    }
    return ctx.author == ctx.guild.value.owner;
  }

  /** The argument names a job: itself, or the one with the highest score in the caller's live set. */
  predicate Names(x: Index, user: UserId, arg: TaskArg, task: TaskId) {
    match arg
    case Malformed => false
    case Given(t) => task == t
    case Latest => IsLatest(LiveSet(x, user), task)
  }

  /** The job can be read, and the caller may act on it. */
  predicate Open(ctx: Context, isBotOwner: bool, x: Index, task: TaskId) {
    LiveMeta(x, task).Some? && CanActOn(ctx, isBotOwner, LiveMeta(x, task).value)
  }

  /**
   The job a command is about: the one the argument names, if it is open to the caller, and
   none otherwise. Without an argument that is the caller's newest active job, if any.
   */
  method ResolveJob(ctx: Context, isBotOwner: bool, arg: TaskArg, index: Redis)
    returns (job: Option<(TaskId, JobMeta)>)
    requires index.Valid()
    ensures job.Some? ==>
              && Names(index.View(), ctx.author, arg, job.value.0)
              && Open(ctx, isBotOwner, index.View(), job.value.0)
              && LiveMeta(index.View(), job.value.0) == Some(job.value.1)
    ensures job.None? ==>
              forall t | Names(index.View(), ctx.author, arg, t) :: !Open(ctx, isBotOwner, index.View(), t)
    ensures forall ttl, j | arg.Latest? && Regular(index.t0, index.history, ttl)
                            && ActiveAt(index.history, ctx.author, j, index.clock) ::
              && job.Some? && ActiveAt(index.history, ctx.author, job.value.0, index.clock)
              && LastEvent(index.history, j).value.at <= LastEvent(index.history, job.value.0).value.at
  {
    hide Replay;
    var task: TaskId;
    match arg {
      case Malformed => return None;
      case Given(t) => task := t;
      case Latest =>
        var latest := index.LatestJobForUser(ctx.author);
        if latest.None? {
          return None;
        }
        task := latest.value;
    }
    var meta := index.GetJobMeta(task);
    forall t | Names(index.View(), ctx.author, arg, t) ensures t == task {
      if arg.Latest? {
        LatestUnique(LiveSet(index.View(), ctx.author), t, task);
      }
    }
    if arg.Latest? {
      forall ttl, j | Regular(index.t0, index.history, ttl)
                      && ActiveAt(index.history, ctx.author, j, index.clock)
        ensures meta.Some? && meta.value.owner == ctx.author
      {
        NewestIsOwn(index.t0, index.history, ttl, index.clock, ctx.author, task, j);
      }
    }
    if meta.None? {
      return None;
    }
    var may := MayActOn(ctx, isBotOwner, meta.value);
    if !may {
      return None;
    }
    return Some((task, meta.value));
  }

  /** The newest active job of a user has a readable meta that names the user as owner. */
  lemma NewestIsOwn(t0: real, h: seq<JobIndex.Event>, ttl: real, now: real, user: UserId, k: TaskId, j: TaskId)
    requires Regular(t0, h, ttl) && JobIndex.Replay(t0, h).clock <= now
    requires IsLatest(LiveSet(JobIndex.Replay(t0, h).(clock := now), user), k)
    requires ActiveAt(h, user, j, now)
    ensures LiveMeta(JobIndex.Replay(t0, h).(clock := now), k).Some?
    ensures LiveMeta(JobIndex.Replay(t0, h).(clock := now), k).value.owner == user
  {
    LatestIsNewest(t0, h, ttl, now, user, k, j);
  }

  datatype CancelReply = JobNotFound | JobCancelled(task: TaskId, refundTried: bool)

  /** What the two readings of the snapshot see, with the worker at work before each of them. */
  predicate SeenReady(ready: set<TaskId>, first: seq<WorkerStep>, task: TaskId) {
    task in ready || Finishes(task) in first
  }

  predicate SeenProgress(progress: set<TaskId>, first: seq<WorkerStep>, second: seq<WorkerStep>, task: TaskId) {
    task in progress || Emits(task) in first || Emits(task) in second
  }

  /**
   /cancel: first the flag, then the result, then the progress, with the worker at work in
   between. A refund is tried exactly when the enqueue took a token of a guild and neither
   reading saw anything. A refund that is tried credits the bucket if it had room at some
   point of the call, and undisturbed exactly if it has room.
   */
  method Cancel(ctx: Context, isBotOwner: bool, arg: TaskArg, c: Config,
                bucket: GuildBucket, index: Redis, broker: Broker,
                first: seq<WorkerStep>, second: seq<WorkerStep>,
                me: nat, sched: seq<Round>, storeUp: bool)
    returns (reply: CancelReply, ghost now: real)
    requires c.Valid() && bucket.Valid(c) && index.Valid() && RoundsByOthers(me, sched)
    modifies bucket, broker
    ensures bucket.Valid(c)
    ensures broker.queue == old(broker.queue)
    // which job, if any
    ensures reply.JobNotFound? <==>
              forall t | Names(index.View(), ctx.author, arg, t) :: !Open(ctx, isBotOwner, index.View(), t)
    ensures reply.JobCancelled? ==> Names(index.View(), ctx.author, arg, reply.task)
    ensures forall ttl, j | arg.Latest? && Regular(index.t0, index.history, ttl)
                            && ActiveAt(index.history, ctx.author, j, index.clock) ::
              && reply.JobCancelled? && ActiveAt(index.history, ctx.author, reply.task, index.clock)
              && LastEvent(index.history, j).value.at <= LastEvent(index.history, reply.task).value.at
    // what happens to it
    ensures reply.JobNotFound? ==>
              broker.flags == old(broker.flags) && broker.ready == old(broker.ready)
              && broker.progress == old(broker.progress) && bucket.View() == old(bucket.View())
    ensures reply.JobCancelled? ==>
              && broker.flags == old(broker.flags) + {reply.task}
              && LiveMeta(index.View(), reply.task).Some?
              && var meta := LiveMeta(index.View(), reply.task).value;
                 && CanActOn(ctx, isBotOwner, meta)
                 && (reply.refundTried <==> meta.consumedToken && meta.guild.Some? && storeUp
                                            && !SeenReady(old(broker.ready), first, reply.task)
                                            && !SeenProgress(old(broker.progress), first, second, reply.task))
    ensures reply.JobCancelled? && !reply.refundTried ==> bucket.View() == old(bucket.View())
    ensures reply.JobCancelled? && reply.refundTried ==>
              && old(bucket.clock) <= now <= bucket.clock
              && RoomSeen(c, old(bucket.log), bucket.log, now, CreditedBy(old(bucket.log), bucket.log, me))
              && (CreditedBy(old(bucket.log), bucket.log, me) || Moved(old(bucket.View()), bucket.View(), me))
              && (sched == [] ==> (CreditedBy(old(bucket.log), bucket.log, me) <==>
                                   Balance(c, Ideal(c, old(bucket.log)), old(bucket.clock)) < c.Cap()))
  {
    hide StoreInv, Replay, Ideal, Level, LiveMeta, LiveSet, IsLatest, Names, RoomSeen, CreditedBy, Moved, LastEvent,
         ActiveAt, Regular;
    now := bucket.clock;
    var job := ResolveJob(ctx, isBotOwner, arg, index);
    if job.None? {
      return JobNotFound, now;
    }
    var (task, meta) := job.value;
    assert Names(index.View(), ctx.author, arg, task) && Open(ctx, isBotOwner, index.View(), task);
    broker.flags := broker.flags + {task};
    WorkerRuns(broker, first);
    var ready := task in broker.ready;
    WorkerRuns(broker, second);
    var progress := task in broker.progress;
    var refundEligible := meta.consumedToken && !ready && !progress;
    assert index.View() == old(index.View());
    if refundEligible && meta.guild.Some? && storeUp {
      var credited, restarts;
      credited, restarts, now := bucket.Refund(c, me, sched);
      assert index.View() == old(index.View());
      return JobCancelled(task, true), now;
    }
    return JobCancelled(task, false), now;
  }

  /** The worker goes on while the command waits. */
  method WorkerRuns(broker: Broker, steps: seq<WorkerStep>)
    modifies broker`ready, broker`progress
    ensures old(broker.ready) <= broker.ready && old(broker.progress) <= broker.progress
    ensures forall t :: t in broker.progress <==> t in old(broker.progress) || Emits(t) in steps
    ensures forall t :: t in broker.ready <==> t in old(broker.ready) || Finishes(t) in steps
  {
    for k := 0 to |steps|
      invariant forall t :: t in broker.progress <==> t in old(broker.progress) || Emits(t) in steps[..k]
      invariant forall t :: t in broker.ready <==> t in old(broker.ready) || Finishes(t) in steps[..k]
    {
      assert steps[..k + 1] == steps[..k] + [steps[k]];
      match steps[k]
      case Emits(t) => broker.progress := broker.progress + {t};
      case Finishes(t) => broker.ready := broker.ready + {t};
    }
    assert steps[..|steps|] == steps;
  }
}
