/**
 The user→jobs index behind /status and /cancel: one key per job, one sorted set per user,
 each with its own expiry, changed together by `record_job` and `forget_job`.

 A task id is 32 hexadecimal digits, so comparing ids as strings, which Redis does to
 break ties between equal scores, is comparing them as numbers.
 */
module JobIndex {
  import opened Options

  type TaskId = nat
  type UserId = nat

  datatype JobMeta = JobMeta(owner: UserId, guild: Option<nat>, channel: nat, consumedToken: bool)

  datatype MetaKey = MetaKey(meta: JobMeta, expiresAt: real)

  datatype ActiveKey = ActiveKey(scores: map<TaskId, real>, expiresAt: real)

  /** All keys of the index. A key past its expiry is still listed here, and reads as absent. */
  datatype Index = Index(clock: real, metas: map<TaskId, MetaKey>, active: map<UserId, ActiveKey>)

  function LiveMeta(x: Index, task: TaskId): Option<JobMeta> {
    if task in x.metas && x.clock < x.metas[task].expiresAt then Some(x.metas[task].meta) else None
  }

  /** The members ZREVRANGE and ZADD see: none once the set has expired. */
  function LiveSet(x: Index, user: UserId): map<TaskId, real> {
    if user in x.active && x.clock < x.active[user].expiresAt then x.active[user].scores else map[]
  }

  /** SET EX, ZADD and EXPIRE in one transaction. */
  function Record(x: Index, task: TaskId, meta: JobMeta, ttl: real): Index {
    x.(metas := x.metas[task := MetaKey(meta, x.clock + ttl)],
       active := x.active[meta.owner := ActiveKey(LiveSet(x, meta.owner)[task := x.clock], x.clock + ttl)])
  }

  /** DEL and ZREM in one transaction; missing keys are fine. */
  function Forget(x: Index, task: TaskId, owner: UserId): Index {
    x.(metas := x.metas - {task},
       active := if owner in x.active
                 then x.active[owner := x.active[owner].(scores := x.active[owner].scores - {task})]
                 else x.active)
  }

  /** ZREVRANGE 0 0: the highest score, and among equal scores the greatest member. */
  predicate IsLatest(scores: map<TaskId, real>, k: TaskId) {
    && k in scores
    && forall j | j in scores :: scores[j] < scores[k] || (scores[j] == scores[k] && j <= k)
  }

  lemma LatestExists(scores: map<TaskId, real>) returns (k: TaskId)
    requires scores != map[]
    ensures IsLatest(scores, k)
    decreases |scores|
  {
    var j :| j in scores;
    var rest := scores - {j};
    if rest == map[] {
      assert forall i | i in scores :: i == j || i in rest;
      k := j;
    } else {
      assert |rest.Keys| < |scores.Keys| by {
        assert rest.Keys == scores.Keys - {j};
      }
      var m := LatestExists(rest);
      assert forall i | i in scores :: i == j || i in rest;
      k := if scores[j] < scores[m] || (scores[j] == scores[m] && j <= m) then m else j;
    }
  }

  lemma LatestUnique(scores: map<TaskId, real>, j: TaskId, k: TaskId)
    requires IsLatest(scores, j) && IsLatest(scores, k)
    ensures j == k
  {
  }

  // ---------------------------------------------------------------- what happened, as a history

  datatype Event =
    | Recorded(task: TaskId, meta: JobMeta, at: real, ttl: real)
    | Forgotten(task: TaskId, owner: UserId, at: real)

  function Owner(e: Event): UserId {
    if e.Recorded? then e.meta.owner else e.owner
  }

  /** The index after a history of calls; the clock stands at the last one. */
  function Replay(t0: real, h: seq<Event>): Index {
    if h == [] then Index(t0, map[], map[])
    else
      var e := h[|h| - 1];
      var x := Replay(t0, h[..|h| - 1]).(clock := e.at);
      if e.Recorded? then Record(x, e.task, e.meta, e.ttl) else Forget(x, e.task, e.owner)
  }

  /** The last call that concerned a task. */
  function LastEvent(h: seq<Event>, task: TaskId): Option<Event> {
    if h == [] then None
    else if h[|h| - 1].task == task then Some(h[|h| - 1])
    else LastEvent(h[..|h| - 1], task)
  }

  /** The job was recorded by this user and is neither forgotten nor expired at the moment. */
  predicate ActiveAt(h: seq<Event>, user: UserId, task: TaskId, now: real) {
    var last := LastEvent(h, task);
    last.Some? && last.value.Recorded? && last.value.meta.owner == user && now < last.value.at + last.value.ttl
  }

  /** One nondecreasing clock, one lifetime, and one owner for each task id. */
  ghost predicate Regular(t0: real, h: seq<Event>, ttl: real) {
    && ttl > 0.0
    && (forall i | 0 <= i < |h| :: t0 <= h[i].at && (h[i].Recorded? ==> h[i].ttl == ttl))
    && (forall i, j | 0 <= i < j < |h| :: h[i].at <= h[j].at)
    && (forall i, j | 0 <= i < j < |h| && h[i].task == h[j].task :: Owner(h[i]) == Owner(h[j]))
  }

  /** The empty history is regular, and which calls may follow a regular one. */
  lemma RegularGrows(t0: real, h: seq<Event>, ttl: real, e: Event)
    ensures Regular(t0, [], ttl) <==> ttl > 0.0
    ensures Regular(t0, h + [e], ttl) <==>
      && Regular(t0, h, ttl) && t0 <= e.at && (h != [] ==> h[|h| - 1].at <= e.at) && (e.Recorded? ==> e.ttl == ttl)
      && forall i | 0 <= i < |h| && h[i].task == e.task :: Owner(h[i]) == Owner(e)
  {
    var h' := h + [e];
    assert forall i | 0 <= i < |h| :: h'[i] == h[i];
    assert h'[|h|] == e;
  }

  lemma {:induction false} LastEventFacts(h: seq<Event>, task: TaskId)
    ensures LastEvent(h, task).Some? ==>
      exists i :: 0 <= i < |h| && h[i] == LastEvent(h, task).value && h[i].task == task
  {
    if h != [] && h[|h| - 1].task != task {
      LastEventFacts(h[..|h| - 1], task);
      if LastEvent(h, task).Some? {
        var i :| 0 <= i < |h| - 1 && h[..|h| - 1][i] == LastEvent(h, task).value && h[..|h| - 1][i].task == task;
        assert h[i] == LastEvent(h, task).value;
      }
    } else if h != [] {
      assert h[|h| - 1] == LastEvent(h, task).value;
    }
  }

  /** The two keys mirror the history. */
  ghost predicate Mirrors(x: Index, h: seq<Event>, ttl: real) {
    && (forall task :: MetaMirrors(x, h, task))
    && (forall user, task | task in LiveSet(x, user) :: ListedRightly(x, h, user, task))
    && (forall user, task | ActiveAt(h, user, task, x.clock) :: Listed(x, h, user, task))
  }

  ghost predicate MetaMirrors(x: Index, h: seq<Event>, task: TaskId) {
    var last := LastEvent(h, task);
    if last.Some? && last.value.Recorded?
    then task in x.metas && x.metas[task] == MetaKey(last.value.meta, last.value.at + last.value.ttl)
    else task !in x.metas
  }

  ghost predicate ListedRightly(x: Index, h: seq<Event>, user: UserId, task: TaskId)
    requires task in LiveSet(x, user)
  {
    var last := LastEvent(h, task);
    last.Some? && last.value.Recorded? && last.value.meta.owner == user && LiveSet(x, user)[task] == last.value.at
  }

  ghost predicate Listed(x: Index, h: seq<Event>, user: UserId, task: TaskId)
    requires ActiveAt(h, user, task, x.clock)
  {
    var last := LastEvent(h, task).value;
    && user in x.active && last.at + last.ttl <= x.active[user].expiresAt
    && task in x.active[user].scores && x.active[user].scores[task] == last.at
  }

  /** Time alone keeps the mirror: keys only run out. */
  lemma LaterMirrors(x: Index, h: seq<Event>, ttl: real, now: real)
    requires Mirrors(x, h, ttl) && x.clock <= now
    ensures Mirrors(x.(clock := now), h, ttl)
  {
    var x' := x.(clock := now);
    forall task ensures MetaMirrors(x', h, task) {
      assert MetaMirrors(x, h, task);
    }
    forall user, task | task in LiveSet(x', user) ensures ListedRightly(x', h, user, task) {
      assert task in LiveSet(x, user);
      assert ListedRightly(x, h, user, task);
    }
    forall user, task | ActiveAt(h, user, task, now) ensures Listed(x', h, user, task) {
      assert ActiveAt(h, user, task, x.clock);
      assert Listed(x, h, user, task);
    }
  }

  lemma RecordMirrors(x: Index, h: seq<Event>, e: Event, ttl: real)
    requires Mirrors(x, h, ttl) && e.Recorded? && e.at == x.clock && e.ttl == ttl > 0.0
    requires forall i | 0 <= i < |h| :: h[i].at <= e.at && (h[i].Recorded? ==> h[i].ttl == ttl)
    requires forall i | 0 <= i < |h| && h[i].task == e.task :: Owner(h[i]) == e.meta.owner
    ensures Mirrors(Record(x, e.task, e.meta, e.ttl), h + [e], ttl)
  {
    var x' := Record(x, e.task, e.meta, e.ttl);
    var h' := h + [e];
    assert h'[..|h|] == h;
    forall task ensures MetaMirrors(x', h', task) {
      assert MetaMirrors(x, h, task);
    }
    forall user, task | task in LiveSet(x', user) ensures ListedRightly(x', h', user, task) {
      if task == e.task {
        LastEventFacts(h, task);
      }
      if task in LiveSet(x, user) {
        assert ListedRightly(x, h, user, task);
      }
    }
    forall user, task | ActiveAt(h', user, task, x'.clock) ensures Listed(x', h', user, task) {
      if task != e.task {
        assert ActiveAt(h, user, task, x.clock);
        assert Listed(x, h, user, task);
        LastEventFacts(h, task);
      }
    }
  }

  lemma ForgetMirrors(x: Index, h: seq<Event>, e: Event, ttl: real)
    requires Mirrors(x, h, ttl) && e.Forgotten? && e.at == x.clock
    requires forall i | 0 <= i < |h| && h[i].task == e.task :: Owner(h[i]) == e.owner
    ensures Mirrors(Forget(x, e.task, e.owner), h + [e], ttl)
  {
    var x' := Forget(x, e.task, e.owner);
    var h' := h + [e];
    assert h'[..|h|] == h;
    forall task ensures MetaMirrors(x', h', task) {
      assert MetaMirrors(x, h, task);
    }
    forall user, task | task in LiveSet(x', user) ensures ListedRightly(x', h', user, task) {
      assert task in LiveSet(x, user) && ListedRightly(x, h, user, task);
      if task == e.task {
        LastEventFacts(h, task);
      }
    }
    forall user, task | ActiveAt(h', user, task, x'.clock) ensures Listed(x', h', user, task) {
      assert ActiveAt(h, user, task, x.clock) && Listed(x, h, user, task);
    }
  }

  lemma {:induction false} ReplayMirrors(t0: real, h: seq<Event>, ttl: real)
    requires Regular(t0, h, ttl)
    ensures Mirrors(Replay(t0, h), h, ttl)
    ensures Replay(t0, h).clock == if h == [] then t0 else h[|h| - 1].at
  {
    if h != [] {
      var n := |h| - 1;
      var e := h[n];
      ReplayMirrors(t0, h[..n], ttl);
      LaterMirrors(Replay(t0, h[..n]), h[..n], ttl, e.at);
      var x := Replay(t0, h[..n]).(clock := e.at);
      assert h == h[..n] + [e];
      if e.Recorded? {
        RecordMirrors(x, h[..n], e, ttl);
      } else {
        ForgetMirrors(x, h[..n], e, ttl);
      }
    }
  }

  // ---------------------------------------------------------------- the theorems

  /**
   With one lifetime and one nondecreasing clock: after any history of calls, a job that is
   neither forgotten nor expired has a readable meta and is listed for its owner, and a
   readable meta belongs to such a job.
   */
  lemma LiveMetaIsListed(t0: real, h: seq<Event>, ttl: real, now: real, task: TaskId)
    requires Regular(t0, h, ttl) && Replay(t0, h).clock <= now
    ensures
      var x := Replay(t0, h).(clock := now);
      && (LiveMeta(x, task).Some? <==> exists user :: ActiveAt(h, user, task, now))
      && (LiveMeta(x, task).Some? ==> task in LiveSet(x, LiveMeta(x, task).value.owner))
  {
    ReplayMirrors(t0, h, ttl);
    LaterMirrors(Replay(t0, h), h, ttl, now);
    var x := Replay(t0, h).(clock := now);
    hide Replay, LastEvent;
    assert MetaMirrors(x, h, task);
    if LiveMeta(x, task).Some? {
      var owner := LiveMeta(x, task).value.owner;
      assert ActiveAt(h, owner, task, now);
      assert Listed(x, h, owner, task);
    }
  }

  /**
   Whenever a user has such a job, the latest job found for the user is one of them, none
   of them was recorded later, and its meta can be read.
   */
  lemma LatestIsNewest(t0: real, h: seq<Event>, ttl: real, now: real, user: UserId, k: TaskId, j: TaskId)
    requires Regular(t0, h, ttl) && Replay(t0, h).clock <= now
    requires IsLatest(LiveSet(Replay(t0, h).(clock := now), user), k)
    requires ActiveAt(h, user, j, now)
    ensures ActiveAt(h, user, k, now)
    ensures LastEvent(h, j).value.at <= LastEvent(h, k).value.at
    ensures LiveMeta(Replay(t0, h).(clock := now), k) == Some(LastEvent(h, k).value.meta)
  {
    ReplayMirrors(t0, h, ttl);
    LaterMirrors(Replay(t0, h), h, ttl, now);
    var x := Replay(t0, h).(clock := now);
    hide Replay, LastEvent;
    assert Listed(x, h, user, j);
    assert ListedRightly(x, h, user, k);
    assert MetaMirrors(x, h, k);
    LastEventFacts(h, j);
    LastEventFacts(h, k);
  }

  /** And then something is found. */
  lemma LatestIsFound(t0: real, h: seq<Event>, ttl: real, now: real, user: UserId, j: TaskId)
    returns (k: TaskId)
    requires Regular(t0, h, ttl) && Replay(t0, h).clock <= now
    requires ActiveAt(h, user, j, now)
    ensures IsLatest(LiveSet(Replay(t0, h).(clock := now), user), k)
  {
    ReplayMirrors(t0, h, ttl);
    LaterMirrors(Replay(t0, h), h, ttl, now);
    hide Replay, LastEvent;
    assert Listed(Replay(t0, h).(clock := now), h, user, j);
    k := LatestExists(LiveSet(Replay(t0, h).(clock := now), user));
  }

  // ---------------------------------------------------------------- different lifetimes

  /** Every readable job is listed for its owner, in a set that lasts as long as the job. */
  ghost predicate Sound(x: Index) {
    forall task | LiveMeta(x, task).Some? :: SoundFor(x, task)
  }

  ghost predicate SoundFor(x: Index, task: TaskId)
    requires LiveMeta(x, task).Some?
  {
    var owner := x.metas[task].meta.owner;
    && owner in x.active && x.metas[task].expiresAt <= x.active[owner].expiresAt
    && task in x.active[owner].scores
  }

  /** No other readable job of the user outlasts the one about to be recorded. */
  ghost predicate OutlastsAll(x: Index, task: TaskId, owner: UserId, until: real) {
    forall other | LiveMeta(x, other).Some? && other != task && x.metas[other].meta.owner == owner ::
      x.metas[other].expiresAt <= until
  }

  /**
   Guilds may keep archives for different times, and then the index can lose a job: the new
   EXPIRE also shortens the set. Recording keeps every readable job listed if and only if
   the new lifetime ends no earlier than those of the user's other jobs.
   */
  lemma RecordKeepsSoundIff(x: Index, task: TaskId, meta: JobMeta, ttl: real)
    requires Sound(x) && ttl > 0.0
    requires LiveMeta(x, task).Some? ==> x.metas[task].meta.owner == meta.owner
    ensures Sound(Record(x, task, meta, ttl)) <==> OutlastsAll(x, task, meta.owner, x.clock + ttl)
  {
    var x' := Record(x, task, meta, ttl);
    if OutlastsAll(x, task, meta.owner, x.clock + ttl) {
      forall t | LiveMeta(x', t).Some? ensures SoundFor(x', t) {
        if t != task {
          assert LiveMeta(x, t).Some? && SoundFor(x, t);
        }
      }
    }
    if Sound(x') {
      forall other | LiveMeta(x, other).Some? && other != task && x.metas[other].meta.owner == meta.owner
        ensures x.metas[other].expiresAt <= x.clock + ttl
      {
        assert LiveMeta(x', other).Some? && SoundFor(x', other);
      }
    }
  }

  /** Time and forgetting never hide a readable job. */
  lemma TimeAndForgetKeepSound(x: Index, now: real, task: TaskId, owner: UserId)
    requires Sound(x) && x.clock <= now
    ensures Sound(x.(clock := now)) && Sound(Forget(x, task, owner))
  {
    var later := x.(clock := now);
    forall t | LiveMeta(later, t).Some? ensures SoundFor(later, t) {
      assert LiveMeta(x, t).Some? && SoundFor(x, t);
    }
    var less := Forget(x, task, owner);
    forall t | LiveMeta(less, t).Some? ensures SoundFor(less, t) {
      assert LiveMeta(x, t).Some? && SoundFor(x, t);
    }
  }

  /** One nondecreasing clock and one owner for each task id, with any lifetimes. */
  ghost predicate Orderly(t0: real, h: seq<Event>) {
    && (forall i | 0 <= i < |h| :: t0 <= h[i].at && (h[i].Recorded? ==> h[i].ttl > 0.0))
    && (forall i, j | 0 <= i < j < |h| :: h[i].at <= h[j].at)
    && (forall i, j | 0 <= i < j < |h| && h[i].task == h[j].task :: Owner(h[i]) == Owner(h[j]))
  }

  /** If call k records a job, it ends no earlier than the user's other readable jobs at that time. */
  ghost predicate OutlastsAt(t0: real, h: seq<Event>, k: nat)
    requires k < |h|
  {
    h[k].Recorded? ==>
      OutlastsAll(Replay(t0, h[..k]).(clock := h[k].at), h[k].task, h[k].meta.owner, h[k].at + h[k].ttl)
  }

  /** What is stored about a task was written for the owner of its calls. */
  lemma {:induction false} StoredOwner(t0: real, h: seq<Event>, task: TaskId)
    requires Orderly(t0, h) && task in Replay(t0, h).metas
    ensures exists i :: 0 <= i < |h| && h[i].task == task && Owner(h[i]) == Replay(t0, h).metas[task].meta.owner
  {
    var n := |h| - 1;
    if h[n].task == task {
      assert Owner(h[n]) == Replay(t0, h).metas[task].meta.owner;
    } else {
      StoredOwner(t0, h[..n], task);
      var i :| 0 <= i < n && h[..n][i].task == task && Owner(h[..n][i]) == Replay(t0, h[..n]).metas[task].meta.owner;
      assert h[i] == h[..n][i];
    }
  }

  lemma ReplayClock(t0: real, h: seq<Event>)
    ensures Replay(t0, h).clock == if h == [] then t0 else h[|h| - 1].at
  {
  }

  /** One more call after a history that hid nothing. */
  lemma SoundAfterIff(t0: real, h: seq<Event>, k: nat)
    requires Orderly(t0, h) && k < |h| && Sound(Replay(t0, h[..k]))
    ensures Sound(Replay(t0, h[..k + 1])) <==> OutlastsAt(t0, h, k)
  {
    var e := h[k];
    var before := Replay(t0, h[..k]);
    var x := before.(clock := e.at);
    assert h[..k + 1][..k] == h[..k] && h[..k + 1][k] == e;
    ReplayClock(t0, h[..k]);
    assert k > 0 ==> h[..k][k - 1] == h[k - 1];
    TimeAndForgetKeepSound(before, e.at, e.task, 0);
    if e.Recorded? {
      if e.task in before.metas {
        StoredOwner(t0, h[..k], e.task);
      }
      RecordKeepsSoundIff(x, e.task, e.meta, e.ttl);
    } else {
      TimeAndForgetKeepSound(x, e.at, e.task, e.owner);
    }
  }

  /**
   Over whole histories, with any lifetimes: no readable job is ever hidden if and only if
   every job recorded ends no earlier than its user's other readable jobs.
   */
  lemma {:induction false} NeverHiddenIff(t0: real, h: seq<Event>, n: nat)
    requires Orderly(t0, h) && n <= |h|
    ensures (forall k: nat | k <= n :: Sound(Replay(t0, h[..k]))) <==> (forall k: nat | k < n :: OutlastsAt(t0, h, k))
    decreases n
  {
    hide Replay, Sound, OutlastsAt, Orderly;
    if n == 0 {
      NothingHidden(t0);
      assert h[..0] == [];
    } else {
      NeverHiddenIff(t0, h, n - 1);
      if forall k: nat | k < n :: Sound(Replay(t0, h[..k])) {
        SoundAfterIff(t0, h, n - 1);
      }
    }
  }

  lemma NothingHidden(t0: real)
    ensures Sound(Replay(t0, []))
  {
  }

  /** A day-long job, then an hour-long one: two hours later the first is readable but not listed. */
  lemma ShorterLifetimeHidesJob()
    ensures
      var day := JobMeta(7, Some(1), 10, true);
      var hour := JobMeta(7, Some(2), 20, true);
      var x := Record(Record(Index(0.0, map[], map[]), 1, day, 86400.0), 2, hour, 3600.0).(clock := 7200.0);
      LiveMeta(x, 1) == Some(day) && LiveSet(x, 7) == map[]
  {
  }

  // ---------------------------------------------------------------- the module's four calls

  class Redis {
    var clock: real
    var metas: map<TaskId, MetaKey>
    var active: map<UserId, ActiveKey>
    ghost var t0: real
    ghost var history: seq<Event>

    ghost function View(): Index
      reads this
    {
      Index(clock, metas, active)
    }

    ghost predicate Valid()
      reads this
    {
      && Replay(t0, history).clock <= clock
      && View() == Replay(t0, history).(clock := clock)
    }

    constructor (now: real)
      ensures Valid() && history == [] && clock == now
    {
      clock, metas, active := now, map[], map[];
      t0, history := now, [];
    }

    method Pass(seconds: real)
      requires Valid() && seconds >= 0.0
      modifies this`clock
      ensures Valid() && clock == old(clock) + seconds
    {
      clock := clock + seconds;
    }

    method RecordJob(task: TaskId, meta: JobMeta, ttl: real)
      requires Valid()
      modifies this
      ensures Valid() && View() == Record(old(View()), task, meta, ttl)
      ensures t0 == old(t0) && history == old(history) + [Recorded(task, meta, clock, ttl)]
    {
      var scores := if meta.owner in active && clock < active[meta.owner].expiresAt
                    then active[meta.owner].scores else map[];
      metas := metas[task := MetaKey(meta, clock + ttl)];
      active := active[meta.owner := ActiveKey(scores[task := clock], clock + ttl)];
      history := history + [Recorded(task, meta, clock, ttl)];
      assert history[..|history| - 1] == old(history);
    }

    method ForgetJob(task: TaskId, owner: UserId)
      requires Valid()
      modifies this
      ensures Valid() && View() == Forget(old(View()), task, owner)
      ensures t0 == old(t0) && history == old(history) + [Forgotten(task, owner, clock)]
    {
      metas := metas - {task};
      if owner in active {
        active := active[owner := active[owner].(scores := active[owner].scores - {task})];
      }
      history := history + [Forgotten(task, owner, clock)];
      assert history[..|history| - 1] == old(history);
    }

    method GetJobMeta(task: TaskId) returns (meta: Option<JobMeta>)
      requires Valid()
      ensures meta == LiveMeta(View(), task)
      ensures forall ttl | Regular(t0, history, ttl) ::
                meta.Some? <==> exists user :: ActiveAt(history, user, task, clock)
    {
      meta := if task in metas && clock < metas[task].expiresAt then Some(metas[task].meta) else None;
      forall ttl | Regular(t0, history, ttl)
        ensures meta.Some? <==> exists user :: ActiveAt(history, user, task, clock)
      {
        LiveMetaIsListed(t0, history, ttl, clock, task);
      }
    }

    /** The id with the highest score; by LatestIsNewest it is the newest active job if there is any. */
    method LatestJobForUser(user: UserId) returns (task: Option<TaskId>)
      requires Valid()
      ensures task.None? ==> LiveSet(View(), user) == map[]
      ensures task.Some? ==> IsLatest(LiveSet(View(), user), task.value)
      ensures forall ttl, j | Regular(t0, history, ttl) && ActiveAt(history, user, j, clock) ::
                && task.Some? && ActiveAt(history, user, task.value, clock)
                && LastEvent(history, j).value.at <= LastEvent(history, task.value).value.at
    {
      var scores := if user in active && clock < active[user].expiresAt then active[user].scores else map[];
      if scores == map[] {
        task := None;
      } else {
        ghost var best := LatestExists(scores);
        assert IsLatest(scores, best);
        var k :| k in scores && IsLatest(scores, k);
        task := Some(k);
      }
      forall ttl, j | Regular(t0, history, ttl) && ActiveAt(history, user, j, clock)
        ensures task.Some? && ActiveAt(history, user, task.value, clock)
        ensures LastEvent(history, j).value.at <= LastEvent(history, task.value).value.at
      {
        var k := LatestIsFound(t0, history, ttl, clock, user, j);
        LatestIsNewest(t0, history, ttl, clock, user, task.value, j);
      }
    }
  }
}
