/**
 Any number of clients running `acquire` and `refund` on one bucket, interleaved at the
 grain of their Redis calls: WATCH, HMGET, read the clock, EXEC.
 */
module RateMachine {
  import opened Options
  import opened TokenBucket
  import opened RateStore
  import Schedules

  datatype Op = Acquire | Refund

  /** How a call returned: with an entry of the log, or through UNWATCH. */
  datatype Outcome =
    | Answered(index: nat, verdict: Verdict)
    | Credited(index: nat)
    | BackedOut

  /** `read` is the length of the log at HMGET: what the statements need, not what the client knows. */
  datatype Pc =
    | Calling
    | Watched(ver: nat)
    | Loaded(ver: nat, snap: Option<Bucket>, read: nat)
    | Timed(ver: nat, snap: Option<Bucket>, now: real)
    | Returned(outcome: Outcome)
  {
    /** Calls made to Redis, or to the clock, in the current pass of the loop. */
    function Progress(): nat {
      match this
      case Calling => 0
      case Watched(_) => 1
      case Loaded(_, _, _) => 2
      case Timed(_, _, _) => 3
      case Returned(_) => 4
    }

    /** The client holds a WATCH taken at another version than the given one. */
    predicate Outdated(version: nat) {
      match this
      case Watched(ver) => ver != version
      case Loaded(ver, _, _) => ver != version
      case Timed(ver, _, _) => ver != version
      case _ => false
    }
  }

  /** `since` and `from` are the clock and the length of the log when the call was made. */
  datatype Client = Client(op: Op, pc: Pc, steps: nat, restarts: nat, since: real, from: nat)

  /** `restarts` counts WatchErrors over all clients, `touches` the evictions that watchers notice. */
  datatype Sys = Sys(store: Store, clients: map<nat, Client>, restarts: nat, touches: nat)

  datatype Action =
    | Tick(to: real)
    | Evict(touch: bool)
    | Call(id: nat, op: Op)
    | Watch(id: nat)
    | Load(id: nat)
    | ReadClock(id: nat)
    | Exec(id: nat)

  function Init(t0: real): Sys {
    Sys(Store(t0, None, t0, 0, []), map[], 0, 0)
  }

  /** A call made at the current moment, some undisturbed steps later. */
  function CalledNow(s: Sys, op: Op, pc: Pc, steps: nat): Client {
    Client(op, pc, steps, 0, s.store.clock, |s.store.log|)
  }

  predicate Enabled(s: Sys, a: Action) {
    match a
    case Tick(to) => s.store.clock <= to
    case Evict(_) => s.store.key.Some? && s.store.expiresAt <= s.store.clock
    case Call(id, _) => id !in s.clients
    case Watch(id) => id in s.clients && s.clients[id].pc.Calling?
    case Load(id) => id in s.clients && s.clients[id].pc.Watched?
    case ReadClock(id) => id in s.clients && s.clients[id].pc.Loaded?
    case Exec(id) => id in s.clients && s.clients[id].pc.Timed?
  }

  function Moved(s: Sys, id: nat, pc: Pc): Sys
    requires id in s.clients
  {
    var k := s.clients[id];
    s.(clients := s.clients[id := k.(pc := pc, steps := k.steps + 1)])
  }

  function Next(c: Config, s: Sys, a: Action): Sys
    requires c.Valid() && Enabled(s, a)
  {
    match a
    case Tick(to) => s.(store := Ticked(s.store, to))
    case Evict(touch) =>
      s.(store := Evicted(s.store, touch), touches := if touch then s.touches + 1 else s.touches)
    case Call(id, op) => s.(clients := s.clients[id := CalledNow(s, op, Calling, 0)])
    case Watch(id) => Moved(s, id, Watched(s.store.version))
    case Load(id) =>
      var k := s.clients[id];
      if k.op == Refund && s.store.key.None? then Moved(s, id, Returned(BackedOut))
      else Moved(s, id, Loaded(k.pc.ver, s.store.key, |s.store.log|))
    case ReadClock(id) =>
      var k := s.clients[id];
      var now := s.store.clock;
      if k.op == Refund && RefundFrom(c, k.pc.snap, now).None? then Moved(s, id, Returned(BackedOut))
      else Moved(s, id, Timed(k.pc.ver, k.pc.snap, now))
    case Exec(id) => Execute(c, s, id)
  }

  /** EXEC: commit if nobody touched the key since WATCH, else start over. */
  function Execute(c: Config, s: Sys, id: nat): Sys
    requires c.Valid() && id in s.clients && s.clients[id].pc.Timed?
  {
    var k := s.clients[id];
    var n := |s.store.log|;
    if k.pc.ver != s.store.version then
      var back := Moved(s, id, Calling);
      back.(restarts := s.restarts + 1,
            clients := back.clients[id := back.clients[id].(restarts := k.restarts + 1)])
    else if k.op == Acquire then
      var (b, verdict) := AcquireFrom(c, k.pc.snap, k.pc.now);
      Moved(s, id, Returned(Answered(n, verdict)))
        .(store := Write(c, s.store, b, Acquired(id, k.pc.now, verdict)))
    else
      match RefundFrom(c, k.pc.snap, k.pc.now)
      case None => Moved(s, id, Returned(BackedOut))
      case Some(b) =>
        Moved(s, id, Returned(Credited(n))).(store := Write(c, s.store, b, Refunded(id, k.pc.now)))
  }

  /** The state after a schedule, or None if some action was not enabled. */
  function Step(c: Config): (Sys, Action) -> Option<Sys>
    requires c.Valid()
  {
    (s: Sys, a: Action) => if Enabled(s, a) then Some(Next(c, s, a)) else None
  }

  /** The state after a schedule, or None if some action was not enabled. */
  function Run(c: Config, s: Sys, acts: seq<Action>): Option<Sys>
    requires c.Valid()
  {
    Schedules.Run(Step(c), s, acts)
  }

  // ---------------------------------------------------------------- the invariant of every run

  ghost predicate ClientInv(c: Config, st: Store, id: nat, k: Client)
    requires c.Valid()
  {
    && k.steps <= 4 * k.restarts + k.pc.Progress()
    && k.since <= st.clock && k.from <= |st.log|
    && match k.pc
       case Calling => true
       case Watched(ver) => ver <= st.version
       case Loaded(ver, snap, read) =>
         && ver <= st.version
         && (ver == st.version ==> SnapshotOk(c, st.log, snap, st.clock))
         && read <= |st.log| && SnapshotOk(c, st.log[..read], snap, st.clock)
       case Timed(ver, snap, now) =>
         && ver <= st.version
         && (ver == st.version ==> Fresh(c, st, snap, now))
         && k.since <= now
         && (k.op == Refund ==> RefundFrom(c, snap, now).Some?)
       case Returned(Answered(i, verdict)) =>
         && k.from <= i < |st.log| && k.since <= st.log[i].now
         && st.log[i].Acquired? && st.log[i].who == id && st.log[i].verdict == verdict
       case Returned(Credited(i)) =>
         && k.from <= i < |st.log| && k.since <= st.log[i].now
         && st.log[i].Refunded? && st.log[i].who == id
       case Returned(BackedOut) => k.op == Refund
  }

  ghost predicate Inv(c: Config, s: Sys)
    requires c.Valid()
  {
    && StoreInv(c, s.store)
    && (forall id | id in s.clients :: ClientInv(c, s.store, id, s.clients[id]))
    && EntriesOwned(s)
    && TotalInv(s)
    && CountInv(s)
  }

  /** The entry of the log that a returned call made. */
  function EntryOf(pc: Pc): Option<nat> {
    match pc
    case Returned(Answered(i, _)) => Some(i)
    case Returned(Credited(i)) => Some(i)
    case _ => None
  }

  /** Each entry of the log is that of the call it names, which has returned with it. */
  ghost predicate EntriesOwned(s: Sys) {
    forall i | 0 <= i < |s.store.log| ::
      s.store.log[i].who in s.clients && EntryOf(s.clients[s.store.log[i].who].pc) == Some(i)
  }

  lemma OwnedStep(c: Config, s: Sys, a: Action)
    requires c.Valid() && EntriesOwned(s) && Enabled(s, a)
    ensures EntriesOwned(Next(c, s, a))
  {
    hide AcquireFrom, RefundFrom, Config.TtlSeconds;
  }

  /** A client that does not move keeps its part of the invariant whatever the others commit. */
  lemma OthersKeep(c: Config, st: Store, st': Store, id: nat, k: Client)
    requires c.Valid() && ClientInv(c, st, id, k)
    requires st.clock <= st'.clock && st.version <= st'.version && st.log <= st'.log
    requires st.version == st'.version ==> st.log == st'.log
    ensures ClientInv(c, st', id, k)
  {
    hide Ideal, Level, Config.TtlSeconds;
    if k.pc.Loaded? {
      assert st'.log[..k.pc.read] == st.log[..k.pc.read];
    }
  }

  lemma StoreStep(c: Config, s: Sys, a: Action)
    requires c.Valid() && Inv(c, s) && Enabled(s, a)
    ensures StoreInv(c, Next(c, s, a).store)
  {
    hide Ideal, Level, Served, Ordered, CountInv, EntriesOwned, TotalInv, TimeToEarn, Config.TtlSeconds;
    match a
    case Tick(to) => PassiveSteps(c, s.store, to, false);
    case Evict(touch) => PassiveSteps(c, s.store, s.store.clock, touch);
    case Exec(id) =>
      var k := s.clients[id];
      assert ClientInv(c, s.store, id, k);
      if k.pc.ver == s.store.version {
        if k.op == Acquire {
          AcquireCommit(c, s.store, k.pc.snap, k.pc.now, id);
        } else {
          RefundCommit(c, s.store, k.pc.snap, k.pc.now, id);
        }
      }
    case _ =>
  }

  /** The moving client's own part of the invariant. */
  lemma OwnStep(c: Config, s: Sys, a: Action)
    requires c.Valid() && Inv(c, s) && Enabled(s, a)
    requires a.Call? || a.Watch? || a.Load? || a.ReadClock? || a.Exec?
    ensures ClientInv(c, Next(c, s, a).store, a.id, Next(c, s, a).clients[a.id])
  {
    hide Ideal, Level, Served, Ordered, CountInv, EntriesOwned, TotalInv, TimeToEarn, Config.TtlSeconds;
    if !a.Call? {
      assert ClientInv(c, s.store, a.id, s.clients[a.id]);
    }
    assert s.store.log[..|s.store.log|] == s.store.log;
  }

  lemma StoreMoves(c: Config, s: Sys, a: Action)
    requires c.Valid() && Inv(c, s) && Enabled(s, a)
    ensures
      var (st, st') := (s.store, Next(c, s, a).store);
      && st.clock <= st'.clock && st.version <= st'.version && st.log <= st'.log
      && (st.version == st'.version ==> st.log == st'.log)
  {
    hide Ideal, Level, Served, Ordered, CountInv, EntriesOwned, TotalInv, TimeToEarn, Config.TtlSeconds;
  }

  lemma NextKeepsInv(c: Config, s: Sys, a: Action)
    requires c.Valid() && Inv(c, s) && Enabled(s, a)
    ensures Inv(c, Next(c, s, a))
  {
    var s' := Next(c, s, a);
    StoreStep(c, s, a);
    CountStep(c, s, a);
    OwnedStep(c, s, a);
    TotalStep(c, s, a);
    StoreMoves(c, s, a);
    forall id | id in s'.clients ensures ClientInv(c, s'.store, id, s'.clients[id]) {
      hide Ideal, Level, Served, Ordered, CountInv, EntriesOwned, TotalInv, StoreInv, ClientInv, TimeToEarn, AcquireFrom, RefundFrom;
      if (a.Call? || a.Watch? || a.Load? || a.ReadClock? || a.Exec?) && a.id == id {
        OwnStep(c, s, a);
      } else {
        assert s'.clients[id] == s.clients[id];
        OthersKeep(c, s.store, s'.store, id, s.clients[id]);
      }
    }
  }

  lemma RunKeepsInv(c: Config, s: Sys, acts: seq<Action>)
    requires c.Valid() && Inv(c, s) && Run(c, s, acts).Some?
    ensures Inv(c, Run(c, s, acts).value)
  {
    forall x, a | Inv(c, x) && Step(c)(x, a).Some? ensures Inv(c, Step(c)(x, a).value) {
      NextKeepsInv(c, x, a);
    }
    hide Inv, Next, Enabled;
    Schedules.Keeps(Step(c), (x: Sys) => Inv(c, x), s, acts);
  }

  // ---------------------------------------------------------------- totals over all calls

  function RestartsOf(k: Client): nat {
    k.restarts
  }

  function StepsOf(k: Client): nat {
    k.steps
  }

  ghost function Total(m: map<nat, Client>, f: Client -> nat): nat {
    if m == map[] then 0
    else
      var id :| id in m;
      f(m[id]) + Total(m - {id}, f)
  }

  lemma Without(m: map<nat, Client>, a: nat, b: nat)
    ensures m - {a} - {b} == m - {b} - {a}
  {
  }

  /** The order of the sum does not matter. */
  lemma {:induction false} TotalPick(m: map<nat, Client>, f: Client -> nat, id: nat)
    requires id in m
    ensures Total(m, f) == f(m[id]) + Total(m - {id}, f)
    decreases |m|
  {
    var j :| j in m && Total(m, f) == f(m[j]) + Total(m - {j}, f);
    if j != id {
      Smaller(m, j);
      TotalPick(m - {j}, f, id);
      Smaller(m, id);
      TotalPick(m - {id}, f, j);
      Without(m, id, j);
    }
  }

  lemma Smaller(m: map<nat, Client>, id: nat)
    requires id in m
    ensures |m - {id}| == |m| - 1
  {
    assert (m - {id}).Keys == m.Keys - {id};
    assert |m - {id}| == |(m - {id}).Keys|;
  }

  lemma TotalPut(m: map<nat, Client>, f: Client -> nat, id: nat, k: Client)
    ensures Total(m[id := k], f) == f(k) + Total(m - {id}, f)
    ensures id !in m ==> m - {id} == m
  {
    TotalPick(m[id := k], f, id);
    assert m[id := k] - {id} == m - {id};
  }

  lemma {:induction false} TotalSteps(m: map<nat, Client>)
    requires forall id | id in m :: m[id].steps <= 4 * (m[id].restarts + 1)
    ensures Total(m, StepsOf) <= 4 * (Total(m, RestartsOf) + |m|)
    decreases |m|
  {
    if m != map[] {
      var id :| id in m;
      Smaller(m, id);
      TotalSteps(m - {id});
      TotalPick(m, StepsOf, id);
      TotalPick(m, RestartsOf, id);
    }
  }

  /** The counter of WatchErrors is the sum of what the calls met. */
  ghost predicate TotalInv(s: Sys) {
    Total(s.clients, RestartsOf) == s.restarts
  }

  lemma TotalStep(c: Config, s: Sys, a: Action)
    requires c.Valid() && TotalInv(s) && Enabled(s, a)
    ensures TotalInv(Next(c, s, a))
  {
    hide Total, AcquireFrom, RefundFrom, Config.TtlSeconds, Write, Evicted;
    var s' := Next(c, s, a);
    if a.Call? || a.Watch? || a.Load? || a.ReadClock? || a.Exec? {
      assert s'.clients == s.clients[a.id := s'.clients[a.id]];
      TotalPut(s.clients, RestartsOf, a.id, s'.clients[a.id]);
      if !a.Call? {
        TotalPick(s.clients, RestartsOf, a.id);
      }
    }
  }

  // ---------------------------------------------------------------- counting restarts

  ghost function Live(s: Sys): set<nat> {
    set id | id in s.clients && !s.clients[id].pc.Returned?
  }

  ghost function Stale(s: Sys): set<nat> {
    set id | id in s.clients && s.clients[id].pc.Outdated(s.store.version)
  }

  /** The sum l + (l+1) + ... + (n-1): what n calls can be charged once only l are left. */
  function Charged(n: nat, l: nat): nat
    decreases n - l
  {
    if n <= l then 0 else l + Charged(n, l + 1)
  }

  lemma {:induction false} ChargedTotal(n: nat, l: nat)
    requires l <= n
    ensures 2 * Charged(n, l) == n * (n - 1) - l * (l - 1)
    decreases n - l
  {
    if l < n {
      ChargedTotal(n, l + 1);
    }
  }

  lemma {:induction false} ChargedMore(n: nat, l: nat)
    requires l <= n
    ensures Charged(n + 1, l + 1) == Charged(n, l) + n - l
    decreases n - l
  {
    if l < n {
      ChargedMore(n, l + 1);
    }
  }

  /** What noticed evictions may cost: one restart for each call, each time. */
  function Tolerated(n: nat, touches: nat): nat {
    n * touches
  }

  lemma ToleratedGrows(n: nat, touches: nat)
    ensures Tolerated(n + 1, touches) == Tolerated(n, touches) + touches
    ensures Tolerated(n, touches + 1) == Tolerated(n, touches) + n
  {
  }

  /** Every WatchError so far, and every one already due, is charged to a commit or to an eviction. */
  ghost predicate CountInv(s: Sys) {
    && |Live(s)| <= |s.clients|
    && s.restarts + |Stale(s)| <= Charged(|s.clients|, |Live(s)|) + Tolerated(|s.clients|, s.touches)
  }

  lemma SubsetSize(a: set<nat>, b: set<nat>)
    requires a <= b
    ensures |a| <= |b|
  {
    if a != {} {
      var x :| x in a;
      SubsetSize(a - {x}, b - {x});
    }
  }

  /** The call at `id` ends without a write, or moves on with the same WATCH. */
  lemma CountQuiet(s: Sys, s': Sys, id: nat)
    requires CountInv(s) && id in s.clients && id in Live(s)
    requires s'.clients.Keys == s.clients.Keys && s'.restarts == s.restarts && s'.touches == s.touches
    requires s'.store.version == s.store.version
    requires forall j | j in s.clients && j != id :: s'.clients[j] == s.clients[j]
    requires s'.clients[id].pc.Outdated(s.store.version) ==> s.clients[id].pc.Outdated(s.store.version)
    ensures CountInv(s')
  {
    hide Tolerated;
    SubsetSize(Stale(s'), Stale(s));
    assert |s'.clients| == |s'.clients.Keys| == |s.clients.Keys| == |s.clients|;
    if s'.clients[id].pc.Returned? {
      assert Live(s') == Live(s) - {id};
    } else {
      assert Live(s') == Live(s);
    }
  }

  /** A commit by `id`: at most all other unfinished calls become outdated. */
  lemma CountCommit(s: Sys, s': Sys, id: nat)
    requires CountInv(s) && id in s.clients && id in Live(s)
    requires s'.clients.Keys == s.clients.Keys && s'.restarts == s.restarts && s'.touches == s.touches
    requires forall j | j in s.clients && j != id :: s'.clients[j] == s.clients[j]
    requires s'.clients[id].pc.Returned?
    ensures CountInv(s')
  {
    hide Tolerated;
    assert Live(s') == Live(s) - {id};
    SubsetSize(Stale(s'), Live(s'));
    assert |s'.clients| == |s'.clients.Keys| == |s.clients.Keys| == |s.clients|;
  }

  /** A WatchError at `id` uses up one that was due. */
  lemma CountRestart(s: Sys, s': Sys, id: nat)
    requires CountInv(s) && id in s.clients && id in Stale(s) && id in Live(s)
    requires s'.clients.Keys == s.clients.Keys && s'.restarts == s.restarts + 1 && s'.touches == s.touches
    requires s'.store.version == s.store.version
    requires forall j | j in s.clients && j != id :: s'.clients[j] == s.clients[j]
    requires s'.clients[id].pc.Calling?
    ensures CountInv(s')
  {
    hide Tolerated, Charged;
    assert Live(s') == Live(s);
    assert Stale(s') == Stale(s) - {id};
    assert |s'.clients| == |s'.clients.Keys| == |s.clients.Keys| == |s.clients|;
  }

  lemma OneMoreKey(a: map<nat, Client>, id: nat, k: Client)
    requires id !in a
    ensures |a[id := k]| == |a| + 1
  {
  }

  lemma OneMoreLive(s: Sys, id: nat, k: Client)
    requires id !in s.clients && k.pc.Calling?
    ensures Live(s.(clients := s.clients[id := k])) == Live(s) + {id} && id !in Live(s)
    ensures Stale(s.(clients := s.clients[id := k])) == Stale(s)
  {
  }

  lemma CountCall(s: Sys, id: nat, k: Client)
    requires CountInv(s) && id !in s.clients && k.pc.Calling?
    ensures CountInv(s.(clients := s.clients[id := k]))
  {
    hide Tolerated, Charged, Live, Stale;
    OneMoreLive(s, id, k);
    OneMoreKey(s.clients, id, k);
    ChargedMore(|s.clients|, |Live(s)|);
    ToleratedGrows(|s.clients|, s.touches);
  }

  lemma CountEvict(s: Sys, touch: bool)
    requires CountInv(s)
    ensures CountInv(s.(store := Evicted(s.store, touch), touches := if touch then s.touches + 1 else s.touches))
  {
    hide Tolerated, Charged;
    var s' := s.(store := Evicted(s.store, touch), touches := if touch then s.touches + 1 else s.touches);
    assert Live(s') == Live(s);
    if touch {
      SubsetSize(Stale(s'), Live(s'));
      ToleratedGrows(|s.clients|, s.touches);
    } else {
      assert Stale(s') == Stale(s);
    }
  }

  lemma CountStep(c: Config, s: Sys, a: Action)
    requires c.Valid() && Inv(c, s) && Enabled(s, a)
    ensures CountInv(Next(c, s, a))
  {
    hide Ideal, Level, Served, Ordered, StoreInv, AcquireFrom, RefundFrom, Charged, Tolerated, ClientInv;
    var s' := Next(c, s, a);
    match a
    case Tick(to) =>
      assert Live(s') == Live(s) && Stale(s') == Stale(s);
    case Evict(touch) => CountEvict(s, touch);
    case Call(id, op) => CountCall(s, id, CalledNow(s, op, Calling, 0));
    case Watch(id) => CountQuiet(s, s', id);
    case Load(id) => CountQuiet(s, s', id);
    case ReadClock(id) => CountQuiet(s, s', id);
    case Exec(id) =>
      if s.clients[id].pc.ver != s.store.version {
        CountRestart(s, s', id);
      } else {
        CountCommit(s, s', id);
      }
  }

  // ---------------------------------------------------------------- the theorems

  lemma InitInv(c: Config, t0: real)
    requires c.Valid()
    ensures Inv(c, Init(t0))
  {
  }

  /**
   Every run of any number of clients is a one-at-a-time run of the bucket that never
   expires, in commit order: each committed verdict is the one that bucket gives, the
   stored hash is that bucket's, the committed clock values never decrease, what a client
   returns is its own entry of the log, and every entry is that of exactly one returned call.
   The entry lies after everything committed before the call was made, with a later clock
   value, and as a call returns in the step that commits, this order respects real time.
   */
  lemma Linearizable(c: Config, t0: real, acts: seq<Action>)
    requires c.Valid() && Run(c, Init(t0), acts).Some?
    ensures
      var s := Run(c, Init(t0), acts).value;
      && Served(c, s.store.log) && Ordered(s.store.log)
      && (s.store.key.Some? ==> s.store.key == Ideal(c, s.store.log))
      && (forall id | id in s.clients && s.clients[id].pc.Returned? ::
            match s.clients[id].pc.outcome
            case Answered(i, verdict) =>
              s.clients[id].from <= i < |s.store.log| && s.clients[id].since <= s.store.log[i].now
              && s.store.log[i].Acquired?
              && s.store.log[i].who == id && s.store.log[i].verdict == verdict
            case Credited(i) =>
              s.clients[id].from <= i < |s.store.log| && s.clients[id].since <= s.store.log[i].now
              && s.store.log[i].Refunded? && s.store.log[i].who == id
            case BackedOut => s.clients[id].op == Refund)
      && (forall i | 0 <= i < |s.store.log| ::
            s.store.log[i].who in s.clients && EntryOf(s.clients[s.store.log[i].who].pc) == Some(i))
  {
    InitInv(c, t0);
    RunKeepsInv(c, Init(t0), acts);
    var s := Run(c, Init(t0), acts).value;
    hide Schedules.Run, Ideal, Served, Ordered, CountInv, TotalInv;
    forall id | id in s.clients && s.clients[id].pc.Returned?
      ensures ClientInv(c, s.store, id, s.clients[id])
    {
    }
  }

  /** What every run leaves in the store. */
  lemma ReachedStore(c: Config, t0: real, acts: seq<Action>)
    requires c.Valid() && Run(c, Init(t0), acts).Some?
    ensures StoreInv(c, Run(c, Init(t0), acts).value.store)
  {
    InitInv(c, t0);
    RunKeepsInv(c, Init(t0), acts);
    hide Schedules.Run, StoreInv, EntriesOwned, TotalInv, CountInv, ClientInv;
  }

  /** Stored tokens lie within bounds, and a stretch of commits respects the rate. */
  ghost predicate Limited(c: Config, st: Store, i: nat, j: nat)
    requires c.Valid() && i < j <= |st.log|
  {
    && (st.key.Some? ==> 0.0 <= st.key.value.tokens <= c.capacity as real)
    && WithinRate(c, Allowed(st.log[i..j]), Refunds(st.log[i..j]), st.log[j - 1].now - st.log[i].now)
  }

  lemma StoreLimited(c: Config, st: Store, i: nat, j: nat)
    requires c.Valid() && StoreInv(c, st) && i < j <= |st.log|
    ensures Limited(c, st, i, j)
  {
    IdealBounds(c, st.log);
    RateBound(c, st.log, i, j);
    hide WithinRate, Ideal, Served, Ordered, Allowed, Refunds, Earned, IdleAt;
  }

  /**
   In every run, the stored tokens lie between zero and the capacity, and in every stretch of
   commits the requests allowed are at most the capacity, the refunds in it, and
   `refill_per_hour` for each hour that it lasts.
   */
  lemma RateLimited(c: Config, t0: real, acts: seq<Action>, i: nat, j: nat)
    requires c.Valid() && Run(c, Init(t0), acts).Some?
    requires i < j <= |Run(c, Init(t0), acts).value.store.log|
    ensures Limited(c, Run(c, Init(t0), acts).value.store, i, j)
  {
    ReachedStore(c, t0, acts);
    hide Schedules.Run, StoreInv, Limited;
    StoreLimited(c, Run(c, Init(t0), acts).value.store, i, j);
  }

  /** In every run, a denial's wait is exact: polling in between changes nothing. */
  lemma WaitIsExact(c: Config, t0: real, acts: seq<Action>, i: nat, j: nat)
    requires c.Valid() && Run(c, Init(t0), acts).Some?
    requires i < j < |Run(c, Init(t0), acts).value.store.log|
    requires DeniedBetween(Run(c, Init(t0), acts).value.store.log, i, j)
    requires Run(c, Init(t0), acts).value.store.log[j].Acquired?
    ensures
      var log := Run(c, Init(t0), acts).value.store.log;
      log[j].verdict.allowed <==> log[j].now - log[i].now >= log[i].verdict.retryAfter
  {
    Linearizable(c, t0, acts);
    hide Schedules.Run;
    RetryAfterIsExact(c, Run(c, Init(t0), acts).value.store.log, i, j);
  }

  /** In every run, whatever has expired answers later requests as the bucket that never expires. */
  lemma ExpiryUnobservable(c: Config, t0: real, acts: seq<Action>, now: real)
    requires c.Valid() && Run(c, Init(t0), acts).Some?
    requires Run(c, Init(t0), acts).value.store.clock <= now
    ensures
      var st := Run(c, Init(t0), acts).value.store;
      && AcquireFrom(c, st.key, now) == AcquireFrom(c, Ideal(c, st.log), now)
      && RefundFrom(c, st.key, now) == RefundFrom(c, Ideal(c, st.log), now)
  {
    InitInv(c, t0);
    RunKeepsInv(c, Init(t0), acts);
    hide Schedules.Run;
    EvictionUnobservable(c, Run(c, Init(t0), acts).value.store, now);
  }

  /** What CountInv leaves of the charges: every live call only makes the bound better. */
  lemma RestartBound(s: Sys)
    requires CountInv(s)
    ensures var n := |s.clients|; 2 * s.restarts <= n * (n - 1) + 2 * (n * s.touches)
  {
    var n, l := |s.clients|, |Live(s)|;
    ChargedTotal(n, l);
    assert l * (l - 1) >= 0;
    hide Charged, Live, Stale;
  }

  lemma StepBound(c: Config, s: Sys)
    requires c.Valid() && Inv(c, s)
    ensures Total(s.clients, StepsOf) <= 4 * (s.restarts + |s.clients|)
  {
    hide StoreInv, EntriesOwned, CountInv, Total, Ideal, Level, Served;
    forall id | id in s.clients
      ensures s.clients[id].steps <= 4 * (s.clients[id].restarts + 1)
    {
      assert ClientInv(c, s.store, id, s.clients[id]);
    }
    TotalSteps(s.clients);
  }

  /**
   The retry loops are lock-free: n calls together meet at most n(n-1)/2 WatchErrors, plus n
   for each eviction that watchers notice. As a call makes at most four steps per pass, this
   bounds the steps of every run, of all calls together.
   */
  lemma LockFree(c: Config, t0: real, acts: seq<Action>)
    requires c.Valid() && Run(c, Init(t0), acts).Some?
    ensures
      var s := Run(c, Init(t0), acts).value;
      var n := |s.clients|;
      && Total(s.clients, RestartsOf) == s.restarts
      && 2 * s.restarts <= n * (n - 1) + 2 * (n * s.touches)
      && Total(s.clients, StepsOf) <= 4 * n + 2 * (n * (n - 1)) + 4 * (n * s.touches)
  {
    InitInv(c, t0);
    RunKeepsInv(c, Init(t0), acts);
    hide Schedules.Run, StoreInv, ClientInv, EntriesOwned, CountInv, Total;
    var s := Run(c, Init(t0), acts).value;
    RestartBound(s);
    StepBound(c, s);
  }

  /** The next step of an unfinished call, and how many it needs when nobody else moves. */
  function OwnAction(id: nat, pc: Pc): Action
    requires !pc.Returned?
  {
    match pc
    case Calling => Watch(id)
    case Watched(_) => Load(id)
    case Loaded(_, _, _) => ReadClock(id)
    case Timed(_, _, _) => Exec(id)
  }

  function Remaining(pc: Pc, version: nat): nat {
    4 - pc.Progress() + if pc.Outdated(version) then 4 else 0
  }

  lemma OwnActionAdvances(c: Config, s: Sys, id: nat)
    requires c.Valid() && id in s.clients && !s.clients[id].pc.Returned?
    ensures
      var a := OwnAction(id, s.clients[id].pc);
      Enabled(s, a)
      && var s' := Next(c, s, a);
         id in s'.clients
         && (s'.clients[id].pc.Returned?
             || Remaining(s'.clients[id].pc, s'.store.version) < Remaining(s.clients[id].pc, s.store.version))
  {
    hide AcquireFrom, RefundFrom, Config.TtlSeconds;
  }

  /**
   No call is ever stuck: from any state, whatever the others have done so far, a call left
   alone returns within eight of its own steps, and within four if its WATCH still stands.
   */
  lemma {:induction false} LeftAloneReturns(c: Config, s: Sys, id: nat) returns (acts: seq<Action>)
    requires c.Valid() && id in s.clients
    ensures |acts| <= Remaining(s.clients[id].pc, s.store.version) <= 8
    ensures forall a | a in acts :: (a.Watch? || a.Load? || a.ReadClock? || a.Exec?) && a.id == id
    ensures Run(c, s, acts).Some? && id in Run(c, s, acts).value.clients
    ensures Run(c, s, acts).value.clients[id].pc.Returned?
    decreases if s.clients[id].pc.Returned? then 0 else 1 + Remaining(s.clients[id].pc, s.store.version)
  {
    hide AcquireFrom, RefundFrom, Config.TtlSeconds, Next;
    if s.clients[id].pc.Returned? {
      acts := [];
    } else {
      var a := OwnAction(id, s.clients[id].pc);
      OwnActionAdvances(c, s, id);
      var rest := LeftAloneReturns(c, Next(c, s, a), id);
      acts := [a] + rest;
      assert acts[1..] == rest;
    }
  }

  // ---------------------------------------------------------------- calls that nobody disturbs

  /** A call running alone from its start commits what the bucket gives at the current clock. */
  lemma SoloAcquire(c: Config, s: Sys, id: nat)
    requires c.Valid() && id !in s.clients
    ensures
      var (b, verdict) := AcquireFrom(c, s.store.key, s.store.clock);
      Run(c, s, [Call(id, Acquire), Watch(id), Load(id), ReadClock(id), Exec(id)])
      == Some(s.(store := Write(c, s.store, b, Acquired(id, s.store.clock, verdict)),
                 clients := s.clients[id := CalledNow(s, Acquire, Returned(Answered(|s.store.log|, verdict)), 4)]))
  {
    hide Level, TimeToEarn, Config.TtlSeconds, Schedules.Run;
    var s1 := s.(clients := s.clients[id := CalledNow(s, Acquire, Calling, 0)]);
    var s2 := s.(clients := s.clients[id := CalledNow(s, Acquire, Watched(s.store.version), 1)]);
    var s3 := s.(clients := s.clients[id := CalledNow(s, Acquire, Loaded(s.store.version, s.store.key, |s.store.log|), 2)]);
    var s4 := s.(clients := s.clients[id := CalledNow(s, Acquire, Timed(s.store.version, s.store.key, s.store.clock), 3)]);
    assert Next(c, s1, Watch(id)) == s2;
    assert Next(c, s2, Load(id)) == s3;
    assert Next(c, s3, ReadClock(id)) == s4;
    Schedules.First(Step(c), s, [Call(id, Acquire), Watch(id), Load(id), ReadClock(id), Exec(id)],
             s1, [Watch(id), Load(id), ReadClock(id), Exec(id)]);
    Schedules.First(Step(c), s1, [Watch(id), Load(id), ReadClock(id), Exec(id)], s2, [Load(id), ReadClock(id), Exec(id)]);
    Schedules.First(Step(c), s2, [Load(id), ReadClock(id), Exec(id)], s3, [ReadClock(id), Exec(id)]);
    Schedules.First(Step(c), s3, [ReadClock(id), Exec(id)], s4, [Exec(id)]);
    Schedules.First(Step(c), s4, [Exec(id)], Next(c, s4, Exec(id)), []);
    Schedules.Empty(Step(c), Next(c, s4, Exec(id)));
    var (b, verdict) := AcquireFrom(c, s.store.key, s.store.clock);
    var k := CalledNow(s, Acquire, Returned(Answered(|s.store.log|, verdict)), 4);
    assert Next(c, s4, Exec(id)).clients == s.clients[id := k];
  }

  /** A refund starting alone on a stored key gets as far as its snapshot. */
  lemma SoloRefundReads(c: Config, s: Sys, id: nat)
    requires c.Valid() && id !in s.clients && s.store.key.Some?
    ensures Run(c, s, [Call(id, Refund), Watch(id), Load(id)])
      == Some(s.(clients := s.clients[id := CalledNow(s, Refund, Loaded(s.store.version, s.store.key, |s.store.log|), 2)]))
  {
    hide Schedules.Run;
    var s1 := s.(clients := s.clients[id := CalledNow(s, Refund, Calling, 0)]);
    var s2 := s.(clients := s.clients[id := CalledNow(s, Refund, Watched(s.store.version), 1)]);
    assert Next(c, s1, Watch(id)) == s2;
    Schedules.First(Step(c), s, [Call(id, Refund), Watch(id), Load(id)], s1, [Watch(id), Load(id)]);
    Schedules.First(Step(c), s1, [Watch(id), Load(id)], s2, [Load(id)]);
    Schedules.First(Step(c), s2, [Load(id)], Next(c, s2, Load(id)), []);
    Schedules.Empty(Step(c), Next(c, s2, Load(id)));
    var k := CalledNow(s, Refund, Loaded(s.store.version, s.store.key, |s.store.log|), 2);
    assert Next(c, s2, Load(id)).clients == s.clients[id := k];
  }

  /** A refund running alone credits the bucket, unless the key is missing or full at the current clock. */
  lemma SoloRefund(c: Config, s: Sys, id: nat)
    requires c.Valid() && id !in s.clients && s.store.key.Some?
    requires Level(c, s.store.key.value, s.store.clock) < c.Cap()
    ensures
      var b := Bucket(MinReal(c.Cap(), Level(c, s.store.key.value, s.store.clock) + 1.0), s.store.clock);
      Run(c, s, [Call(id, Refund), Watch(id), Load(id)] + [ReadClock(id), Exec(id)])
      == Some(s.(store := Write(c, s.store, b, Refunded(id, s.store.clock)),
                 clients := s.clients[id := CalledNow(s, Refund, Returned(Credited(|s.store.log|)), 4)]))
  {
    hide Level, Config.TtlSeconds, Schedules.Run;
    SoloRefundReads(c, s, id);
    Schedules.Split(Step(c), s, [Call(id, Refund), Watch(id), Load(id)], [ReadClock(id), Exec(id)]);
    var s1 := Run(c, s, [Call(id, Refund), Watch(id), Load(id)]).value;
    var s2 := s.(clients := s.clients[id := CalledNow(s, Refund, Timed(s.store.version, s.store.key, s.store.clock), 3)]);
    assert Next(c, s1, ReadClock(id)) == s2;
    Schedules.First(Step(c), s1, [ReadClock(id), Exec(id)], s2, [Exec(id)]);
    Schedules.First(Step(c), s2, [Exec(id)], Next(c, s2, Exec(id)), []);
    Schedules.Empty(Step(c), Next(c, s2, Exec(id)));
    var k := CalledNow(s, Refund, Returned(Credited(|s.store.log|)), 4);
    assert Next(c, s2, Exec(id)).clients == s.clients[id := k];
  }
}
