/**
 `acquire` and `refund` as the loops they are: watch, read, compute, try to commit, start
 over. What other clients do meanwhile is a schedule handed to the call, one round for
 each pass of the loop; once the schedule is used up nobody else touches the key.
 */
module RateLimiter {
  import opened Options
  import opened TokenBucket
  import opened RateStore

  /** What may happen at an await: time passes, the key is evicted, a rival call runs to its commit. */
  datatype Interference =
    | Passing(seconds: real)
    | Eviction(touch: bool)
    | RivalAcquire(who: nat)
    | RivalRefund(who: nat)

  /** The interference before HMGET, before the clock is read, and before EXEC. */
  datatype Round = Round(beforeLoad: seq<Interference>, beforeClock: seq<Interference>, beforeExec: seq<Interference>)

  function Disturb(c: Config, s: Store, i: Interference): Store
    requires c.Valid()
  {
    match i
    case Passing(seconds) => if seconds >= 0.0 then Ticked(s, s.clock + seconds) else s
    case Eviction(touch) => if s.key.Some? && s.expiresAt <= s.clock then Evicted(s, touch) else s
    case RivalAcquire(who) =>
      var (b, verdict) := AcquireFrom(c, s.key, s.clock);
      Write(c, s, b, Acquired(who, s.clock, verdict))
    case RivalRefund(who) =>
      match RefundFrom(c, s.key, s.clock)
      case None => s
      case Some(b) => Write(c, s, b, Refunded(who, s.clock))
  }

  /** Everything in a list, one after the other. */
  function DisturbAll(c: Config, s: Store, env: seq<Interference>): Store
    requires c.Valid()
  {
    if env == [] then s else Disturb(c, DisturbAll(c, s, env[..|env| - 1]), env[|env| - 1])
  }

  lemma DisturbOneMore(c: Config, s: Store, env: seq<Interference>, i: nat)
    requires c.Valid() && i < |env|
    ensures DisturbAll(c, s, env[..i + 1]) == Disturb(c, DisturbAll(c, s, env[..i]), env[i])
  {
    assert env[..i + 1][..i] == env[..i];
  }

  predicate ByOthers(me: nat, env: seq<Interference>) {
    forall i | i in env && (i.RivalAcquire? || i.RivalRefund?) :: i.who != me
  }

  predicate RoundsByOthers(me: nat, rounds: seq<Round>) {
    forall r | r in rounds ::
      ByOthers(me, r.beforeLoad) && ByOthers(me, r.beforeClock) && ByOthers(me, r.beforeExec)
  }

  /** Between two states only others committed, and the version tells whether anyone did. */
  ghost predicate Moved(s: Store, s': Store, me: nat) {
    && s.clock <= s'.clock
    && s.version <= s'.version
    && s.log <= s'.log
    && (forall k | |s.log| <= k < |s'.log| :: s'.log[k].who != me)
    && (s.version == s'.version ==> s.log == s'.log && (s'.key == s.key || s'.key.None?))
  }

  lemma DisturbMoves(c: Config, s: Store, i: Interference, me: nat)
    requires c.Valid() && StoreInv(c, s) && ByOthers(me, [i])
    ensures StoreInv(c, Disturb(c, s, i)) && Moved(s, Disturb(c, s, i), me)
  {
    hide Level, Ideal, TimeToEarn, Config.TtlSeconds, Served, Ordered;
    assert i in [i];
    match i
    case Passing(seconds) => PassiveSteps(c, s, s.clock + MaxReal(0.0, seconds), false);
    case Eviction(touch) => PassiveSteps(c, s, s.clock, touch);
    case RivalAcquire(who) => AcquireCommit(c, s, s.key, s.clock, who);
    case RivalRefund(who) =>
      if RefundFrom(c, s.key, s.clock).Some? {
        RefundCommit(c, s, s.key, s.clock, who);
      }
  }

  /** The last commit is this caller's credit, and it was not there before. */
  ghost predicate CreditedBy(from: seq<Commit>, to: seq<Commit>, me: nat) {
    |from| < |to| && to[|to| - 1].Refunded? && to[|to| - 1].who == me
  }

  /**
   At some point of a call, between the commits before it and those after, the reference
   bucket had room for a token at this clock value: or had none, if `room` is false.
   */
  ghost predicate RoomSeen(c: Config, from: seq<Commit>, to: seq<Commit>, now: real, room: bool)
    requires c.Valid()
  {
    exists n: nat :: |from| <= n <= |to| && (room <==> Balance(c, Ideal(c, to[..n]), now) < c.Cap())
  }

  /** What a snapshot shows is what the reference bucket held when it was taken. */
  lemma SnapshotShowsRoom(c: Config, from: seq<Commit>, loaded: Store, to: seq<Commit>, now: real)
    requires c.Valid() && StoreInv(c, loaded) && from <= loaded.log <= to && loaded.clock <= now
    ensures RoomSeen(c, from, to, now, Balance(c, loaded.key, now) < c.Cap())
    ensures Balance(c, loaded.key, now) == Balance(c, Ideal(c, loaded.log), now)
  {
    hide Level, Config.TtlSeconds, Served, Ordered;
    SnapshotBalance(c, loaded.log, loaded.key, now);
    assert to[..|loaded.log|] == loaded.log;
  }

  lemma NotCredited(s: Store, s': Store, me: nat)
    requires Moved(s, s', me)
    ensures !CreditedBy(s.log, s'.log, me)
  {
  }

  /** One guild's key on the Redis server. */
  class GuildBucket {
    var clock: real
    var key: Option<Bucket>
    var expiresAt: real
    var version: nat
    ghost var log: seq<Commit>

    ghost function View(): Store
      reads this
    {
      Store(clock, key, expiresAt, version, log)
    }

    ghost predicate Valid(c: Config)
      requires c.Valid()
      reads this
    {
      StoreInv(c, View())
    }

    constructor (c: Config, t0: real)
      requires c.Valid()
      ensures Valid(c) && key == None && log == [] && clock == t0
    {
      clock, key, expiresAt, version, log := t0, None, t0, 0, [];
    }

    /** Everybody else runs while this call waits. */
    method Await(c: Config, env: seq<Interference>, ghost me: nat)
      requires c.Valid() && Valid(c) && ByOthers(me, env)
      modifies this
      ensures Valid(c) && Moved(old(View()), View(), me)
      ensures View() == DisturbAll(c, old(View()), env) && (env == [] ==> View() == old(View()))
    {
      hide Ideal, Level, StoreInv, Disturb;
      for i := 0 to |env|
        invariant Valid(c) && Moved(old(View()), View(), me)
        invariant View() == DisturbAll(c, old(View()), env[..i])
      {
        DisturbOneMore(c, old(View()), env, i);
        DisturbMoves(c, View(), env[i], me);
        Undergo(c, env[i]);
      }
      assert env[..|env|] == env;
    }

    /** One thing that happens while a call waits. */
    method Undergo(c: Config, what: Interference)
      requires c.Valid()
      modifies this
      ensures View() == Disturb(c, old(View()), what)
    {
      hide Level, TimeToEarn, Config.TtlSeconds;
      match what {
        case Passing(seconds) =>
          if seconds >= 0.0 {
            clock := clock + seconds;
          }
        case Eviction(touch) =>
          if key.Some? && expiresAt <= clock {
            key, version := None, if touch then version + 1 else version;
          }
        case RivalAcquire(who) =>
          var (b, verdict) := AcquireFrom(c, key, clock);
          Put(c, b, Acquired(who, clock, verdict));
        case RivalRefund(who) =>
          match RefundFrom(c, key, clock) {
            case None =>
            case Some(b) => Put(c, b, Refunded(who, clock));
          }
      }
    }

    /** HSET and EXPIRE. */
    method Put(c: Config, b: Bucket, ghost e: Commit)
      requires c.Valid()
      modifies this
      ensures View() == Write(c, old(View()), b, e)
    {
      key, expiresAt, version := Some(b), clock + c.Ttl(), version + 1;
      log := log + [e];
    }

    /** The EXEC of an `acquire` whose snapshot nobody has outdated. */
    method CommitAcquire(c: Config, b: Bucket, ghost snap: Option<Bucket>, ghost e: Commit)
      requires c.Valid() && Valid(c) && e.Acquired? && Fresh(c, View(), snap, e.now)
      requires (b, e.verdict) == AcquireFrom(c, snap, e.now)
      modifies this
      ensures Valid(c) && View() == Write(c, old(View()), b, e)
      ensures log == old(log) + [e] && version == old(version) + 1
      ensures clock == old(clock) && expiresAt == clock + c.Ttl()
      ensures key == Ideal(c, log)
      ensures e.verdict == AcquireFrom(c, Ideal(c, old(log)), e.now).1
    {
      hide Ideal, Level, TimeToEarn, Config.TtlSeconds, Served, Ordered;
      AcquireCommit(c, View(), snap, e.now, e.who);
      SnapshotBalance(c, log, snap, e.now);
      Put(c, b, e);
    }

    /** The EXEC of a `refund` whose snapshot nobody has outdated. */
    method CommitRefund(c: Config, b: Bucket, ghost snap: Option<Bucket>, ghost e: Commit)
      requires c.Valid() && Valid(c) && e.Refunded? && Fresh(c, View(), snap, e.now)
      requires RefundFrom(c, snap, e.now) == Some(b)
      modifies this
      ensures Valid(c) && View() == Write(c, old(View()), b, e)
      ensures log == old(log) + [e] && version == old(version) + 1
      ensures clock == old(clock) && expiresAt == clock + c.Ttl()
      ensures key == Ideal(c, log)
    {
      hide Ideal, Level, Config.TtlSeconds, Served, Ordered;
      RefundCommit(c, View(), snap, e.now, e.who);
      Put(c, b, e);
    }

    /**
     Consume one token. Exactly one commit is this call's own, the last one; it answers
     what the reference bucket answers at that point of the log, and every pass that
     failed is charged to someone else's change of the key.
     */
    method Acquire(c: Config, me: nat, sched: seq<Round>)
      returns (verdict: Verdict, restarts: nat)
      requires c.Valid() && Valid(c) && RoundsByOthers(me, sched)
      modifies this
      ensures Valid(c)
      ensures old(log) < log && log[|log| - 1].Acquired? && log[|log| - 1].who == me
      ensures forall k | |old(log)| <= k < |log| - 1 :: log[k].who != me
      ensures log[|log| - 1].verdict == verdict
      ensures verdict == AcquireFrom(c, Ideal(c, log[..|log| - 1]), log[|log| - 1].now).1
      ensures key == Ideal(c, log) && expiresAt == clock + c.Ttl()
      ensures old(clock) <= log[|log| - 1].now <= clock
      ensures old(version) + restarts < version && restarts <= |sched|
    {
      hide Ideal, Level, TimeToEarn, Config.Ttl, StoreInv, Fresh, DisturbAll, AcquireFrom, Write;
      restarts := 0;
      while true
        invariant Valid(c) && Moved(old(View()), View(), me)
        invariant old(version) + restarts <= version && restarts <= |sched|
        decreases |sched| - restarts
      {
        var round := if restarts < |sched| then sched[restarts] else Round([], [], []);
        var watched := version;
        Await(c, round.beforeLoad, me);
        var snap := key;
        ghost var loaded := View();
        Await(c, round.beforeClock, me);
        var now := clock;
        ghost var timed := View();
        var b: Bucket;
        b, verdict := Decide(c, snap, now);
        Await(c, round.beforeExec, me);
        if version == watched {
          ghost var before := View();
          StillFresh(c, loaded, timed, before, me);
          CommitAcquire(c, b, snap, Acquired(me, now, verdict));
          assert log[..|log| - 1] == before.log;
          return;
        }
        restarts := restarts + 1;
      }
    }

    /**
     Give one token back. The call commits one credit of its own, the last commit, if the
     bucket had room at its snapshot and clock value, and else writes nothing. Undisturbed,
     it credits exactly if the bucket has room.
     */
    method Refund(c: Config, me: nat, sched: seq<Round>)
      returns (credited: bool, restarts: nat, ghost now: real)
      requires c.Valid() && Valid(c) && RoundsByOthers(me, sched)
      modifies this
      ensures Valid(c)
      ensures old(clock) <= now <= clock
      ensures RoomSeen(c, old(log), log, now, credited)
      ensures sched == [] ==> (credited <==> Balance(c, Ideal(c, old(log)), old(clock)) < c.Cap())
      ensures credited <==> CreditedBy(old(log), log, me)
      ensures credited ==> old(log) < log && log[|log| - 1] == Refunded(me, now)
      ensures credited ==> key == Ideal(c, log) && expiresAt == clock + c.Ttl()
      ensures credited ==> forall k | |old(log)| <= k < |log| - 1 :: log[k].who != me
      ensures !credited ==> Moved(old(View()), View(), me)
      ensures old(version) + restarts + (if credited then 1 else 0) <= version && restarts <= |sched|
    {
      hide Ideal, Level, Config.Ttl, StoreInv, Fresh, RoomSeen, SnapshotOk, DisturbAll, Write;
      restarts := 0;
      while true
        invariant Valid(c) && Moved(old(View()), View(), me)
        invariant old(version) + restarts <= version && restarts <= |sched|
        invariant sched == [] ==> View() == old(View())
        decreases |sched| - restarts
      {
        var round := if restarts < |sched| then sched[restarts] else Round([], [], []);
        var watched := version;
        Await(c, round.beforeLoad, me);
        var snap := key;
        ghost var loaded := View();
        if snap.None? {
          now := clock;
          SnapshotShowsRoom(c, old(log), loaded, log, now);
          NotCredited(old(View()), View(), me);
          return false, restarts, now;
        }
        Await(c, round.beforeClock, me);
        var time := clock;
        now := time;
        ghost var timed := View();
        var effective := Level(c, snap.value, time);
        if effective >= c.Cap() {
          SnapshotShowsRoom(c, old(log), loaded, log, now);
          NotCredited(old(View()), View(), me);
          return false, restarts, now;
        }
        var tokens := MinReal(c.Cap(), effective + 1.0);
        assert RefundFrom(c, snap, time) == Some(Bucket(tokens, time));
        Await(c, round.beforeExec, me);
        if version == watched {
          ghost var before := View();
          StillFresh(c, loaded, timed, before, me);
          CommitRefund(c, Bucket(tokens, time), snap, Refunded(me, time));
          SnapshotShowsRoom(c, old(log), loaded, log, now);
          return true, restarts, now;
        }
        restarts := restarts + 1;
      }
    }
  }

  /** Refill the snapshot lazily, then take a token or say how long to wait. */
  method Decide(c: Config, snap: Option<Bucket>, now: real) returns (b: Bucket, verdict: Verdict)
    requires c.Valid()
    ensures (b, verdict) == AcquireFrom(c, snap, now)
  {
    hide TimeToEarn;
    var tokens := c.Cap();
    if snap.Some? {
      var elapsed := MaxReal(0.0, now - snap.value.lastRefill);
      tokens := MinReal(c.Cap(), snap.value.tokens + Earned(c, elapsed));
    }
    var allowed, retryAfter := tokens >= 1.0, 0.0;
    if allowed {
      tokens := tokens - 1.0;
    } else {
      retryAfter := TimeToEarn(c, 1.0 - tokens);
    }
    b, verdict := Bucket(tokens, now), Verdict(allowed, retryAfter);
  }

  /** A snapshot loaded, then a clock value read, are good for a commit while the version stands. */
  lemma StillFresh(c: Config, loaded: Store, timed: Store, s: Store, me: nat)
    requires c.Valid() && StoreInv(c, loaded) && StoreInv(c, timed)
    requires Moved(loaded, timed, me) && Moved(timed, s, me) && loaded.version == s.version
    ensures Fresh(c, s, loaded.key, timed.clock)
  {
  }
}
