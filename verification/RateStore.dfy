/**
 The Redis key of one guild's bucket, with the history of committed writes, and the
 one invariant both the concurrent machine and the imperative client rely on.
 */
module RateStore {
  import opened Options
  import opened TokenBucket

  /**
   `version` changes on every write, and may change when the key is evicted: whether an
   eviction disturbs a WATCH depends on the Redis release, so both are allowed.
   */
  datatype Store = Store(
    clock: real,
    key: Option<Bucket>,
    expiresAt: real,
    version: nat,
    log: seq<Commit>)

  /** HSET and EXPIRE, committed by EXEC. */
  function Write(c: Config, s: Store, b: Bucket, e: Commit): Store {
    s.(key := Some(b), expiresAt := s.clock + c.Ttl(), version := s.version + 1, log := s.log + [e])
  }

  /** The key disappears; `touch` says whether watchers notice. */
  function Evicted(s: Store, touch: bool): Store {
    s.(key := None, version := if touch then s.version + 1 else s.version)
  }

  function Ticked(s: Store, to: real): Store {
    s.(clock := to)
  }

  /** The bucket has been idle for a whole lifetime at the given moment. */
  predicate IdleAt(c: Config, log: seq<Commit>, at: real) {
    log == [] || log[|log| - 1].now + c.Ttl() <= at
  }

  /** The stored key is the reference bucket, or is missing only after a full idle lifetime. */
  ghost predicate StoreInv(c: Config, s: Store)
    requires c.Valid()
  {
    && Served(c, s.log)
    && Ordered(s.log)
    && (s.log != [] ==> s.log[|s.log| - 1].now <= s.clock)
    && (s.key.Some? ==> s.key == Ideal(c, s.log) && !(s.log == [])
                        && s.log[|s.log| - 1].now + c.Ttl() <= s.expiresAt)
    && (s.key.None? ==> IdleAt(c, s.log, s.clock))
  }

  /** A snapshot that no commit has outdated, as read at some moment up to `at`. */
  ghost predicate SnapshotOk(c: Config, log: seq<Commit>, snap: Option<Bucket>, at: real)
    requires c.Valid()
  {
    snap == Ideal(c, log) || (snap.None? && IdleAt(c, log, at))
  }

  /** Snapshot and clock value that a client may commit from. */
  ghost predicate Fresh(c: Config, s: Store, snap: Option<Bucket>, now: real)
    requires c.Valid()
  {
    && SnapshotOk(c, s.log, snap, now)
    && now <= s.clock
    && (s.log != [] ==> s.log[|s.log| - 1].now <= now)
  }

  /** A missing key reads as the reference bucket does. */
  lemma SnapshotBalance(c: Config, log: seq<Commit>, snap: Option<Bucket>, now: real)
    requires c.Valid() && SnapshotOk(c, log, snap, now)
    ensures Balance(c, snap, now) == Balance(c, Ideal(c, log), now)
  {
    IdealBounds(c, log);
    if snap != Ideal(c, log) && log != [] {
      IdleBucketIsFull(c, Ideal(c, log).value, now);
    }
  }

  /** The log grows by an entry that the reference bucket would have answered the same way. */
  lemma ServedGrows(c: Config, log: seq<Commit>, e: Commit)
    requires c.Valid() && Served(c, log) && Ordered(log)
    requires log != [] ==> log[|log| - 1].now <= e.now
    requires ServedAt(c, log + [e], |log|)
    ensures Served(c, log + [e]) && Ordered(log + [e])
  {
    forall k: nat | k < |log + [e]| ensures ServedAt(c, log + [e], k) {
      if k < |log| {
        assert ServedAt(c, log, k);
        assert (log + [e])[..k] == log[..k];
      }
    }
  }

  /** An `acquire` commits from a fresh snapshot: the reference bucket gives the same answer. */
  lemma AcquireCommit(c: Config, s: Store, snap: Option<Bucket>, now: real, who: nat)
    requires c.Valid() && StoreInv(c, s) && Fresh(c, s, snap, now)
    ensures
      var (b, verdict) := AcquireFrom(c, snap, now);
      StoreInv(c, Write(c, s, b, Acquired(who, now, verdict)))
  {
    hide Level, TimeToEarn, Config.TtlSeconds;
    var (b, verdict) := AcquireFrom(c, snap, now);
    var e := Acquired(who, now, verdict);
    SnapshotBalance(c, s.log, snap, now);
    assert (s.log + [e])[..|s.log|] == s.log;
    assert ServedAt(c, s.log + [e], |s.log|);
    ServedGrows(c, s.log, e);
  }

  /** A `refund` commits from a fresh snapshot: the credit goes to the reference bucket as well. */
  lemma RefundCommit(c: Config, s: Store, snap: Option<Bucket>, now: real, who: nat)
    requires c.Valid() && StoreInv(c, s) && Fresh(c, s, snap, now)
    requires RefundFrom(c, snap, now).Some?
    ensures StoreInv(c, Write(c, s, RefundFrom(c, snap, now).value, Refunded(who, now)))
  {
    hide Level, Config.TtlSeconds;
    var e := Refunded(who, now);
    SnapshotBalance(c, s.log, snap, now);
    assert (s.log + [e])[..|s.log|] == s.log;
    assert ServedAt(c, s.log + [e], |s.log|);
    ServedGrows(c, s.log, e);
  }

  /** Time passing and eviction after expiry keep the invariant. */
  lemma PassiveSteps(c: Config, s: Store, to: real, touch: bool)
    requires c.Valid() && StoreInv(c, s)
    ensures s.clock <= to ==> StoreInv(c, Ticked(s, to))
    ensures s.expiresAt <= s.clock ==> StoreInv(c, Evicted(s, touch))
  {
  }

  /**
   Eviction is unobservable: from now on, whatever is stored answers every `acquire` and
   every `refund` as the bucket that never expires does.
   */
  lemma EvictionUnobservable(c: Config, s: Store, now: real)
    requires c.Valid() && StoreInv(c, s) && s.clock <= now
    ensures AcquireFrom(c, s.key, now) == AcquireFrom(c, Ideal(c, s.log), now)
    ensures RefundFrom(c, s.key, now) == RefundFrom(c, Ideal(c, s.log), now)
  {
    hide Earned, TimeToEarn;
    SnapshotBalance(c, s.log, s.key, now);
    IdealBounds(c, s.log);
  }
}
