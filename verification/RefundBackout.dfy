/**
 Refunds that back out "at capacity". The clock is read after the snapshot and the bucket is
 left without a transaction, so others may have committed in between: exactly when that
 costs the caller the token, and when it cannot.
 */
module RefundBackout {
  import opened Options
  import opened TokenBucket
  import opened RateStore
  import opened RateMachine
  import Schedules

  /** What the reference bucket holds at a moment, after some commits. */
  ghost function BalanceAt(c: Config, log: seq<Commit>, now: real): real
    requires c.Valid()
  {
    Balance(c, Ideal(c, log), now)
  }

  ghost predicate After(log: seq<Commit>, t: real) {
    log != [] ==> log[|log| - 1].now <= t
  }

  /**
   Whoever took the snapshot after `read` commits and reads this clock backs out, because
   the snapshot looks full, although the bucket could have taken the token.
   */
  ghost predicate LosesAt(c: Config, log: seq<Commit>, read: nat, now: real)
    requires c.Valid() && read <= |log|
  {
    BalanceAt(c, log[..read], now) == c.Cap() && BalanceAt(c, log, now) < c.Cap()
  }

  /** Allowed acquires of the window that no later credit of the window makes up for. */
  function Deficit(window: seq<Commit>): nat {
    if window == [] then 0
    else
      var d := Deficit(window[..|window| - 1]);
      var e := window[|window| - 1];
      if e.Refunded? then (if d > 0 then d - 1 else 0) else d + Spends(e)
  }

  // ---------------------------------------------------------------- the reference bucket over time

  lemma BalanceLater(c: Config, log: seq<Commit>, t: real, now: real)
    requires c.Valid() && After(log, t) && t <= now
    ensures BalanceAt(c, log, now) == MinReal(c.Cap(), BalanceAt(c, log, t) + Earned(c, now - t))
    ensures 0.0 <= BalanceAt(c, log, t) <= c.Cap() && Earned(c, now - t) >= 0.0
  {
    hide Earned, Ideal;
    IdealBounds(c, log);
    BalanceBounds(c, Ideal(c, log), t);
    EarnedAdds(c, 0.0, 0.0);
    EarnedMonotone(c, 0.0, now - t);
    if log != [] {
      RefillComposes(c, Ideal(c, log).value, t, now);
    }
  }

  /** What one commit does to the balance at its own clock value. */
  lemma CommitEffect(c: Config, log: seq<Commit>, k: nat)
    requires c.Valid() && Served(c, log) && Ordered(log) && k < |log|
    ensures
      var t := log[k].now;
      var (before, after) := (BalanceAt(c, log[..k], t), BalanceAt(c, log[..k + 1], t));
      && After(log[..k], t) && After(log[..k + 1], t)
      && (log[k].Acquired? ==> (log[k].verdict.allowed <==> before >= 1.0)
                               && after == before - Spends(log[k]) as real)
      && (log[k].Refunded? ==> after == MinReal(c.Cap(), before + 1.0))
  {
    hide Earned, TimeToEarn;
    assert ServedAt(c, log, k);
    assert log[..k + 1][..k] == log[..k];
    assert log[..k + 1][k] == log[k];
    IdealBounds(c, log[..k]);
    BalanceBounds(c, Ideal(c, log[..k]), log[k].now);
    EarnedAdds(c, 0.0, 0.0);
  }

  // ---------------------------------------------------------------- the exact condition

  /** Once the bucket is not behind the snapshot it never falls behind again by waiting. */
  lemma NotBehindStays(c: Config, log: seq<Commit>, read: nat, t: real, now: real)
    requires c.Valid() && read <= |log| && After(log, t) && After(log[..read], t) && t <= now
    requires BalanceAt(c, log[..read], t) <= BalanceAt(c, log, t)
    ensures !LosesAt(c, log, read, now)
  {
    hide Earned, BalanceAt;
    BalanceLater(c, log, t, now);
    BalanceLater(c, log[..read], t, now);
  }

  /** And while it is behind, the moment at which the snapshot becomes full loses the token. */
  lemma BehindLoses(c: Config, log: seq<Commit>, read: nat, t: real)
    requires c.Valid() && read <= |log| && After(log, t) && After(log[..read], t)
    requires BalanceAt(c, log, t) < BalanceAt(c, log[..read], t)
    ensures exists now :: t <= now && LosesAt(c, log, read, now)
  {
    hide Earned, TimeToEarn, BalanceAt;
    BalanceLater(c, log[..read], t, t);
    var missing := c.Cap() - BalanceAt(c, log[..read], t);
    var wait := TimeToEarn(c, missing);
    EarnedWait(c, missing);
    BalanceLater(c, log, t, t + wait);
    BalanceLater(c, log[..read], t, t + wait);
    assert t + wait - t == wait;
    assert LosesAt(c, log, read, t + wait);
  }

  lemma EarnedWait(c: Config, tokens: real)
    requires c.Valid() && tokens >= 0.0
    ensures TimeToEarn(c, tokens) >= 0.0 && Earned(c, TimeToEarn(c, tokens)) == tokens
  {
    assert TimeToEarn(c, tokens) * c.Rate() == tokens;
  }

  /** Some clock reading loses the token if and only if the bucket is behind the snapshot by then. */
  lemma LosesIffBehind(c: Config, log: seq<Commit>, read: nat, t: real)
    requires c.Valid() && read <= |log| && After(log, t) && After(log[..read], t)
    ensures (exists now :: t <= now && LosesAt(c, log, read, now))
            <==> BalanceAt(c, log, t) < BalanceAt(c, log[..read], t)
  {
    hide LosesAt, BalanceAt;
    if BalanceAt(c, log, t) < BalanceAt(c, log[..read], t) {
      BehindLoses(c, log, read, t);
    } else {
      forall now | t <= now ensures !LosesAt(c, log, read, now) {
        NotBehindStays(c, log, read, t, now);
      }
    }
  }

  /** The bucket is never further behind than the acquires left without a credit. */
  lemma {:induction false} BehindByDeficit(c: Config, log: seq<Commit>, read: nat, n: nat, t: real)
    requires c.Valid() && Served(c, log) && Ordered(log)
    requires read <= n <= |log| && After(log[..n], t)
    ensures BalanceAt(c, log[..n], t) >= BalanceAt(c, log[..read], t) - Deficit(log[read..n]) as real
    decreases n
  {
    hide Earned, BalanceAt, Served, Ordered;
    if read < n {
      var at := log[n - 1].now;
      assert log[..n][n - 1] == log[n - 1];
      assert log[read..n][..n - 1 - read] == log[read..n - 1];
      CommitEffect(c, log, n - 1);
      BehindByDeficit(c, log, read, n - 1, at);
      AfterEarlier(log, read, n - 1, at);
      BalanceLater(c, log[..n], at, t);
      BalanceLater(c, log[..n - 1], at, at);
      BalanceLater(c, log[..read], at, t);
    }
  }

  lemma AfterEarlier(log: seq<Commit>, i: nat, j: nat, t: real)
    requires Ordered(log) && i <= j <= |log| && After(log[..j], t)
    ensures After(log[..i], t)
  {
    if 0 < i {
      assert log[..j][j - 1] == log[j - 1];
    }
  }

  /** What is behind stays behind, as long as it holds less than a token. */
  lemma BehindLater(c: Config, log: seq<Commit>, ahead: seq<Commit>, t: real, at: real)
    requires c.Valid() && After(log, t) && After(ahead, t) && t <= at
    requires BalanceAt(c, log, t) < BalanceAt(c, ahead, t)
    ensures BalanceAt(c, log, at) <= BalanceAt(c, ahead, at)
    ensures BalanceAt(c, log, at) < 1.0 ==> BalanceAt(c, log, at) < BalanceAt(c, ahead, at)
  {
    BalanceLater(c, log, t, at);
    BalanceLater(c, ahead, t, at);
    hide Earned, BalanceAt;
  }

  /** Without credits, once a token was taken the bucket stays behind up to the last commit. */
  lemma {:induction false} BehindWithoutCredits(c: Config, log: seq<Commit>, read: nat, n: nat)
    requires c.Valid() && Served(c, log) && Ordered(log)
    requires read < n <= |log| && Refunds(log[read..n]) == 0 && Allowed(log[read..n]) > 0
    ensures BalanceAt(c, log[..n], log[n - 1].now) < BalanceAt(c, log[..read], log[n - 1].now)
    decreases n
  {
    hide Earned, BalanceAt, Served, Deficit;
    var at := log[n - 1].now;
    CountOneMore(log, read, n - 1);
    CommitEffect(c, log, n - 1);
    AfterEarlier(log, read, n - 1, at);
    if Allowed(log[read..n - 1]) > 0 {
      var t := log[n - 2].now;
      assert log[..n - 1][n - 2] == log[n - 2];
      BehindWithoutCredits(c, log, read, n - 1);
      AfterEarlier(log, read, n - 1, t);
      BehindLater(c, log[..n - 1], log[..read], t, at);
    } else {
      AllDenied(log, read, n - 1);
      BehindByDeficit(c, log, read, n - 1, at);
      NotAhead(c, log, read, n - 1, at);
    }
  }

  lemma {:induction false} AllDenied(log: seq<Commit>, read: nat, n: nat)
    requires read <= n <= |log| && Refunds(log[read..n]) == 0 && Allowed(log[read..n]) == 0
    ensures Deficit(log[read..n]) == 0
    ensures DeniedBetween(log, read, n)
    decreases n
  {
    if read < n {
      CountOneMore(log, read, n - 1);
      assert log[read..n][..n - 1 - read] == log[read..n - 1];
      AllDenied(log, read, n - 1);
    }
  }

  /** Denials change nothing. */
  lemma {:induction false} NotAhead(c: Config, log: seq<Commit>, read: nat, n: nat, t: real)
    requires c.Valid() && Served(c, log) && Ordered(log)
    requires read <= n <= |log| && DeniedBetween(log, read, n) && After(log[..n], t)
    ensures BalanceAt(c, log[..n], t) == BalanceAt(c, log[..read], t)
    decreases n
  {
    hide Earned, BalanceAt, Served;
    if read < n {
      var at := log[n - 1].now;
      assert log[..n][n - 1] == log[n - 1];
      CommitEffect(c, log, n - 1);
      NotAhead(c, log, read, n - 1, at);
      AfterEarlier(log, read, n - 1, at);
      BalanceLater(c, log[..n], at, t);
      BalanceLater(c, log[..read], at, t);
    }
  }

  /**
   A window without credits can cost the token at some clock reading after its last commit
   if and only if it holds an allowed acquire.
   */
  lemma WithoutCreditsIff(c: Config, log: seq<Commit>, read: nat)
    requires c.Valid() && Served(c, log) && Ordered(log)
    requires read < |log| && Refunds(log[read..]) == 0
    ensures (exists now :: log[|log| - 1].now <= now && LosesAt(c, log, read, now))
            <==> Allowed(log[read..]) > 0
  {
    hide LosesAt, BalanceAt, Served;
    var n := |log|;
    var t := log[n - 1].now;
    assert log[read..] == log[read..n] && log[..n] == log;
    AfterEarlier(log, read, n, t);
    LosesIffBehind(c, log, read, t);
    if Allowed(log[read..]) > 0 {
      BehindWithoutCredits(c, log, read, n);
    } else {
      AllDenied(log, read, n);
      NotAhead(c, log, read, n, t);
    }
  }

  /** A window in which a later credit makes up for every allowed acquire never costs the token. */
  lemma MadeUpForIsSafe(c: Config, log: seq<Commit>, read: nat, now: real)
    requires c.Valid() && Served(c, log) && Ordered(log)
    requires read <= |log| && After(log, now) && Deficit(log[read..]) == 0
    ensures !LosesAt(c, log, read, now)
  {
    var n := |log|;
    assert log[read..] == log[read..n] && log[..n] == log;
    BehindByDeficit(c, log, read, n, now);
  }

  // ---------------------------------------------------------------- the calls themselves

  /** The refund `id` stands between its HMGET and its clock reading. */
  predicate Reading(s: Sys, id: nat) {
    id in s.clients && s.clients[id].op == Refund && s.clients[id].pc.Loaded?
  }

  /** What the others have committed since the HMGET of the refund. */
  function Since(s: Sys, id: nat): seq<Commit>
    requires Reading(s, id)
  {
    if s.clients[id].pc.read <= |s.store.log| then s.store.log[s.clients[id].pc.read..] else []
  }

  ghost predicate BacksOut(c: Config, s: Sys, id: nat)
    requires c.Valid() && Reading(s, id)
  {
    Next(c, s, ReadClock(id)).clients[id].pc == Returned(BackedOut)
  }

  /** If time passes up to `to` and the refund then reads the clock, it backs out of a bucket that is not full. */
  ghost predicate LosesToken(c: Config, s: Sys, id: nat, to: real)
    requires c.Valid() && Reading(s, id)
  {
    && s.store.clock <= to
    && BacksOut(c, Next(c, s, Tick(to)), id)
    && BalanceAt(c, s.store.log, to) < c.Cap()
  }

  lemma SnapshotKnown(c: Config, s: Sys, id: nat, to: real)
    requires c.Valid() && Inv(c, s) && Reading(s, id) && s.store.clock <= to
    ensures
      var pc := s.clients[id].pc;
      && pc.read <= |s.store.log|
      && After(s.store.log, s.store.clock) && After(s.store.log[..pc.read], s.store.clock)
      && Balance(c, pc.snap, to) == BalanceAt(c, s.store.log[..pc.read], to)
      && (LosesToken(c, s, id, to) <==> LosesAt(c, s.store.log, pc.read, to))
  {
    hide CountInv, TotalInv, EntriesOwned, Ideal, Level, Served;
    assert ClientInv(c, s.store, id, s.clients[id]);
    var pc := s.clients[id].pc;
    SnapshotBalance(c, s.store.log[..pc.read], pc.snap, to);
    IdealBounds(c, s.store.log[..pc.read]);
    BalanceBounds(c, Ideal(c, s.store.log[..pc.read]), to);
    assert s.store.log[..|s.store.log|] == s.store.log;
    AfterEarlier(s.store.log, pc.read, |s.store.log|, s.store.clock);
  }

  /**
   In every state of every run: if only time passes until a refund with its snapshot in hand
   reads the clock, some such reading loses the token if and only if the bucket now holds
   less than the snapshot says. Another commit before that makes it a new question.
   */
  lemma TokenAtStakeIff(c: Config, s: Sys, id: nat)
    requires c.Valid() && Inv(c, s) && Reading(s, id)
    ensures (exists to :: LosesToken(c, s, id, to))
            <==> BalanceAt(c, s.store.log, s.store.clock) < Balance(c, s.clients[id].pc.snap, s.store.clock)
  {
    var log, clock, read := s.store.log, s.store.clock, s.clients[id].pc.read;
    SnapshotKnown(c, s, id, clock);
    LosesIffBehind(c, log, read, clock);
    forall to | clock <= to ensures LosesToken(c, s, id, to) <==> LosesAt(c, log, read, to) {
      SnapshotKnown(c, s, id, to);
    }
    hide LosesToken, LosesAt, BalanceAt, Inv, Reading;
    if to :| clock <= to && LosesAt(c, log, read, to) {
      assert LosesToken(c, s, id, to);
    }
  }

  /**
   A refund that backs out gives up nothing if, since its HMGET, a later credit made up for
   every allowed acquire: in particular if nobody acquired, however many denials, credits
   and evictions there were.
   */
  lemma BackoutIsNoop(c: Config, s: Sys, id: nat)
    requires c.Valid() && Inv(c, s) && Reading(s, id) && BacksOut(c, s, id)
    requires Deficit(Since(s, id)) == 0
    ensures BalanceAt(c, s.store.log, s.store.clock) == c.Cap()
  {
    hide CountInv, TotalInv, EntriesOwned, Ideal, Level, BacksOut;
    SnapshotKnown(c, s, id, s.store.clock);
    MadeUpForIsSafe(c, s.store.log, s.clients[id].pc.read, s.store.clock);
    assert Next(c, s, Tick(s.store.clock)) == s;
    assert s.store.log[..|s.store.log|] == s.store.log;
    BalanceLater(c, s.store.log, s.store.clock, s.store.clock);
  }

  lemma {:induction false} NoAcquiresNoDeficit(window: seq<Commit>)
    requires Allowed(window) == 0
    ensures Deficit(window) == 0
  {
    if window != [] {
      NoAcquiresNoDeficit(window[..|window| - 1]);
    }
  }

  /** With the watched key untouched, a refund backs out exactly of a full bucket. */
  lemma UntouchedBackout(c: Config, s: Sys, id: nat)
    requires c.Valid() && Inv(c, s) && Reading(s, id) && s.clients[id].pc.ver == s.store.version
    ensures BacksOut(c, s, id) <==> BalanceAt(c, s.store.log, s.store.clock) == c.Cap()
  {
    hide Level, CountInv, TotalInv, EntriesOwned;
    assert ClientInv(c, s.store, id, s.clients[id]);
    IdealBounds(c, s.store.log);
    SnapshotBalance(c, s.store.log, s.clients[id].pc.snap, s.store.clock);
    BalanceBounds(c, Ideal(c, s.store.log), s.store.clock);
  }

  /** A refund that finds no key backs out of a bucket that is full. */
  lemma AbsentIsFull(c: Config, s: Sys, id: nat)
    requires c.Valid() && Inv(c, s) && Enabled(s, Load(id)) && s.clients[id].op == Refund
    requires Next(c, s, Load(id)).clients[id].pc == Returned(BackedOut)
    ensures BalanceAt(c, s.store.log, s.store.clock) == c.Cap()
  {
    SnapshotBalance(c, s.store.log, s.store.key, s.store.clock);
  }

  // ---------------------------------------------------------------- a refund that is lost

  function FirstAcquire(): seq<Action> {
    [Call(1, Acquire), Watch(1), Load(1), ReadClock(1), Exec(1)]
  }

  function RefundReads(): seq<Action> {
    [Call(2, Refund), Watch(2), Load(2)]
  }

  function SecondAcquire(): seq<Action> {
    [Call(3, Acquire), Watch(3), Load(3), ReadClock(3), Exec(3)]
  }

  /** The time in which one token is earned. */
  function OneToken(c: Config): real
    requires c.Valid()
  {
    TimeToEarn(c, 1.0)
  }

  /** An acquire; the refund takes its snapshot; one token's time later another acquire. */
  function LostRefund(c: Config): seq<Action>
    requires c.Valid()
  {
    FirstAcquire() + RefundReads() + [Tick(OneToken(c))] + SecondAcquire() + [ReadClock(2)]
  }

  /** What the first and the second acquire leave behind, and what the refund makes of its snapshot. */
  lemma LostRefundNumbers(c: Config)
    requires c.Valid()
    ensures
      var left := c.Cap() - 1.0;
      && OneToken(c) > 0.0
      && AcquireFrom(c, None, 0.0) == (Bucket(left, 0.0), Verdict(true, 0.0))
      && AcquireFrom(c, Some(Bucket(left, 0.0)), OneToken(c)) == (Bucket(left, OneToken(c)), Verdict(true, 0.0))
      && RefundFrom(c, Some(Bucket(left, 0.0)), OneToken(c)) == None
      && Level(c, Bucket(left, OneToken(c)), OneToken(c)) == left
  {
    hide Earned, TimeToEarn;
    EarnedWait(c, 1.0);
    EarnedAdds(c, 0.0, 0.0);
    EarnedInTime(c, 1.0, 0.0);
    assert OneToken(c) - 0.0 == OneToken(c);
  }

  lemma NoRefunds(a: Commit, b: Commit)
    requires a.Acquired? && b.Acquired?
    ensures Refunds([a, b]) == 0
  {
    var log := [a, b];
    assert log[..|log| - 1] == [a] && log[|log| - 1] == b;
    assert [a][..0] == [] && Refunds([a]) == 0;
  }

  /**
   For every configuration a refund can be lost: this run is possible, the refund backs out
   "at capacity", nothing was credited, and the bucket is one token short, as it was when
   the snapshot was taken.
   */
  lemma RefundCanBeLost(c: Config)
    requires c.Valid()
    ensures
      var run := Run(c, Init(0.0), LostRefund(c));
      && run.Some?
      && 2 in run.value.clients
      && run.value.clients[2].op == Refund
      && run.value.clients[2].pc == Returned(BackedOut)
      && Refunds(run.value.store.log) == 0
      && Balance(c, run.value.store.key, run.value.store.clock) == c.Cap() - 1.0
  {
    hide Schedules.Run, AcquireFrom, RefundFrom, Level, Config.Ttl, OneToken;
    LostRefundNumbers(c);
    var left := c.Cap() - 1.0;
    var t := OneToken(c);
    var yes := Verdict(true, 0.0);
    SoloAcquire(c, Init(0.0), 1);
    var s1 := Run(c, Init(0.0), FirstAcquire()).value;
    assert s1.store.key == Some(Bucket(left, 0.0)) && s1.store.log == [Acquired(1, 0.0, yes)];
    SoloRefundReads(c, s1, 2);
    var s2 := Run(c, s1, RefundReads()).value;
    var s3 := Next(c, s2, Tick(t));
    Schedules.First(Step(c), s2, [Tick(t)], s3, []);
    Schedules.Empty(Step(c), s3);
    SoloAcquire(c, s3, 3);
    var s4 := Run(c, s3, SecondAcquire()).value;
    assert s4.store.log == [Acquired(1, 0.0, yes), Acquired(3, t, yes)];
    Schedules.First(Step(c), s4, [ReadClock(2)], Next(c, s4, ReadClock(2)), []);
    Schedules.Empty(Step(c), Next(c, s4, ReadClock(2)));
    Schedules.Split(Step(c), Init(0.0), FirstAcquire(), RefundReads());
    Schedules.Split(Step(c), Init(0.0), FirstAcquire() + RefundReads(), [Tick(t)]);
    Schedules.Split(Step(c), Init(0.0), FirstAcquire() + RefundReads() + [Tick(t)], SecondAcquire());
    Schedules.Split(Step(c), Init(0.0), FirstAcquire() + RefundReads() + [Tick(t)] + SecondAcquire(), [ReadClock(2)]);
    NoRefunds(Acquired(1, 0.0, yes), Acquired(3, t, yes));
  }
}
