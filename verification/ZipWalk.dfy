/**
 The walk over a channel's history: which attachments become members of the archive, what
 happens to every response that was opened, and what is reported on the way.
 */
module ZipWalk {
  import opened Options
  import opened Text
  import opened Channel

  type Matches = Option<(Attachment, Message) -> bool>

  /** The attachment at index k of message i; also names the response its GET opened. */
  datatype Ref = Ref(i: nat, k: nat)

  datatype Member = Member(name: string, mtime: real, response: Ref)

  /** Positions in the order of the walk. */
  predicate Precedes(r: Ref, s: Ref) {
    r.i < s.i || (r.i == s.i && r.k < s.k)
  }

  ghost predicate Increasing(rs: seq<Ref>) {
    forall a, b | 0 <= a < b < |rs| :: Precedes(rs[a], rs[b])
  }

  predicate InHistory(ms: seq<Message>, r: Ref) {
    r.i < |ms| && r.k < |ms[r.i].attachments|
  }

  predicate Matched(f: Matches, ms: seq<Message>, r: Ref)
    requires InHistory(ms, r)
  {
    f.None? || f.value(ms[r.i].attachments[r.k], ms[r.i])
  }

  /** The GET got as far as a response. */
  predicate Opened(f: Matches, ms: seq<Message>, r: Ref)
    requires InHistory(ms, r)
  {
    Matched(f, ms, r) && ms[r.i].attachments[r.k].reply.Status?
  }

  /** The attachment matches and passes the pre-flight. */
  predicate Selected(f: Matches, ms: seq<Message>, r: Ref)
    requires InHistory(ms, r)
  {
    Matched(f, ms, r) && ms[r.i].attachments[r.k].reply == Status(200)
  }

  function IdString(n: int): string {
    if n < 0 then "-" + Decimal(-n) else Decimal(n)
  }

  function MemberAt(ms: seq<Message>, r: Ref): Member
    requires InHistory(ms, r)
  {
    var m := ms[r.i];
    Member(IdString(m.id) + "_" + m.attachments[r.k].filename, m.createdAt, r)
  }

  lemma {:induction false} DigitsBeforeUnderscore(digits: string, rest: string)
    requires All(digits, IsDigit)
    ensures UpTo(digits + "_" + rest, '_') == digits
  {
    assert digits + "_" + rest == digits + ("_" + rest);
    UpToIs(digits, "_" + rest, '_');
  }

  /** A member's name tells its message and its attachment: the id, an underscore, the file name. */
  lemma MemberNamesTell(ms: seq<Message>, r: Ref)
    requires InHistory(ms, r) && ms[r.i].id >= 0
    ensures
      var name := MemberAt(ms, r).name;
      var digits := UpTo(name, '_');
      && All(digits, IsDigit) && DecimalValue(digits) == ms[r.i].id
      && |digits| < |name| && name[|digits| + 1..] == ms[r.i].attachments[r.k].filename
  {
    var digits := Decimal(ms[r.i].id);
    DecimalRoundTrip(ms[r.i].id);
    DigitsBeforeUnderscore(digits, ms[r.i].attachments[r.k].filename);
    hide All, IsDigit, DecimalValue, Decimal;
  }

  // ---------------------------------------------------------------- the walk as a list

  /** The selected positions among the first k attachments of message i. */
  function PickIn(f: Matches, ms: seq<Message>, i: nat, k: nat): seq<Ref>
    requires i < |ms| && k <= |ms[i].attachments|
  {
    if k == 0 then []
    else PickIn(f, ms, i, k - 1) + if Selected(f, ms, Ref(i, k - 1)) then [Ref(i, k - 1)] else []
  }

  /** The selected positions among the first n messages. */
  function Pick(f: Matches, ms: seq<Message>, n: nat): seq<Ref>
    requires n <= |ms|
  {
    if n == 0 then [] else Pick(f, ms, n - 1) + PickIn(f, ms, n - 1, |ms[n - 1].attachments|)
  }

  lemma {:induction false} PickInFacts(f: Matches, ms: seq<Message>, i: nat, k: nat)
    requires i < |ms| && k <= |ms[i].attachments|
    ensures Increasing(PickIn(f, ms, i, k))
    ensures forall r :: r in PickIn(f, ms, i, k) <==> InHistory(ms, r) && r.i == i && r.k < k && Selected(f, ms, r)
  {
    if k > 0 {
      PickInFacts(f, ms, i, k - 1);
      hide Selected;
      var rest := PickIn(f, ms, i, k - 1);
      forall r ensures r in PickIn(f, ms, i, k) <==> InHistory(ms, r) && r.i == i && r.k < k && Selected(f, ms, r) {
        assert r in PickIn(f, ms, i, k) <==> r in rest || (r == Ref(i, k - 1) && Selected(f, ms, r));
        assert r.i == i && r.k == k - 1 <==> r == Ref(i, k - 1);
      }
      forall a | 0 <= a < |rest| ensures rest[a].i == i && rest[a].k < k - 1 {
        assert rest[a] in rest;
      }
    }
  }

  /** The list holds exactly the selected positions, each once, in the order of the history. */
  lemma {:induction false} PickIsTheSelection(f: Matches, ms: seq<Message>, n: nat)
    requires n <= |ms|
    ensures Increasing(Pick(f, ms, n))
    ensures forall r :: r in Pick(f, ms, n) <==> InHistory(ms, r) && r.i < n && Selected(f, ms, r)
  {
    if n > 0 {
      PickIsTheSelection(f, ms, n - 1);
      PickInFacts(f, ms, n - 1, |ms[n - 1].attachments|);
      hide Selected, PickIn;
      var before := Pick(f, ms, n - 1);
      var here := PickIn(f, ms, n - 1, |ms[n - 1].attachments|);
      forall r ensures r in Pick(f, ms, n) <==> r in before || r in here {
      }
      forall a, b | 0 <= a < |before| && 0 <= b < |here| ensures Precedes(before[a], here[b]) {
        assert before[a] in before && here[b] in here;
      }
    }
  }

  /** An increasing list is determined by what it holds. */
  lemma {:induction false} IncreasingUnique(xs: seq<Ref>, ys: seq<Ref>)
    requires Increasing(xs) && Increasing(ys) && forall r :: r in xs <==> r in ys
    ensures xs == ys
    decreases |xs|
  {
    if xs == [] {
      FirstIn(ys);
    } else {
      assert xs[0] in xs;
      assert ys != [] && ys[0] in ys;
      FirstIsLeast(xs, ys[0]);
      FirstIsLeast(ys, xs[0]);
      assert xs[0] == ys[0];
      forall r ensures r in xs[1..] <==> r in ys[1..] {
        InTail(xs, r);
        InTail(ys, r);
      }
      IncreasingUnique(xs[1..], ys[1..]);
      assert xs == [xs[0]] + xs[1..] && ys == [ys[0]] + ys[1..];
    }
  }

  lemma FirstIn(xs: seq<Ref>)
    ensures xs != [] ==> xs[0] in xs
  {
  }

  lemma FirstIsLeast(xs: seq<Ref>, r: Ref)
    requires xs != [] && Increasing(xs) && r in xs
    ensures r == xs[0] || Precedes(xs[0], r)
  {
  }

  lemma InTail(xs: seq<Ref>, r: Ref)
    requires xs != [] && Increasing(xs)
    ensures r in xs[1..] <==> r in xs && r != xs[0]
  {
  }

  /** Bytes counted for some positions. */
  function Bytes(ms: seq<Message>, rs: seq<Ref>): nat
    requires forall r | r in rs :: InHistory(ms, r)
  {
    if rs == [] then 0
    else
      var last := rs[|rs| - 1];
      assert last in rs && InHistory(ms, last);
      Bytes(ms, rs[..|rs| - 1]) + SizeOf(ms[last.i].attachments[last.k])
  }

  // ---------------------------------------------------------------- progress

  datatype Snapshot = Snapshot(done: nat, bytes: nat, fraction: Option<real>)

  /** A call of the callback: at which message, when, and with what. */
  datatype Emit = Emit(at: nat, now: real, snapshot: Snapshot)

  /** Position of a message in the bounded range: 0 at the newest, 1 at the oldest. */
  function HistoryFraction(id: int, low: int, high: int): real {
    if high <= low then 1.0
    else MaxReal(0.0, MinReal(1.0, (high - id) as real / (high - low) as real))
  }

  function FractionAt(id: int, low: Option<int>, high: Option<int>): Option<real> {
    if low.Some? && high.Some? then Some(HistoryFraction(id, low.value, high.value)) else None
  }

  /** The messages at which a throttled tick is due, among the first n. */
  function Due(clocks: seq<real>, start: real, throttle: real, n: nat): (due: seq<nat>)
    requires n <= |clocks|
    ensures forall j | 0 <= j < |due| :: due[j] < n
  {
    if n == 0 then []
    else
      var before := Due(clocks, start, throttle, n - 1);
      var last := if before == [] then start else clocks[before[|before| - 1]];
      if clocks[n - 1] - last >= throttle then before + [n - 1] else before
  }

  function LastTick(clocks: seq<real>, start: real, throttle: real, n: nat): real
    requires n <= |clocks|
  {
    var due := Due(clocks, start, throttle, n);
    if due == [] then start else clocks[due[|due| - 1]]
  }

  /** Ticks lie at increasing messages and at least the throttle apart, the first from the start. */
  lemma {:induction false} DueSpaced(clocks: seq<real>, start: real, throttle: real, n: nat)
    requires n <= |clocks|
    ensures
      var due := Due(clocks, start, throttle, n);
      && (due != [] ==> clocks[due[0]] - start >= throttle)
      && (forall a | 0 < a < |due| :: due[a - 1] < due[a] && clocks[due[a]] - clocks[due[a - 1]] >= throttle)
  {
    if n > 0 {
      DueSpaced(clocks, start, throttle, n - 1);
    }
  }

  predicate Monotonic(clocks: seq<real>, start: real) {
    && (forall i | 0 <= i < |clocks| :: start <= clocks[i])
    && (forall i, j | 0 <= i < j < |clocks| :: clocks[i] <= clocks[j])
  }

  /** Far enough from the start of the walk, and from every earlier tick of a list. */
  ghost predicate FarFromAll(clocks: seq<real>, start: real, throttle: real, due: seq<nat>, i: nat)
    requires i < |clocks| && forall j | j in due :: j < |clocks|
  {
    clocks[i] - start >= throttle && forall j | j in due && j < i :: clocks[i] - clocks[j] >= throttle
  }

  lemma DueGrows(clocks: seq<real>, start: real, throttle: real, i: nat, n: nat)
    requires i <= n <= |clocks|
    ensures forall j :: j in Due(clocks, start, throttle, i) <==> j in Due(clocks, start, throttle, n) && j < i
    decreases n
  {
    if i < n {
      DueGrows(clocks, start, throttle, i, n - 1);
    }
  }

  /** The last tick is the one to keep a distance from: all others are further away. */
  lemma LastIsNearest(clocks: seq<real>, start: real, throttle: real, i: nat)
    requires i < |clocks| && Monotonic(clocks, start)
    ensures FarFromAll(clocks, start, throttle, Due(clocks, start, throttle, i), i)
            <==> clocks[i] - LastTick(clocks, start, throttle, i) >= throttle
  {
    var due := Due(clocks, start, throttle, i);
    DueSpaced(clocks, start, throttle, i);
    DueIncreasing(due);
    if due != [] {
      assert due[|due| - 1] in due;
      forall j | j in due ensures clocks[j] <= clocks[due[|due| - 1]] {
      }
    }
  }

  lemma {:induction false} DueIncreasing(due: seq<nat>)
    requires forall a | 0 < a < |due| :: due[a - 1] < due[a]
    ensures forall a, b | 0 <= a < b < |due| :: due[a] < due[b]
    decreases |due|
  {
    if |due| > 1 {
      var n := |due| - 1;
      forall a | 0 < a < |due[..n]| ensures due[..n][a - 1] < due[..n][a] {
      }
      DueIncreasing(due[..n]);
      forall a, b | 0 <= a < b < |due| ensures due[a] < due[b] {
        assert due[..n][a] == due[a] && due[..n][n - 1] == due[n - 1];
        if b < n {
          assert due[..n][b] == due[b];
        }
      }
    }
  }

  /**
   With a monotonic clock the ticks are exactly the messages that come at least the throttle
   after the start and after every tick before them: none too early, and none left out.
   */
  lemma DueComplete(clocks: seq<real>, start: real, throttle: real, n: nat, i: nat)
    requires i < n <= |clocks| && Monotonic(clocks, start)
    ensures i in Due(clocks, start, throttle, n)
            <==> FarFromAll(clocks, start, throttle, Due(clocks, start, throttle, n), i)
  {
    DueGrows(clocks, start, throttle, i, n);
    DueGrows(clocks, start, throttle, i + 1, n);
    LastIsNearest(clocks, start, throttle, i);
    var before := Due(clocks, start, throttle, i);
    assert i !in before;
    assert i in Due(clocks, start, throttle, i + 1)
      <==> clocks[i] - LastTick(clocks, start, throttle, i) >= throttle;
  }

  lemma FractionRange(id: int, low: int, high: int)
    ensures 0.0 <= HistoryFraction(id, low, high) <= 1.0
  {
  }

  lemma DivideMonotone(a: int, b: int, d: int)
    requires a <= b && d > 0
    ensures a as real / d as real <= b as real / d as real
  {
    ScaleIff(a as real / d as real, b as real / d as real, d as real);
    assert (a as real / d as real) * d as real == a as real;
    assert (b as real / d as real) * d as real == b as real;
  }

  /** Older messages are further along. */
  lemma FractionMonotone(newer: int, older: int, low: int, high: int)
    requires older <= newer
    ensures HistoryFraction(newer, low, high) <= HistoryFraction(older, low, high)
  {
    if high > low {
      DivideMonotone(high - newer, high - older, high - low);
      hide *;
      var a, b := (high - newer) as real / (high - low) as real, (high - older) as real / (high - low) as real;
      assert a <= b;
      ClampMonotone(a, b);
      FractionIsClamp(newer, low, high);
      FractionIsClamp(older, low, high);
    }
  }

  lemma Quotient(q: real, x: real, w: real)
    requires w > 0.0 && q * w == x
    ensures (0.0 <= x <==> 0.0 <= q) && (x <= 0.0 <==> q <= 0.0)
    ensures (x <= w <==> q <= 1.0) && (w <= x <==> 1.0 <= q)
  {
    ScaleIff(0.0, q, w);
    ScaleIff(q, 0.0, w);
    ScaleIff(q, 1.0, w);
    ScaleIff(1.0, q, w);
  }

  lemma QuotientTimes(x: real, w: real)
    requires w > 0.0
    ensures x / w * w == x
  {
  }

  lemma FractionReversed(id: int, low: int, high: int)
    requires low < high
    ensures HistoryFraction(id, high, low) == HistoryFraction(id, low, low) == 1.0
  {
  }

  /**
   Within the bounds the fraction is the part of the range that lies behind: none at the
   newest message, all of it at the oldest, and in proportion between them. Newer messages
   count as the newest, older ones as the oldest, and without both bounds there is none.
   */
  lemma FractionMeans(id: int, low: int, high: int)
    requires low < high
    ensures low <= id <= high ==> HistoryFraction(id, low, high) * (high - low) as real == (high - id) as real
    ensures id >= high ==> HistoryFraction(id, low, high) == 0.0
    ensures id <= low ==> HistoryFraction(id, low, high) == 1.0
    ensures FractionAt(id, Some(low), Some(high)) == Some(HistoryFraction(id, low, high))
    ensures FractionAt(id, None, Some(high)) == FractionAt(id, Some(low), None) == FractionAt(id, None, None) == None
    ensures HistoryFraction(id, high, low) == HistoryFraction(id, low, low) == 1.0
  {
    var (part, whole) := ((high - id) as real, (high - low) as real);
    QuotientTimes(part, whole);
    Quotient(part / whole, part, whole);
    FractionIsClamp(id, low, high);
    hide HistoryFraction;
    FractionReversed(id, low, high);
  }

  function Clamp(x: real): real {
    MaxReal(0.0, MinReal(1.0, x))
  }

  lemma ClampMonotone(a: real, b: real)
    requires a <= b
    ensures Clamp(a) <= Clamp(b)
  {
  }

  lemma FractionIsClamp(id: int, low: int, high: int)
    requires high > low
    ensures HistoryFraction(id, low, high) == Clamp((high - id) as real / (high - low) as real)
  {
  }

  /** What the walk reports, said from the outside. */
  ghost predicate Reports(f: Matches, ms: seq<Message>, clocks: seq<real>, low: Option<int>, high: Option<int>,
                          e: Emit)
    requires |ms| <= |clocks|
  {
    && e.at < |ms| && e.now == clocks[e.at]
    && (forall r | r in Pick(f, ms, e.at) :: InHistory(ms, r))
    && e.snapshot == Snapshot(|Pick(f, ms, e.at)|, Bytes(ms, Pick(f, ms, e.at)),
                              FractionAt(ms[e.at].id, low, high))
  }

  /** On a newest-first walk with both bounds the reported fractions never decrease, and always lie in 0..1. */
  lemma FractionsAdvance(f: Matches, ms: seq<Message>, clocks: seq<real>, low: Option<int>, high: Option<int>,
                         e: Emit, e': Emit)
    requires |ms| <= |clocks| && low.Some? && high.Some?
    requires forall i, j | 0 <= i < j < |ms| :: ms[j].id <= ms[i].id
    requires Reports(f, ms, clocks, low, high, e) && Reports(f, ms, clocks, low, high, e') && e.at <= e'.at
    ensures e.snapshot.fraction.Some? && e'.snapshot.fraction.Some?
    ensures 0.0 <= e.snapshot.fraction.value <= e'.snapshot.fraction.value <= 1.0
  {
    FractionRange(ms[e.at].id, low.value, high.value);
    FractionRange(ms[e'.at].id, low.value, high.value);
    FractionMonotone(ms[e.at].id, ms[e'.at].id, low.value, high.value);
  }

  // ---------------------------------------------------------------- the loops

  datatype Trace = Trace(members: seq<Member>, gets: seq<Ref>, released: seq<Ref>, emits: seq<Emit>)

  /** Every opened response was either released or handed to exactly one member. */
  ghost predicate Accounted(f: Matches, ms: seq<Message>, t: Trace, done: Ref) {
    && Increasing(t.gets) && Increasing(t.released)
    && (forall r :: r in t.gets <==> InHistory(ms, r) && Precedes(r, done) && Opened(f, ms, r))
    && (forall r :: r in t.released <==> InHistory(ms, r) && Precedes(r, done)
                                         && Opened(f, ms, r) && !Selected(f, ms, r))
  }

  /** The members so far are those of the positions picked, named after message and attachment. */
  ghost predicate Yielded(ms: seq<Message>, members: seq<Member>, picked: seq<Ref>) {
    && |members| == |picked|
    && forall j | 0 <= j < |picked| :: InHistory(ms, picked[j]) && members[j] == MemberAt(ms, picked[j])
  }

  lemma Appended(rs: seq<Ref>, r: Ref)
    requires Increasing(rs) && forall s | s in rs :: Precedes(s, r)
    ensures Increasing(rs + [r]) && forall s :: s in rs + [r] <==> s in rs || s == r
  {
  }

  lemma UpToNext(r: Ref)
    ensures forall s :: Precedes(s, Ref(r.i, r.k + 1)) <==> Precedes(s, r) || s == r
  {
  }

  /** One more attachment looked at: the accounts move on by its position. */
  lemma AccountStep(f: Matches, ms: seq<Message>, t: Trace, t': Trace, r: Ref)
    requires InHistory(ms, r) && Accounted(f, ms, t, r)
    requires t'.gets == if Opened(f, ms, r) then t.gets + [r] else t.gets
    requires t'.released == if Opened(f, ms, r) && !Selected(f, ms, r) then t.released + [r] else t.released
    ensures Accounted(f, ms, t', Ref(r.i, r.k + 1))
  {
    hide Opened, Selected, Increasing;
    Appended(t.gets, r);
    Appended(t.released, r);
    UpToNext(r);
    hide Precedes;
    forall s ensures s in t'.gets <==> InHistory(ms, s) && Precedes(s, Ref(r.i, r.k + 1)) && Opened(f, ms, s) {
    }
  }

  lemma NextMessage(f: Matches, ms: seq<Message>, t: Trace, i: nat)
    requires i < |ms| && Accounted(f, ms, t, Ref(i, |ms[i].attachments|))
    ensures Accounted(f, ms, t, Ref(i + 1, 0))
  {
  }

  /** What holds after k attachments of message i, with everything picked so far. */
  ghost predicate Inside(f: Matches, ms: seq<Message>, i: nat, k: nat,
                         t: Trace, done: nat, bytes: nat, picked: seq<Ref>) {
    && i < |ms| && k <= |ms[i].attachments|
    && picked == Pick(f, ms, i) + PickIn(f, ms, i, k)
    && (forall r | r in picked :: InHistory(ms, r))
    && Accounted(f, ms, t, Ref(i, k)) && Yielded(ms, t.members, picked)
    && done == |picked| && bytes == Bytes(ms, picked)
  }

  /** One attachment: not wanted, not reachable, refused, or a member. */
  function Look(f: Matches, ms: seq<Message>, r: Ref, t: Trace): Trace
    requires InHistory(ms, r)
  {
    if !Opened(f, ms, r) then t
    else if !Selected(f, ms, r) then t.(gets := t.gets + [r], released := t.released + [r])
    else t.(gets := t.gets + [r], members := t.members + [MemberAt(ms, r)])
  }

  lemma InsideStep(f: Matches, ms: seq<Message>, i: nat, k: nat,
                   t: Trace, done: nat, bytes: nat, picked: seq<Ref>)
    requires Inside(f, ms, i, k, t, done, bytes, picked) && k < |ms[i].attachments|
    ensures
      var r := Ref(i, k);
      if Selected(f, ms, r)
      then Inside(f, ms, i, k + 1, Look(f, ms, r, t), done + 1,
                  bytes + SizeOf(ms[i].attachments[k]), picked + [r])
      else Inside(f, ms, i, k + 1, Look(f, ms, r, t), done, bytes, picked)
  {
    hide Accounted, Pick, Bytes, MemberAt;
    var r := Ref(i, k);
    AccountStep(f, ms, t, Look(f, ms, r, t), r);
    BytesOneMore(ms, picked, r);
    if Selected(f, ms, r) {
      assert picked + [r] == Pick(f, ms, i) + PickIn(f, ms, i, k + 1);
    } else {
      assert picked == Pick(f, ms, i) + PickIn(f, ms, i, k + 1);
    }
  }

  /** What holds between two messages. */
  ghost predicate Between(f: Matches, ms: seq<Message>, i: nat, t: Trace, done: nat, bytes: nat) {
    && i <= |ms|
    && (forall r | r in Pick(f, ms, i) :: InHistory(ms, r))
    && Accounted(f, ms, t, Ref(i, 0)) && Yielded(ms, t.members, Pick(f, ms, i))
    && done == |Pick(f, ms, i)| && bytes == Bytes(ms, Pick(f, ms, i))
  }

  lemma EnterMessage(f: Matches, ms: seq<Message>, i: nat, t: Trace, done: nat, bytes: nat)
    requires i < |ms| && Between(f, ms, i, t, done, bytes)
    ensures Inside(f, ms, i, 0, t, done, bytes, Pick(f, ms, i))
  {
  }

  lemma LeaveMessage(f: Matches, ms: seq<Message>, i: nat, t: Trace, done: nat, bytes: nat, picked: seq<Ref>)
    requires i < |ms| && Inside(f, ms, i, |ms[i].attachments|, t, done, bytes, picked)
    ensures Between(f, ms, i + 1, t, done, bytes)
  {
    hide Accounted, Bytes, Yielded;
    assert picked == Pick(f, ms, i + 1);
    NextMessage(f, ms, t, i);
  }

  /** The emits are not part of these accounts. */
  lemma EmitKeepsBetween(f: Matches, ms: seq<Message>, i: nat, t: Trace, done: nat, bytes: nat, emits: seq<Emit>)
    requires Between(f, ms, i, t, done, bytes)
    ensures Between(f, ms, i, t.(emits := emits), done, bytes)
  {
  }

  /** The attachments of one message. */
  method Attachments(f: Matches, ms: seq<Message>, i: nat, t0: Trace, done0: nat, bytes0: nat)
    returns (t: Trace, done: nat, bytes: nat)
    requires i < |ms| && Between(f, ms, i, t0, done0, bytes0)
    ensures Between(f, ms, i + 1, t, done, bytes)
    ensures t.emits == t0.emits
  {
    hide Inside, Between, Pick;
    EnterMessage(f, ms, i, t0, done0, bytes0);
    t, done, bytes := t0, done0, bytes0;
    ghost var picked := Pick(f, ms, i);
    var m := ms[i];
    for k := 0 to |m.attachments|
      invariant Inside(f, ms, i, k, t, done, bytes, picked)
      invariant t.emits == t0.emits
    {
      var a := m.attachments[k];
      var r := Ref(i, k);
      InsideStep(f, ms, i, k, t, done, bytes, picked);
      if f.Some? && !f.value(a, m) {
        continue;
      }
      if a.reply.SetupError? {
        continue;
      }
      t := t.(gets := t.gets + [r]);
      if a.reply.code != 200 {
        t := t.(released := t.released + [r]);
        continue;
      }
      done, bytes := done + 1, bytes + (if a.size.Some? then a.size.value else 0);
      t := t.(members := t.members + [Member(IdString(m.id) + "_" + a.filename, m.createdAt, r)]);
      picked := picked + [r];
    }
    LeaveMessage(f, ms, i, t, done, bytes, picked);
  }

  lemma BytesOneMore(ms: seq<Message>, rs: seq<Ref>, r: Ref)
    requires (forall s | s in rs :: InHistory(ms, s)) && InHistory(ms, r)
    ensures forall s | s in rs + [r] :: InHistory(ms, s)
    ensures Bytes(ms, rs + [r]) == Bytes(ms, rs) + SizeOf(ms[r.i].attachments[r.k])
  {
  }

  /** The ticks so far: the due ones, each reporting what was yielded from earlier messages. */
  ghost predicate Ticked(f: Matches, ms: seq<Message>, clocks: seq<real>, start: real, throttle: real,
                         low: Option<int>, high: Option<int>, emits: seq<Emit>, n: nat)
    requires |clocks| == |ms| && n <= |ms|
  {
    && |emits| == |Due(clocks, start, throttle, n)|
    && (forall j | 0 <= j < |emits| :: emits[j].at == Due(clocks, start, throttle, n)[j])
    && (forall j | 0 <= j < |emits| :: Reports(f, ms, clocks, low, high, emits[j]))
  }

  lemma TickStep(f: Matches, ms: seq<Message>, clocks: seq<real>, start: real, throttle: real,
                 low: Option<int>, high: Option<int>, t: Trace, n: nat, done: nat, bytes: nat)
    requires |clocks| == |ms| && n < |ms| && Between(f, ms, n, t, done, bytes)
    requires Ticked(f, ms, clocks, start, throttle, low, high, t.emits, n)
    ensures
      var e := Emit(n, clocks[n], Snapshot(done, bytes, FractionAt(ms[n].id, low, high)));
      var last := LastTick(clocks, start, throttle, n);
      && (clocks[n] - last >= throttle ==>
            Ticked(f, ms, clocks, start, throttle, low, high, t.emits + [e], n + 1)
            && LastTick(clocks, start, throttle, n + 1) == clocks[n])
      && (clocks[n] - last < throttle ==>
            Ticked(f, ms, clocks, start, throttle, low, high, t.emits, n + 1)
            && LastTick(clocks, start, throttle, n + 1) == last)
  {
    hide Accounted, Yielded, HistoryFraction, Pick, Bytes;
  }

  /**
   The whole walk. `clocks` are the monotonic readings, one for each message, `failing`
   the messages at which the callback raises: that changes nothing but the warnings.
   */
  method Members(f: Matches, ms: seq<Message>, report: bool, start: real, clocks: seq<real>, throttle: real,
                 low: Option<int>, high: Option<int>, failing: set<nat>)
    returns (t: Trace, warnings: nat)
    requires |clocks| == |ms|
    ensures Yielded(ms, t.members, Pick(f, ms, |ms|))
    ensures Accounted(f, ms, t, Ref(|ms|, 0))
    ensures if report then Ticked(f, ms, clocks, start, throttle, low, high, t.emits, |ms|) else t.emits == []
  {
    t := Trace([], [], [], []);
    warnings := 0;
    var done, bytes := 0, 0;
    var lastEmit := start;
    BeforeWalk(f, ms, clocks, start, throttle, low, high);
    hide Between, Ticked, LastTick, Due, Accounted, Yielded, Pick, HistoryFraction, FractionAt;
    for i := 0 to |ms|
      invariant Between(f, ms, i, t, done, bytes)
      invariant lastEmit == if report then LastTick(clocks, start, throttle, i) else start
      invariant if report then Ticked(f, ms, clocks, start, throttle, low, high, t.emits, i) else t.emits == []
    {
      if report {
        TickStep(f, ms, clocks, start, throttle, low, high, t, i, done, bytes);
        var now := clocks[i];
        if now - lastEmit >= throttle {
          lastEmit := now;
          var fraction := FractionAt(ms[i].id, low, high);
          ghost var before := t;
          t := t.(emits := t.emits + [Emit(i, now, Snapshot(done, bytes, fraction))]);
          EmitKeepsBetween(f, ms, i, before, done, bytes, t.emits);
          if i in failing {
            warnings := warnings + 1;
          }
        }
      }
      t, done, bytes := Attachments(f, ms, i, t, done, bytes);
    }
    AfterWalk(f, ms, t, done, bytes);
  }

  lemma BeforeWalk(f: Matches, ms: seq<Message>, clocks: seq<real>, start: real, throttle: real,
                   low: Option<int>, high: Option<int>)
    requires |clocks| == |ms|
    ensures Between(f, ms, 0, Trace([], [], [], []), 0, 0)
    ensures Ticked(f, ms, clocks, start, throttle, low, high, [], 0)
    ensures LastTick(clocks, start, throttle, 0) == start
  {
  }

  lemma AfterWalk(f: Matches, ms: seq<Message>, t: Trace, done: nat, bytes: nat)
    requires Between(f, ms, |ms|, t, done, bytes)
    ensures Yielded(ms, t.members, Pick(f, ms, |ms|)) && Accounted(f, ms, t, Ref(|ms|, 0))
  {
  }

  /** The responses of a finished walk: each opened one was released or handed to exactly one member. */
  lemma EveryResponseOnce(f: Matches, ms: seq<Message>, t: Trace)
    requires Yielded(ms, t.members, Pick(f, ms, |ms|)) && Accounted(f, ms, t, Ref(|ms|, 0))
    ensures forall r :: r in t.gets <==> r in t.released || exists j :: 0 <= j < |t.members| && t.members[j].response == r
    ensures forall j | 0 <= j < |t.members| :: t.members[j].response !in t.released
    ensures forall j, j' | 0 <= j < j' < |t.members| :: Precedes(t.members[j].response, t.members[j'].response)
  {
    var picked := Pick(f, ms, |ms|);
    PickIsTheSelection(f, ms, |ms|);
    hide Pick;
    assert forall j | 0 <= j < |picked| :: t.members[j].response == picked[j];
    forall r ensures r in picked <==> exists j :: 0 <= j < |t.members| && t.members[j].response == r {
      if r in picked {
        var j :| 0 <= j < |picked| && picked[j] == r;
        assert t.members[j].response == r;
      }
    }
    forall r ensures r in t.gets <==> r in t.released || r in picked {
    }
  }

  // ---------------------------------------------------------------- the peek wrapper

  /** A stream of members ends when it is exhausted or with an exception. */
  datatype End = Exhausted | Raised

  datatype Peeked = Passed(members: seq<Member>, end: End) | NoMatchingAttachments

  /** Pull the first member; raise if there is none, else pass everything through. */
  method PeekOrRaiseEmpty(members: seq<Member>, end: End) returns (p: Peeked)
    ensures p == NoMatchingAttachments <==> members == [] && end.Exhausted?
    ensures p.Passed? ==> p.members == members && p.end == end
  {
    var first: Option<Member> := None;
    var i := 0;
    if i < |members| {
      first := Some(members[i]);
      i := i + 1;
    }
    if first.None? {
      if end.Raised? {
        return Passed([], Raised);
      }
      return NoMatchingAttachments;
    }
    var out := [first.value];
    while i < |members|
      invariant 1 <= i <= |members| && out == members[..i]
    {
      out := out + [members[i]];
      i := i + 1;
    }
    p := Passed(out, end);
  }

  /**
   The stream that is uploaded, as far as its members go: it raises if and only if the
   history ends and no attachment in it matches and answers 200. Otherwise it holds all that
   do, and ends as the history does; `ms` is what the history gives before it ends or fails.
   */
  method BuildZipStream(f: Matches, ms: seq<Message>, report: bool, start: real, clocks: seq<real>,
                        throttle: real, low: Option<int>, high: Option<int>, failing: set<nat>, end: End)
    returns (p: Peeked)
    requires |clocks| == |ms|
    ensures p == NoMatchingAttachments <==> end.Exhausted? && !exists r :: InHistory(ms, r) && Selected(f, ms, r)
    ensures p.Passed? ==> p.end == end && Yielded(ms, p.members, Pick(f, ms, |ms|))
  {
    hide Pick, Selected, Accounted, Ticked;
    var t, _ := Members(f, ms, report, start, clocks, throttle, low, high, failing);
    p := PeekOrRaiseEmpty(t.members, end);
    PickIsTheSelection(f, ms, |ms|);
    ghost var picked := Pick(f, ms, |ms|);
    assert picked != [] ==> picked[0] in picked;
  }

  // ---------------------------------------------------------------- streaming one response

  /** How a response's body behaves: complete, or failing after some chunks. */
  datatype Body = Body(chunks: seq<seq<bv8>>, failsAfter: Option<nat>)

  datatype Streamed = Complete | Abandoned | StreamError

  /**
   Yield the chunks to a consumer that takes at most `wanted` of them and then closes the
   stream. However it ends, the connection is released, once the stream was started.
   */
  method StreamResponse(b: Body, wanted: nat) returns (out: seq<seq<bv8>>, how: Streamed, releases: nat)
    ensures out <= b.chunks && |out| <= wanted
    ensures releases == if wanted == 0 then 0 else 1
    ensures how == Complete ==> out == b.chunks && b.failsAfter.None?
    ensures how == StreamError ==>
              b.failsAfter.Some?
              && |out| == if b.failsAfter.value <= |b.chunks| then b.failsAfter.value else |b.chunks|
    ensures how == Abandoned ==> |out| == wanted
  {
    out, releases := [], 0;
    if wanted == 0 {
      // a generator that is never started runs no cleanup
      return out, Abandoned, releases;
    }
    how := Complete;
    var i := 0;
    while i < |b.chunks| && how == Complete
      invariant 0 <= i <= |b.chunks| && out == b.chunks[..i] && |out| <= wanted
      invariant how == Complete ==> |out| < wanted
      invariant how == Abandoned ==> |out| == wanted
      invariant how == StreamError ==> b.failsAfter == Some(i)
      invariant how == Complete && b.failsAfter.Some? ==> i <= b.failsAfter.value
      decreases |b.chunks| - i, if how == Complete then 1 else 0
    {
      if b.failsAfter == Some(i) {
        how := StreamError;
      } else {
        out := out + [b.chunks[i]];
        i := i + 1;
        if |out| == wanted {
          how := Abandoned;
        }
      }
    }
    if how == Complete && b.failsAfter.Some? {
      how := StreamError;
    }
    releases := releases + 1;
  }
}
