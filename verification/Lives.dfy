/** The life of one letter in either backend: what a step may make of it, and what follows for
    every sequence of such steps. */
module Lives {
  import opened Basics
  import opened Lifecycle
  import opened Simulation
  import opened Agreement

  // ---------- one step ----------

  /** What a store step may make of a stored letter: nothing, or the event of what was asked. */
  ghost predicate MayBecome(b: Backend, m: Letter, op: Op, now: nat, n: Letter) {
    n == m
    || match op
       case DoTouch(_, _, lop) => n == BackendOp(b, m, lop, now)
       case DoPoll(_, _) => n == BackendOp(b, m, OpDeliver, now)
       case DoRevive(_) => n == Fire(m, ReviveAuth, now)
       case _ => false
  }

  /** One step, seen from the place of one letter: letters appear only new and by being sent. */
  ghost predicate Turn(b: Backend, before: Option<Letter>, e: Timed, after: Option<Letter>) {
    match (before, after)
    case (Some(m), Some(n)) => MayBecome(b, m, e.op, e.at, n)
    case (None, Some(n)) => e.op == DoPush(n) && IsNew(n) && n.createdAt <= e.at
    case _ => true
  }

  /** A letter's place before and after each step of a run. */
  type Life = seq<Option<Letter>>

  ghost predicate Lived(b: Backend, life: Life, run: seq<Timed>) {
    |life| == |run| + 1 && forall k :: 0 <= k < |run| ==> Turn(b, life[k], run[k], life[k + 1])
  }

  /** The letter is there all the time. */
  ghost predicate Stays(life: Life) { forall k :: 0 <= k < |life| ==> life[k].Some? }

  lemma {:induction false} LivedOn(b: Backend, life: Life, run: seq<Timed>)
    requires Lived(b, life, run) && run != []
    ensures Turn(b, life[0], run[0], life[1]) && Lived(b, life[1..], run[1..])
    ensures Stays(life) ==> Stays(life[1..])
  {
    forall k | 0 <= k < |run| - 1 ensures Turn(b, life[1..][k], run[1..][k], life[1..][k + 1]) {
      assert Turn(b, life[k + 1], run[k + 1], life[k + 2]);
    }
  }

  lemma {:induction false} LivedFrom(b: Backend, first: Option<Letter>, e: Timed, rest: Life, run: seq<Timed>)
    requires Lived(b, rest, run) && Turn(b, first, e, rest[0])
    ensures Lived(b, [first] + rest, [e] + run)
  {
    var life, whole := [first] + rest, [e] + run;
    forall k | 0 <= k < |whole| ensures Turn(b, life[k], whole[k], life[k + 1]) {
      if 0 < k {
        assert Turn(b, rest[k - 1], run[k - 1], rest[k]);
      }
    }
  }

  // ---------- the table ----------

  /** In either backend, whatever an operation does to a letter's status is a row of the
      table: the row of its event, or nothing. */
  lemma {:induction false} OpIsRow(b: Backend, m: Letter, lop: LetterOp, now: nat)
    ensures var n := BackendOp(b, m, lop, now);
            n.status == m.status || Row(m.status, EventFor(m, lop), n.status)
  {
    TableVerdicts(m.status, EventFor(m, lop));
    assert EarlyWrites(m, EventFor(m, lop)).status == m.status;
  }

  ghost predicate IsRow(from: Status, to: Status) { from == to || exists e :: Row(from, e, to) }

  lemma {:induction false} TurnIsRow(b: Backend, m: Letter, op: Op, now: nat, n: Letter)
    requires MayBecome(b, m, op, now, n)
    ensures IsRow(m.status, n.status)
  {
    if n != m {
      match op {
        case DoTouch(_, _, lop) => OpIsRow(b, m, lop, now);
        case DoPoll(_, _) => OpIsRow(b, m, OpDeliver, now);
        case DoRevive(_) => TableVerdicts(m.status, ReviveAuth);
        case _ =>
      }
    }
  }

  // ---------- settled letters ----------

  function Rank(s: Status): nat {
    match s
    case Delivered => 1
    case Read => 2
    case Acked => 3
    case _ => 0
  }

  /** Moves along the table never go back from a settled state, and from Acked or Dead there is
      one move at most. */
  lemma {:induction false} RowsGoForward(from: Status, e: Event, to: Status)
    requires Row(from, e, to)
    ensures HandedOver(from) ==> Rank(from) < Rank(to)
    ensures from != Acked
    ensures from == Dead ==> e.ReviveAuth?
  {
    TableVerdicts(from, e);
  }

  lemma {:induction false} TurnGoesForward(b: Backend, m: Letter, op: Op, now: nat, n: Letter)
    requires MayBecome(b, m, op, now, n) && HandedOver(m.status)
    ensures HandedOver(n.status) && Rank(m.status) <= Rank(n.status)
  {
    TurnIsRow(b, m, op, now, n);
    if m.status != n.status {
      var e :| Row(m.status, e, n.status);
      RowsGoForward(m.status, e, n.status);
    }
  }

  /** Once settled, a letter never goes back while it is stored. */
  lemma {:induction false} LifeGoesForward(b: Backend, life: Life, run: seq<Timed>)
    requires Lived(b, life, run) && Stays(life) && HandedOver(life[0].value.status)
    ensures HandedOver(life[|run|].value.status) && Rank(life[0].value.status) <= Rank(life[|run|].value.status)
    decreases |run|
  {
    if run != [] {
      LivedOn(b, life, run);
      TurnGoesForward(b, life[0].value, run[0].op, run[0].at, life[1].value);
      LifeGoesForward(b, life[1..], run[1..]);
    }
  }

  /** How often the letter enters Delivered. */
  ghost function Arrivals(life: Life): nat
    requires Stays(life)
    decreases |life|
  {
    if |life| < 2 then 0
    else One(life[0].value.status != Delivered && life[1].value.status == Delivered) + Arrivals(life[1..])
  }

  /** A letter is delivered at most once while it is stored, and not again if it was before. */
  lemma {:induction false} LifeDeliversOnce(b: Backend, life: Life, run: seq<Timed>)
    requires Lived(b, life, run) && Stays(life)
    ensures Arrivals(life) + One(HandedOver(life[0].value.status)) <= 1
    decreases |run|
  {
    if run != [] {
      LivedOn(b, life, run);
      LifeDeliversOnce(b, life[1..], run[1..]);
      if HandedOver(life[0].value.status) {
        TurnGoesForward(b, life[0].value, run[0].op, run[0].at, life[1].value);
        TurnIsRow(b, life[0].value, run[0].op, run[0].at, life[1].value);
        assert life[0].value.status != Delivered ==> Rank(life[1].value.status) > 1;
      }
    }
  }

  /** What late or repeated push outcomes, claims, polls, kills and revivals may do to a settled
      letter, in either backend: nothing but leave a diagnostic. */
  lemma {:induction false} LateOutcomeChangesNothing(b: Backend, m: Letter, lop: LetterOp, now: nat)
    requires HandedOver(m.status) && !lop.OpRead? && !lop.OpAck?
    ensures Core(BackendOp(b, m, lop, now)) == Core(m)
  {
    var e := EventFor(m, lop);
    assert Apply(m.status, e).Illegal?;
    match b
    case Memory => assert Core(EarlyWrites(m, e)) == Core(m);
    case Sled => LateInTree(m, lop, now);
  }

  lemma {:induction false} LateInTree(m: Letter, lop: LetterOp, now: nat)
    requires Apply(m.status, EventFor(m, lop)).Illegal?
    ensures Core(BackendOp(Sled, m, lop, now)) == Core(m)
  {
    match lop
    case OpPushFailed(reason) => assert Core(m.(lastError := Some(reason))) == Core(m);
    case OpReclaim(reason) => assert Core(m.(lastError := Some(reason))) == Core(m);
    case _ =>
  }

  lemma {:induction false} AckedOp(b: Backend, m: Letter, lop: LetterOp, now: nat)
    requires m.status == Acked
    ensures Core(BackendOp(b, m, lop, now)) == Core(m)
  {
    assert Apply(m.status, EventFor(m, lop)).Illegal?;
  }

  lemma {:induction false} AckedTurn(b: Backend, m: Letter, op: Op, now: nat, n: Letter)
    requires MayBecome(b, m, op, now, n) && m.status == Acked
    ensures Core(n) == Core(m) && n.status == Acked
  {
    if n != m {
      match op {
        case DoTouch(_, _, lop) => AckedOp(b, m, lop, now);
        case DoPoll(_, _) => AckedOp(b, m, OpDeliver, now);
        case _ =>
      }
    }
    assert Core(n).status == n.status && Core(m).status == m.status;
  }

  /** Once filed, a letter keeps its status, its note and all its times for good. */
  lemma {:induction false} LifeEndsAcked(b: Backend, life: Life, run: seq<Timed>)
    requires Lived(b, life, run) && Stays(life) && life[0].value.status == Acked
    ensures Core(life[|run|].value) == Core(life[0].value)
    decreases |run|
  {
    if run != [] {
      LivedOn(b, life, run);
      AckedTurn(b, life[0].value, run[0].op, run[0].at, life[1].value);
      LifeEndsAcked(b, life[1..], run[1..]);
    }
  }

  // ---------- dead letters ----------

  predicate IsRevival(op: Op) { op.DoRevive? || (op.DoTouch? && op.op.OpRevive?) }

  /** Only a revival takes a letter out of Dead. */
  lemma {:induction false} DeadTurn(b: Backend, m: Letter, op: Op, now: nat, n: Letter)
    requires MayBecome(b, m, op, now, n) && m.status == Dead && n.status != Dead
    ensures IsRevival(op)
  {
    if op.DoTouch? {
      OpIsRow(b, m, op.op, now);
      RowsGoForward(Dead, EventFor(m, op.op), n.status);
    } else if op.DoPoll? {
      OpIsRow(b, m, OpDeliver, now);
      RowsGoForward(Dead, EventFor(m, OpDeliver), n.status);
    }
  }

  lemma {:induction false} LifeStaysDead(b: Backend, life: Life, run: seq<Timed>)
    requires Lived(b, life, run) && Stays(life) && life[0].value.status == Dead
    requires forall k :: 0 <= k < |run| ==> !IsRevival(run[k].op)
    ensures life[|run|].value.status == Dead
    decreases |run|
  {
    if run != [] {
      LivedOn(b, life, run);
      if life[1].value.status != Dead {
        DeadTurn(b, life[0].value, run[0].op, run[0].at, life[1].value);
      }
      LifeStaysDead(b, life[1..], run[1..]);
    }
  }

  // ---------- times ----------

  /** The life of a letter as its times tell it, at a given moment. */
  ghost predicate Chained(m: Letter, clock: nat) {
    && (m.deliveredAt.Some? <==> HandedOver(m.status))
    && (m.readAt.Some? <==> m.status == Read || m.status == Acked)
    && (m.ackedAt.Some? <==> m.status == Acked)
    && (m.ackNote.Some? <==> m.status == Acked)
    && (m.status == Pushing ==> m.lastPushAt.Some?)
    && (m.status == Dead ==> m.deadReason.Some?)
    && m.createdAt <= clock
    && (m.deliveredAt.Some? ==> m.createdAt <= m.deliveredAt.value <= clock)
    && (m.readAt.Some? ==> m.deliveredAt.value <= m.readAt.value <= clock)
    && (m.ackedAt.Some? ==> m.readAt.value <= m.ackedAt.value <= clock)
    && (m.ackNote.Some? ==> |m.ackNote.value| <= 80)
  }

  /** Times that are set are never rewritten. */
  predicate StampsKept(m: Letter, n: Letter) {
    && (m.deliveredAt.Some? ==> n.deliveredAt == m.deliveredAt)
    && (m.readAt.Some? ==> n.readAt == m.readAt)
    && (m.ackedAt.Some? ==> n.ackedAt == m.ackedAt && n.ackNote == m.ackNote)
  }

  lemma {:induction false} FireKeepsChain(m: Letter, e: Event, clock: nat, now: nat)
    requires Chained(m, clock) && clock <= now && (e.Ack? ==> e.note.Some?)
    ensures Chained(Fire(m, e, now), now) && StampsKept(m, Fire(m, e, now))
  {
    if HandedOver(m.status) {
      LateKeepsChain(m, e, clock, now);
    } else {
      EarlyStageKeepsChain(m, e, clock, now);
    }
  }

  lemma {:induction false} EarlyStageKeepsChain(m: Letter, e: Event, clock: nat, now: nat)
    requires Chained(m, clock) && clock <= now && !HandedOver(m.status)
    ensures Chained(Fire(m, e, now), now) && StampsKept(m, Fire(m, e, now))
  {
    match m.status
    case Queued =>
    case Pushing =>
    case Dead =>
  }

  lemma {:induction false} LateKeepsChain(m: Letter, e: Event, clock: nat, now: nat)
    requires Chained(m, clock) && clock <= now && (e.Ack? ==> e.note.Some?) && HandedOver(m.status)
    ensures Chained(Fire(m, e, now), now) && StampsKept(m, Fire(m, e, now))
  {
    match m.status
    case Delivered =>
    case Read =>
    case Acked =>
  }

  /** Diagnostics are no part of the chain, except for the reason of a dead letter. */
  lemma {:induction false} NotingKeepsChain(m: Letter, lastError: Option<string>, clock: nat)
    requires Chained(m, clock)
    ensures var n := m.(lastError := lastError); Chained(n, clock) && StampsKept(m, n)
  {}

  lemma {:induction false} EarlyKeepsChain(m: Letter, e: Event, clock: nat)
    requires Chained(m, clock)
    ensures var n := EarlyWrites(m, e);
            && Chained(n, clock) && n.status == m.status
            && n.deliveredAt == m.deliveredAt && n.readAt == m.readAt && n.ackedAt == m.ackedAt && n.ackNote == m.ackNote
  {}

  lemma {:induction false} MemoryKeepsChain(m: Letter, lop: LetterOp, clock: nat, now: nat)
    requires Chained(m, clock) && clock <= now
    ensures var n := BackendOp(Memory, m, lop, now); Chained(n, now) && StampsKept(m, n)
  {
    var e := EventFor(m, lop);
    EarlyKeepsChain(m, e, clock);
    if Offered(m, lop) {
      FireKeepsChain(EarlyWrites(m, e), e, clock, now);
    }
  }

  lemma {:induction false} SledKeepsChain(m: Letter, noted: Letter, lop: LetterOp, clock: nat, now: nat)
    requires Chained(m, clock) && clock <= now && noted == m.(lastError := noted.lastError)
    requires EventFor(noted, lop).Ack? ==> EventFor(noted, lop).note.Some?
    ensures var n := RefOp(noted, lop, now); Chained(n, now) && StampsKept(m, n)
  {
    NotingKeepsChain(m, noted.lastError, clock);
    if Offered(noted, lop) {
      FireKeepsChain(noted, EventFor(noted, lop), clock, now);
    }
  }

  lemma {:induction false} OpKeepsChain(b: Backend, m: Letter, lop: LetterOp, clock: nat, now: nat)
    requires Chained(m, clock) && clock <= now
    ensures var n := BackendOp(b, m, lop, now); Chained(n, now) && StampsKept(m, n)
  {
    match b
    case Memory => MemoryKeepsChain(m, lop, clock, now);
    case Sled =>
      var noted := match lop
        case OpPushFailed(reason) => m.(lastError := Some(reason))
        case OpReclaim(reason) => m.(lastError := Some(reason))
        case _ => m;
      SledKeepsChain(m, noted, lop, clock, now);
  }

  lemma {:induction false} TurnKeepsChain(b: Backend, m: Letter, op: Op, clock: nat, now: nat, n: Letter)
    requires MayBecome(b, m, op, now, n) && Chained(m, clock) && clock <= now
    ensures Chained(n, now) && StampsKept(m, n)
  {
    if n != m {
      match op {
        case DoTouch(_, _, lop) => OpKeepsChain(b, m, lop, clock, now);
        case DoPoll(_, _) => OpKeepsChain(b, m, OpDeliver, clock, now);
        case DoRevive(_) => FireKeepsChain(m, ReviveAuth, clock, now);
        case _ =>
      }
    }
  }

  ghost predicate ClockRuns(run: seq<Timed>, clock: nat) {
    run != [] ==> clock <= run[0].at && ClockRuns(run[1..], run[0].at)
  }

  ghost function ClockAfter(run: seq<Timed>, clock: nat): nat {
    if run == [] then clock else ClockAfter(run[1..], run[0].at)
  }

  lemma {:induction false} StepKeepsChain(b: Backend, before: Option<Letter>, e: Timed, after: Option<Letter>, clock: nat)
    requires Turn(b, before, e, after) && clock <= e.at && (before.Some? ==> Chained(before.value, clock))
    ensures after.Some? ==> Chained(after.value, e.at)
    ensures before.Some? && after.Some? ==> StampsKept(before.value, after.value)
  {
    if before.Some? && after.Some? {
      TurnKeepsChain(b, before.value, e.op, clock, e.at, after.value);
    }
  }

  /** Under a clock that does not go back, the times of a letter always form the chain of its
      status. */
  lemma {:induction false} LifeIsChained(b: Backend, life: Life, run: seq<Timed>, clock: nat)
    requires Lived(b, life, run) && ClockRuns(run, clock)
    requires life[0].Some? ==> Chained(life[0].value, clock)
    ensures life[|run|].Some? ==> Chained(life[|run|].value, ClockAfter(run, clock))
    decreases |run|
  {
    if run != [] {
      LivedOn(b, life, run);
      StepKeepsChain(b, life[0], run[0], life[1], clock);
      LifeIsChained(b, life[1..], run[1..], run[0].at);
    }
  }

  /** While a letter is stored, a time once set is the one it ends with. */
  lemma {:induction false} LifeKeepsStamps(b: Backend, life: Life, run: seq<Timed>, clock: nat)
    requires Lived(b, life, run) && ClockRuns(run, clock) && Stays(life) && Chained(life[0].value, clock)
    ensures StampsKept(life[0].value, life[|run|].value)
    decreases |run|
  {
    if run != [] {
      LivedOn(b, life, run);
      StepKeepsChain(b, life[0], run[0], life[1], clock);
      LifeKeepsStamps(b, life[1..], run[1..], run[0].at);
    }
  }
}
