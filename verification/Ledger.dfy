/** Safety over whole runs of the in-memory store, letter by letter: its life follows the table,
    claims balance, and the times form a chain. */
module Ledger {
  import opened Basics
  import opened Lifecycle
  import opened Mailbox
  import opened MemoryStore
  import opened Simulation
  import opened Agreement
  import opened Histories
  import opened Lives

  // ---------- runs ----------

  ghost predicate RunSendable(cap: nat, boxes: Boxes, run: seq<Timed>)
    decreases |run|
  {
    run != [] ==>
      && Sendable(boxes, run[0].op, run[0].at)
      && RunSendable(cap, MemoryNext(cap, boxes, run[0].op, run[0].at), run[1..])
  }

  /** No step of the run removes the letter. */
  ghost predicate NeverRemoved(run: seq<Timed>, id: string) {
    forall k :: 0 <= k < |run| ==> !run[k].op.DoDeleteAll? && run[k].op != DoDelete(id)
  }

  lemma {:induction false} KeptStep(cap: nat, boxes: Boxes, op: Op, now: nat, id: string)
    requires WellFormed(boxes) && Sendable(boxes, op, now) && LetterOf(boxes, id).Some?
    requires !op.DoDeleteAll? && op != DoDelete(id)
    ensures LetterOf(MemoryNext(cap, boxes, op, now), id).Some?
  {
    StoredStep(cap, boxes, op, now, id);
    HomeOf(boxes, id);
  }

  /** What became of the letter with an id, step by step. */
  ghost function MemoryLife(cap: nat, boxes: Boxes, run: seq<Timed>, id: string): (life: Life)
    ensures |life| == |run| + 1
    decreases |run|
  {
    [LetterOf(boxes, id)]
    + if run == [] then [] else MemoryLife(cap, MemoryNext(cap, boxes, run[0].op, run[0].at), run[1..], id)
  }

  // ---------- the table governs every step ----------

  lemma {:induction false} StepIsTurn(m: Letter, op: Op, now: nat, after: Option<Letter>)
    requires LetterStep(m, op, now, after)
    ensures Turn(Memory, Some(m), Timed(op, now), after)
  {
    if op.DoRevive? && Revivable(m) {
      assert ReviveLetter(m) == Fire(m, ReviveAuth, now);
    }
  }

  lemma {:induction false} MemoryTurn(cap: nat, boxes: Boxes, op: Op, now: nat, id: string)
    requires WellFormed(boxes) && Sendable(boxes, op, now)
    ensures Turn(Memory, LetterOf(boxes, id), Timed(op, now), LetterOf(MemoryNext(cap, boxes, op, now), id))
  {
    if LetterOf(boxes, id).Some? {
      StoredStep(cap, boxes, op, now, id);
      StepIsTurn(LetterOf(boxes, id).value, op, now, LetterOf(MemoryNext(cap, boxes, op, now), id));
    } else {
      AbsentStep(cap, boxes, op, now, id);
    }
  }

  /** In the in-memory store every letter lives by the table. */
  lemma {:induction false} MemoryLived(cap: nat, boxes: Boxes, run: seq<Timed>, id: string)
    requires WellFormed(boxes) && RunSendable(cap, boxes, run)
    ensures Lived(Memory, MemoryLife(cap, boxes, run, id), run)
    ensures MemoryLife(cap, boxes, run, id)[0] == LetterOf(boxes, id)
    ensures MemoryLife(cap, boxes, run, id)[|run|] == LetterOf(MemoryAfter(cap, boxes, run), id)
    decreases |run|
  {
    if run != [] {
      var next := MemoryNext(cap, boxes, run[0].op, run[0].at);
      MemoryTurn(cap, boxes, run[0].op, run[0].at, id);
      StepWellFormed(cap, boxes, run[0].op, run[0].at);
      MemoryLived(cap, next, run[1..], id);
      LivedFrom(Memory, LetterOf(boxes, id), run[0], MemoryLife(cap, next, run[1..], id), run[1..]);
      assert [run[0]] + run[1..] == run;
      assert MemoryLife(cap, boxes, run, id) == [LetterOf(boxes, id)] + MemoryLife(cap, next, run[1..], id);
    }
  }

  lemma {:induction false} MemoryStays(cap: nat, boxes: Boxes, run: seq<Timed>, id: string)
    requires WellFormed(boxes) && RunSendable(cap, boxes, run) && NeverRemoved(run, id) && LetterOf(boxes, id).Some?
    ensures Stays(MemoryLife(cap, boxes, run, id))
    decreases |run|
  {
    if run != [] {
      KeptStep(cap, boxes, run[0].op, run[0].at, id);
      StepWellFormed(cap, boxes, run[0].op, run[0].at);
      MemoryStays(cap, MemoryNext(cap, boxes, run[0].op, run[0].at), run[1..], id);
    }
  }

  /** Whatever a step of the in-memory store does to a letter's status is a row of the table. */
  lemma {:induction false} EveryMoveIsRow(cap: nat, boxes: Boxes, op: Op, now: nat, id: string)
    requires WellFormed(boxes) && Sendable(boxes, op, now)
    ensures var before, after := LetterOf(boxes, id), LetterOf(MemoryNext(cap, boxes, op, now), id);
            before.Some? && after.Some? ==> IsRow(before.value.status, after.value.status)
  {
    var before, after := LetterOf(boxes, id), LetterOf(MemoryNext(cap, boxes, op, now), id);
    MemoryTurn(cap, boxes, op, now, id);
    if before.Some? && after.Some? {
      TurnIsRow(Memory, before.value, op, now, after.value);
    }
  }

  // ---------- the claim ledger ----------

  /** Counted since the letter was sent: claims won, departures from Pushing by where they
      lead, claims won since the last revival, and arrivals in Delivered. */
  datatype Account = Account(wins: nat, ok: nat, back: nat, gaveUp: nat, since: nat, deliveries: nat) {
    function Exits(): nat { ok + back + gaveUp }
  }

  function Blank(): Account { Account(0, 0, 0, 0, 0, 0) }

  /** The entry for a letter that was m, is now n, and whose claim was or was not won. */
  function Entered(acc: Account, m: Letter, n: Letter, won: bool): Account {
    Account(acc.wins + One(won),
            acc.ok + One(m.status == Pushing && n.status == Delivered),
            acc.back + One(m.status == Pushing && n.status == Queued),
            acc.gaveUp + One(m.status == Pushing && n.status == Dead),
            if m.status == Dead && n.status == Queued then 0 else acc.since + One(won),
            acc.deliveries + One(m.status != Delivered && n.status == Delivered))
  }

  /** One step of bookkeeping, from the answers callers get and the statuses they can see;
      an account is opened and closed with its letter. */
  function Entry(before: Option<Letter>, after: Option<Letter>, won: bool, acc: Account): Account {
    if before.Some? && after.Some? then Entered(acc, before.value, after.value, won) else Blank()
  }

  ghost function Booked(cap: nat, boxes: Boxes, op: Op, now: nat, id: string, acc: Account): Account {
    Entry(LetterOf(boxes, id), LetterOf(MemoryNext(cap, boxes, op, now), id), ClaimWon(boxes, op, id), acc)
  }

  /** A claim of this letter was answered `true`. */
  predicate ClaimWon(boxes: Boxes, op: Op, id: string) {
    op.DoTouch? && op.id == id && op.op.OpClaim? && ClaimReply(BoxOf(boxes, op.agent), id) == Ok(true)
  }

  ghost function Books(cap: nat, boxes: Boxes, run: seq<Timed>, id: string, acc: Account): Account
    decreases |run|
  {
    if run == [] then acc
    else Books(cap, MemoryNext(cap, boxes, run[0].op, run[0].at), run[1..], id, Booked(cap, boxes, run[0].op, run[0].at, id, acc))
  }

  predicate Balanced(letter: Option<Letter>, acc: Account) {
    match letter
    case None => acc == Blank()
    case Some(m) =>
      && acc.wins == acc.Exits() + One(m.status == Pushing)
      && m.attempts == acc.since
      && acc.deliveries == One(HandedOver(m.status))
  }

  /** A claim is answered `true` exactly when it finds this letter queued, under its receiver. */
  lemma {:induction false} WonMeansQueued(boxes: Boxes, a: string, id: string)
    requires WellFormed(boxes) && LetterOf(boxes, id).Some?
    ensures var m := LetterOf(boxes, id).value;
            ClaimReply(BoxOf(boxes, a), id) == Ok(true) <==> a == m.receiver && m.status == Queued
  {
    var m := LetterOf(boxes, id).value;
    HomeOf(boxes, id);
    var box := BoxOf(boxes, a);
    var i := IndexOf(box, id);
    if i < |box| {
      TheLetter(boxes, a, box[i]);
      assert box[i].receiver == a;
    } else {
      assert forall k :: 0 <= k < |box| ==> box[k].id != id;
    }
  }

  lemma {:induction false} FireBalances(m: Letter, e: Event, now: nat, acc: Account)
    requires Balanced(Some(m), acc)
    ensures Balanced(Some(Fire(m, e, now)), Entered(acc, m, Fire(m, e, now), e.PushStarted? && m.status == Queued))
  {
    if HandedOver(m.status) {
      LateBalances(m, e, now, acc);
    } else {
      EarlyBalances(m, e, now, acc);
    }
  }

  lemma {:induction false} EarlyBalances(m: Letter, e: Event, now: nat, acc: Account)
    requires Balanced(Some(m), acc) && !HandedOver(m.status)
    ensures Balanced(Some(Fire(m, e, now)), Entered(acc, m, Fire(m, e, now), e.PushStarted? && m.status == Queued))
  {
    match m.status
    case Queued =>
    case Pushing =>
    case Dead =>
  }

  lemma {:induction false} LateBalances(m: Letter, e: Event, now: nat, acc: Account)
    requires Balanced(Some(m), acc) && HandedOver(m.status)
    ensures Balanced(Some(Fire(m, e, now)), Entered(acc, m, Fire(m, e, now), false))
  {
    match m.status
    case Delivered =>
    case Read =>
    case Acked =>
  }

  lemma {:induction false} OpBalances(m: Letter, lop: LetterOp, now: nat, acc: Account)
    requires Balanced(Some(m), acc)
    ensures var n := BackendOp(Memory, m, lop, now);
            Balanced(Some(n), Entered(acc, m, n, lop.OpClaim? && m.status == Queued))
  {
    var e := EventFor(m, lop);
    if Offered(m, lop) {
      FireBalances(EarlyWrites(m, e), e, now, acc);
    }
  }

  lemma {:induction false} StoredBalances(m: Letter, op: Op, now: nat, after: Option<Letter>, won: bool, acc: Account)
    requires Balanced(Some(m), acc) && LetterStep(m, op, now, after)
    requires won <==> op == DoTouch(m.receiver, m.id, OpClaim) && m.status == Queued
    ensures Balanced(after, Entry(Some(m), after, won, acc))
  {
    assert Entered(acc, m, m, false) == acc;
    match op {
      case DoTouch(a, i, lop) => OpBalances(m, lop, now, acc);
      case DoPoll(a, limit) => OpBalances(m, OpDeliver, now, acc);
      case DoRevive(a) =>
        ReviveFollowsTable(Memory, m, now);
        OpBalances(m, OpRevive, now, acc);
      case _ =>
    }
  }

  lemma {:induction false} NewBalances(after: Option<Letter>)
    requires after.Some? ==> IsNew(after.value)
    ensures Balanced(after, Blank())
  {}

  lemma {:induction false} BalancedStep(cap: nat, boxes: Boxes, op: Op, now: nat, id: string, acc: Account)
    requires WellFormed(boxes) && Sendable(boxes, op, now) && Balanced(LetterOf(boxes, id), acc)
    ensures Balanced(LetterOf(MemoryNext(cap, boxes, op, now), id), Booked(cap, boxes, op, now, id, acc))
  {
    if LetterOf(boxes, id).Some? {
      var m := LetterOf(boxes, id).value;
      StoredStep(cap, boxes, op, now, id);
      assert m.id == id by { HomeOf(boxes, id); }
      if op.DoTouch? {
        WonMeansQueued(boxes, op.agent, id);
      }
      StoredBalances(m, op, now, LetterOf(MemoryNext(cap, boxes, op, now), id), ClaimWon(boxes, op, id), acc);
    } else {
      var after := LetterOf(MemoryNext(cap, boxes, op, now), id);
      assert after.Some? ==> IsNew(after.value) by { AbsentStep(cap, boxes, op, now, id); }
      NewBalances(after);
    }
  }

  /** Claim accounting, over every interleaving: claims won equal departures from Pushing plus
      the one in flight, `attempts` counts the claims won since the last revival, and a letter
      is delivered at most once. */
  lemma {:induction false} ClaimsBalance(cap: nat, boxes: Boxes, run: seq<Timed>, id: string, acc: Account)
    requires WellFormed(boxes) && RunSendable(cap, boxes, run) && Balanced(LetterOf(boxes, id), acc)
    ensures Balanced(LetterOf(MemoryAfter(cap, boxes, run), id), Books(cap, boxes, run, id, acc))
    decreases |run|
  {
    if run != [] {
      var next := MemoryNext(cap, boxes, run[0].op, run[0].at);
      BalancedStep(cap, boxes, run[0].op, run[0].at, id, acc);
      StepWellFormed(cap, boxes, run[0].op, run[0].at);
      ClaimsBalance(cap, next, run[1..], id, Booked(cap, boxes, run[0].op, run[0].at, id, acc));
    }
  }

  /** From the empty store on: the claims that are out at any moment number one or none. */
  lemma {:induction false} ClaimsNeverOverlap(cap: nat, run: seq<Timed>, id: string)
    requires RunSendable(cap, map[], run)
    ensures var acc, letter := Books(cap, map[], run, id, Blank()), LetterOf(MemoryAfter(cap, map[], run), id);
            && 0 <= acc.wins - acc.Exits() <= 1
            && (acc.wins - acc.Exits() == 1 <==> letter.Some? && letter.value.status == Pushing)
            && (letter.Some? ==> letter.value.attempts == acc.since)
            && acc.deliveries <= 1
  {
    var none: Boxes := map[];
    assert LetterOf(none, id) == None by { NoLetter(none, id); }
    NewBalances(LetterOf(none, id));
    ClaimsBalance(cap, none, run, id, Blank());
  }

  // ---------- settled and dead letters ----------

  /** A dead letter answers to nothing but revival. */
  lemma {:induction false} DeadAnswersToRevivalOnly(m: Letter, lop: LetterOp, now: nat)
    requires m.status == Dead
    ensures BackendOp(Memory, m, lop, now).status != Dead <==> lop.OpRevive? && DiedOnAuth(m)
  {}

  /** A failed push kills exactly when the attempts are used up, the reason is not a credential
      problem, and the letter is queued or in flight. */
  lemma {:induction false} WhenPushFailureKills(b: Backend, m: Letter, reason: string, now: nat)
    requires m.status != Dead
    ensures BackendOp(b, m, OpPushFailed(reason), now).status == Dead <==>
            m.attempts >= 8 && !IsAuth(reason) && (m.status == Queued || m.status == Pushing)
  {
    match m.status
    case Queued =>
    case Pushing =>
    case Delivered =>
    case Read =>
    case Acked =>
  }

  /** Giving up on a dead letter again decides in memory whether it can be revived later, by
      the new reason; in the tree the first reason stands. */
  lemma {:induction false} SecondKillDecidesRevival(m: Letter, reason: string, now: nat)
    requires m.status == Dead
    ensures Revivable(BackendOp(Memory, m, OpKill(reason), now)) <==> IsAuth(reason)
    ensures Revivable(BackendOp(Sled, m, OpKill(reason), now)) <==> Revivable(m)
  {
    assert Apply(Dead, GiveUp(reason)).Illegal?;
  }

  /** Over any run, once filed, a letter keeps its status, its note and all its times. */
  lemma {:induction false} AckedIsFinal(cap: nat, boxes: Boxes, run: seq<Timed>, id: string)
    requires WellFormed(boxes) && RunSendable(cap, boxes, run) && NeverRemoved(run, id)
    requires LetterOf(boxes, id).Some? && LetterOf(boxes, id).value.status == Acked
    ensures var after := LetterOf(MemoryAfter(cap, boxes, run), id);
            after.Some? && Core(after.value) == Core(LetterOf(boxes, id).value)
  {
    MemoryLived(cap, boxes, run, id);
    MemoryStays(cap, boxes, run, id);
    LifeEndsAcked(Memory, MemoryLife(cap, boxes, run, id), run);
  }

  /** Without a revival for its receiver, a dead letter stays dead over any run. */
  lemma {:induction false} DeadStaysDead(cap: nat, boxes: Boxes, run: seq<Timed>, id: string)
    requires WellFormed(boxes) && RunSendable(cap, boxes, run) && NeverRemoved(run, id)
    requires LetterOf(boxes, id).Some? && LetterOf(boxes, id).value.status == Dead
    requires forall k :: 0 <= k < |run| ==>
               run[k].op != DoRevive(LetterOf(boxes, id).value.receiver) && !(run[k].op.DoTouch? && run[k].op.op.OpRevive?)
    ensures var after := LetterOf(MemoryAfter(cap, boxes, run), id); after.Some? && after.value.status == Dead
    decreases |run|
  {
    if run != [] {
      var m, op, now := LetterOf(boxes, id).value, run[0].op, run[0].at;
      StoredStep(cap, boxes, op, now, id);
      HomeOf(boxes, id);
      StepWellFormed(cap, boxes, op, now);
      if op.DoTouch? {
        DeadAnswersToRevivalOnly(m, op.op, now);
        OpKeepsEnvelope(Memory, m, op.op, now);
      }
      DeadStaysDead(cap, MemoryNext(cap, boxes, op, now), run[1..], id);
    }
  }

  // ---------- times ----------

  /** On every state a run reaches under a clock that does not go back, the times of every
      letter form the chain of its status. */
  lemma {:induction false} TimestampChain(cap: nat, boxes: Boxes, run: seq<Timed>, clock: nat, id: string)
    requires WellFormed(boxes) && RunSendable(cap, boxes, run) && ClockRuns(run, clock)
    requires LetterOf(boxes, id).Some? ==> Chained(LetterOf(boxes, id).value, clock)
    ensures var after := LetterOf(MemoryAfter(cap, boxes, run), id);
            after.Some? ==> Chained(after.value, ClockAfter(run, clock))
  {
    MemoryLived(cap, boxes, run, id);
    LifeIsChained(Memory, MemoryLife(cap, boxes, run, id), run, clock);
  }

  /** While a letter stays in the store, a time once set is the one it ends with. */
  lemma {:induction false} StampsArePermanent(cap: nat, boxes: Boxes, run: seq<Timed>, clock: nat, id: string)
    requires WellFormed(boxes) && RunSendable(cap, boxes, run) && ClockRuns(run, clock) && NeverRemoved(run, id)
    requires LetterOf(boxes, id).Some? && Chained(LetterOf(boxes, id).value, clock)
    ensures var after := LetterOf(MemoryAfter(cap, boxes, run), id);
            after.Some? && StampsKept(LetterOf(boxes, id).value, after.value)
  {
    MemoryLived(cap, boxes, run, id);
    MemoryStays(cap, boxes, run, id);
    LifeKeepsStamps(Memory, MemoryLife(cap, boxes, run, id), run, clock);
  }
}
