/** The letter and its state machine: the transition table, the verdict `Apply`,
    the reference semantics `Fire`, and what each store operation does to one letter
    in the two backends. */
module Lifecycle {
  import opened Basics
  import opened Text

  datatype MsgType = Task | Reply | Broadcast | AckOnly

  datatype Status = Queued | Pushing | Delivered | Read | Acked | Dead

  datatype Event =
    | PushStarted
    | PushOk
    | PushRejected(reason: string)
    | PushErrored(reason: string)
    | PollClaimed
    | ReadReceipt
    | Ack(note: Option<string>)
    | GiveUp(reason: string)
    | ReviveAuth

  // ---------- the table ----------

  function EventName(e: Event): string {
    match e
    case PushStarted => "push_started"
    case PushOk => "push_ok"
    case PushRejected(_) => "push_rejected"
    case PushErrored(_) => "push_errored"
    case PollClaimed => "poll_claimed"
    case ReadReceipt => "read_receipt"
    case Ack(_) => "ack"
    case GiveUp(_) => "give_up"
    case ReviveAuth => "revive_auth"
  }

  const TRANSITIONS: seq<(Status, string, Status)> := [
    (Queued, "push_started", Pushing),
    (Pushing, "push_ok", Delivered),
    (Pushing, "push_rejected", Queued),
    (Pushing, "push_errored", Queued),
    (Queued, "poll_claimed", Delivered),
    (Delivered, "read_receipt", Read),
    (Delivered, "ack", Acked),
    (Read, "ack", Acked),
    (Queued, "give_up", Dead),
    (Pushing, "give_up", Dead),
    (Dead, "revive_auth", Queued)
  ]

  datatype Verdict = To(next: Status) | NoOp(same: Status) | Illegal(event: string, from: Status)

  /** The verdict of the state machine, as a function of state and event. */
  function Apply(status: Status, e: Event): Verdict {
    match (status, e)
    case (Queued, PushStarted) => To(Pushing)
    case (Pushing, PushStarted) => NoOp(Pushing)
    case (Pushing, PushOk) => To(Delivered)
    case (Pushing, PushRejected(_)) => To(Queued)
    case (Pushing, PushErrored(_)) => To(Queued)
    case (Queued, PollClaimed) => To(Delivered)
    case (Delivered, ReadReceipt) => To(Read)
    case (Delivered, Ack(_)) => To(Acked)
    case (Read, Ack(_)) => To(Acked)
    case (Queued, GiveUp(_)) => To(Dead)
    case (Pushing, GiveUp(_)) => To(Dead)
    case (Dead, ReviveAuth) => To(Queued)
    case _ => Illegal(EventName(e), status)
  }

  lemma {:induction false} NamesAreDistinct(e: Event, f: Event)
    ensures EventName(e) == EventName(f) ==>
              || e == f
              || (e.PushRejected? && f.PushRejected?)
              || (e.PushErrored? && f.PushErrored?)
              || (e.Ack? && f.Ack?)
              || (e.GiveUp? && f.GiveUp?)
  {
    var n, m := EventName(e), EventName(f);
    assert n == m ==> |n| == |m| && n[0] == m[0] && n[|n| - 3] == m[|m| - 3];
  }

  /** One row of the table. */
  predicate Row(from: Status, e: Event, to: Status) {
    (from, EventName(e), to) in TRANSITIONS
  }

  /** The scan of the table, row by row, gives exactly the verdict of `Apply`: the first
      matching row is the move, and only a second claim of a letter in flight is a no-op. */
  method ApplyByScan(status: Status, e: Event) returns (v: Verdict)
    ensures v == Apply(status, e)
  {
    var name := EventName(e);
    TableVerdicts(status, e);
    var i := 0;
    while i < |TRANSITIONS|
      invariant 0 <= i <= |TRANSITIONS|
      invariant forall j :: 0 <= j < i ==> TRANSITIONS[j].0 != status || TRANSITIONS[j].1 != name
    {
      var (from, ev, to) := TRANSITIONS[i];
      if from == status && ev == name {
        assert (status, name, to) in TRANSITIONS;
        return To(to);
      }
      i := i + 1;
    }
    if e.PushStarted? && status == Pushing {
      return NoOp(status);
    }
    return Illegal(name, status);
  }

  /** `Apply` moves a letter exactly along the rows of the table. */
  lemma {:induction false} TableVerdicts(status: Status, e: Event)
    ensures forall to :: Row(status, e, to) <==> Apply(status, e) == To(to)
    ensures Apply(status, e).NoOp? <==> status == Pushing && e == PushStarted
  {
    forall to ensures Row(status, e, to) <==> Apply(status, e) == To(to) {
      if Row(status, e, to) {
        var k :| 0 <= k < |TRANSITIONS| && TRANSITIONS[k] == (status, EventName(e), to);
        RowVerdict(k, e);
      }
      if Apply(status, e) == To(to) {
        MoveHasRow(status, e);
      }
    }
  }

  function RowEvent(k: nat): Event
    requires k < |TRANSITIONS|
  {
    [PushStarted, PushOk, PushRejected(""), PushErrored(""), PollClaimed, ReadReceipt,
     Ack(None), Ack(None), GiveUp(""), GiveUp(""), ReviveAuth][k]
  }

  lemma {:induction false} SampleVerdict(k: nat)
    requires k < |TRANSITIONS|
    ensures EventName(RowEvent(k)) == TRANSITIONS[k].1
    ensures Apply(TRANSITIONS[k].0, RowEvent(k)) == To(TRANSITIONS[k].2)
  {}

  lemma {:induction false} SameNameSameMove(status: Status, e: Event, f: Event)
    requires EventName(e) == EventName(f)
    ensures Apply(status, e).To? ==> Apply(status, f) == Apply(status, e)
  {
    NamesAreDistinct(e, f);
  }

  lemma {:induction false} RowVerdict(k: nat, e: Event)
    requires k < |TRANSITIONS| && TRANSITIONS[k].1 == EventName(e)
    ensures Apply(TRANSITIONS[k].0, e) == To(TRANSITIONS[k].2)
  {
    SampleVerdict(k);
    SameNameSameMove(TRANSITIONS[k].0, RowEvent(k), e);
  }

  lemma {:induction false} MoveHasRow(status: Status, e: Event)
    requires Apply(status, e).To?
    ensures Row(status, e, Apply(status, e).next)
  {
    var k := match (status, e)
      case (Queued, PushStarted) => 0
      case (Pushing, PushOk) => 1
      case (Pushing, PushRejected(_)) => 2
      case (Pushing, PushErrored(_)) => 3
      case (Queued, PollClaimed) => 4
      case (Delivered, ReadReceipt) => 5
      case (Delivered, Ack(_)) => 6
      case (Read, Ack(_)) => 7
      case (Queued, GiveUp(_)) => 8
      case (Pushing, GiveUp(_)) => 9
      case _ => 10;
    assert TRANSITIONS[k] == (status, EventName(e), Apply(status, e).next);
  }

  // ---------- the letter ----------

  /** Nanoseconds since the epoch. */
  const NANOS_PER_MILLI: nat := 1_000_000
  const NANOS_PER_SEC: nat := 1_000_000_000

  /** A creation time whose milliseconds fit the 20 digits of a sled key; every time after
      the epoch that the original clock can represent is far below this bound. */
  type Instant = t: int | 0 <= t && t / NANOS_PER_MILLI < Pow10(20) witness 0

  datatype Letter = Letter(
    id: string,
    sender: string,
    receiver: string,
    msgType: MsgType,
    subject: string,
    body: string,
    parent: Option<string>,
    status: Status,
    createdAt: Instant,
    deliveredAt: Option<nat>,
    readAt: Option<nat>,
    ackedAt: Option<nat>,
    ackNote: Option<string>,
    hops: nat,
    forwardedFrom: Option<string>,
    attempts: nat,
    lastPushAt: Option<nat>,
    lastError: Option<string>,
    deadReason: Option<string>)

  /** A letter as it is first stored. */
  predicate IsNew(m: Letter) {
    && m.status == Queued
    && m.deliveredAt == None && m.readAt == None && m.ackedAt == None && m.ackNote == None
    && m.attempts == 0 && m.lastPushAt == None && m.lastError == None && m.deadReason == None
  }

  const MAX_ATTEMPTS: nat := 8
  const PUSHING_TIMEOUT_SECS: nat := 150
  const NOTE_CHARS: nat := 80

  predicate ShouldGiveUp(attempts: nat) { attempts >= MAX_ATTEMPTS }

  /** The reasons that count as a credential problem. */
  predicate IsAuth(reason: string) {
    Contains(reason, "401") || Contains(reason, "403") || Contains(reason, "Unauthorized")
  }

  predicate DiedOnAuth(m: Letter) {
    m.deadReason.Some? && IsAuth(m.deadReason.value)
  }

  function Clip(note: string): (s: string)
    ensures s <= note && |s| == Min(NOTE_CHARS, |note|)
  {
    if |note| <= NOTE_CHARS then note else note[..NOTE_CHARS]
  }

  // ---------- reference semantics ----------

  /** What an event does to a letter: nothing unless the table has a row, and then the row's
      target together with the facts that go with entering it. */
  function Fire(m: Letter, e: Event, now: nat): Letter {
    match Apply(m.status, e)
    case To(next) =>
      var moved := m.(status := next);
      (match e
       case PushStarted => moved.(attempts := m.attempts + 1, lastPushAt := Some(now))
       case PushOk => moved.(deliveredAt := Some(now))
       case PollClaimed => moved.(deliveredAt := Some(now))
       case ReadReceipt => moved.(readAt := Some(now))
       case Ack(note) => moved.(ackedAt := Some(now),
                                readAt := if m.readAt.None? then Some(now) else m.readAt,
                                ackNote := if note.Some? then Some(Clip(note.value)) else None)
       case GiveUp(reason) => moved.(deadReason := Some(reason))
       case ReviveAuth => moved.(attempts := 0, lastError := None, deadReason := None)
       case _ => moved)
    case _ => m
  }

  // ---------- store operations on one letter ----------

  /** What a caller asks a store to do to one letter. */
  datatype LetterOp =
    | OpDeliver
    | OpClaim
    | OpPushOk
    | OpPushFailed(reason: string)
    | OpRevive
    | OpReclaim(reason: string)
    | OpKill(reason: string)
    | OpRead
    | OpAck(note: string)

  /** The event an operation stands for, given the letter it meets. */
  function EventFor(m: Letter, op: LetterOp): Event {
    match op
    case OpDeliver => PollClaimed
    case OpClaim => PushStarted
    case OpPushOk => PushOk
    case OpPushFailed(reason) =>
      if ShouldGiveUp(m.attempts) && !IsAuth(reason) then GiveUp(reason) else PushRejected(reason)
    case OpRevive => ReviveAuth
    case OpReclaim(reason) => PushRejected(reason)
    case OpKill(reason) => GiveUp(reason)
    case OpRead => ReadReceipt
    case OpAck(note) => Ack(Some(note))
  }

  /** Revival is only offered to letters that died on a credential problem. */
  predicate Offered(m: Letter, op: LetterOp) {
    op.OpRevive? ==> DiedOnAuth(m)
  }

  /** The reference meaning of an operation: the event, through the table. */
  function RefOp(m: Letter, op: LetterOp, now: nat): Letter {
    if Offered(m, op) then Fire(m, EventFor(m, op), now) else m
  }

  datatype Backend = Memory | Sled

  /** The facts the in-memory funnel writes before it asks the table. */
  function EarlyWrites(m: Letter, e: Event): Letter {
    match e
    case PushRejected(reason) => m.(lastError := Some(reason))
    case PushErrored(reason) => m.(lastError := Some(reason))
    case GiveUp(reason) => m.(deadReason := Some(reason))
    case _ => m
  }

  /** The exact effect of an operation on a stored letter, for each backend. */
  function BackendOp(b: Backend, m: Letter, op: LetterOp, now: nat): Letter {
    match b
    case Memory =>
      if Offered(m, op) then Fire(EarlyWrites(m, EventFor(m, op)), EventFor(m, op), now) else m
    case Sled =>
      var noted := match op
        case OpPushFailed(reason) => m.(lastError := Some(reason))
        case OpReclaim(reason) => m.(lastError := Some(reason))
        case _ => m;
      RefOp(noted, op, now)
  }

  /** What both backends promise to agree on: everything but the free-text diagnostics,
      which are `lastError` and the `deadReason` of a letter that is not dead. */
  function Core(m: Letter): Letter {
    m.(lastError := None, deadReason := if m.status.Dead? then m.deadReason else None)
  }

  /** The one way a backend departs from the table: the in-memory store overwrites the
      reason of a letter that is already dead when it is asked to give up on it again. */
  predicate Clobbers(m: Letter, op: LetterOp) {
    m.status.Dead? && EventFor(m, op).GiveUp? && m.deadReason != Some(EventFor(m, op).reason)
  }

  /** Each backend does to the core of a letter exactly what the table says, and the
      in-memory backend exactly when the operation does not clobber. */
  lemma {:induction false} BackendFollowsTable(b: Backend, m: Letter, op: LetterOp, now: nat)
    ensures Core(BackendOp(b, m, op, now)) == Core(RefOp(Core(m), op, now)) <==>
            !(b.Memory? && Clobbers(m, op))
  {
    match b
    case Memory => MemoryFollowsTable(m, op, now);
    case Sled => SledFollowsTable(m, op, now);
  }

  /** The diagnostics never influence the table. */
  lemma {:induction false} FireIgnoresDiagnostics(m: Letter, e: Event, now: nat)
    ensures Core(Fire(m, e, now)) == Core(Fire(Core(m), e, now))
  {
    if HandedOver(m.status) {
      FireIgnoresLate(m, e, now);
    } else {
      FireIgnoresEarly(m, e, now);
    }
  }

  /** The letter has reached its receiver. */
  predicate HandedOver(s: Status) { s == Delivered || s == Read || s == Acked }

  lemma {:induction false} FireIgnoresEarly(m: Letter, e: Event, now: nat)
    requires !HandedOver(m.status)
    ensures Core(Fire(m, e, now)) == Core(Fire(Core(m), e, now))
  {
    match m.status
    case Queued =>
    case Pushing =>
    case Dead =>
  }

  lemma {:induction false} FireIgnoresLate(m: Letter, e: Event, now: nat)
    requires HandedOver(m.status)
    ensures Core(Fire(m, e, now)) == Core(Fire(Core(m), e, now))
  {
    match m.status
    case Delivered =>
    case Read =>
    case Acked =>
  }

  lemma {:induction false} DeadFollowsTable(m: Letter, op: LetterOp, now: nat)
    requires m.status.Dead?
    ensures Core(BackendOp(Memory, m, op, now)) == Core(RefOp(Core(m), op, now)) <==> !Clobbers(m, op)
  {
    if op.OpRevive? {
      FireIgnoresEarly(m, ReviveAuth, now);
    } else {
      DeadIgnores(m, op, now);
    }
  }

  /** Anything but a revival leaves a dead letter as it is, but for what is written early. */
  lemma {:induction false} DeadIgnores(m: Letter, op: LetterOp, now: nat)
    requires m.status.Dead? && !op.OpRevive?
    ensures BackendOp(Memory, m, op, now) == EarlyWrites(m, EventFor(m, op))
    ensures RefOp(Core(m), op, now) == Core(m)
    ensures Core(EarlyWrites(m, EventFor(m, op))) == Core(m) <==> !Clobbers(m, op)
  {
    assert Apply(Dead, EventFor(m, op)).Illegal?;
    assert Core(m).status.Dead? && Core(Core(m)) == Core(m);
  }

  lemma {:induction false} MemoryFollowsTable(m: Letter, op: LetterOp, now: nat)
    ensures Core(BackendOp(Memory, m, op, now)) == Core(RefOp(Core(m), op, now)) <==> !Clobbers(m, op)
  {
    var e := EventFor(m, op);
    assert EventFor(Core(m), op) == e;
    if m.status.Dead? {
      DeadFollowsTable(m, op, now);
    } else {
      FireIgnoresDiagnostics(m, e, now);
      FireIgnoresDiagnostics(EarlyWrites(m, e), e, now);
      assert Core(EarlyWrites(m, e)) == Core(m);
    }
  }

  lemma {:induction false} SledFollowsTable(m: Letter, op: LetterOp, now: nat)
    ensures Core(BackendOp(Sled, m, op, now)) == Core(RefOp(Core(m), op, now))
  {
    FireIgnoresDiagnostics(m, EventFor(m, op), now);
    match op
    case OpPushFailed(reason) =>
      FireIgnoresDiagnostics(m.(lastError := Some(reason)), EventFor(m, op), now);
    case OpReclaim(reason) =>
      FireIgnoresDiagnostics(m.(lastError := Some(reason)), EventFor(m, op), now);
    case _ =>
  }

  /** The part of a letter that no operation may touch. */
  predicate SameEnvelope(m: Letter, n: Letter) {
    && n.id == m.id && n.sender == m.sender && n.receiver == m.receiver
    && n.msgType == m.msgType && n.subject == m.subject && n.body == m.body
    && n.parent == m.parent && n.createdAt == m.createdAt
    && n.hops == m.hops && n.forwardedFrom == m.forwardedFrom
  }

  lemma {:induction false} FireKeepsEnvelope(m: Letter, e: Event, now: nat)
    ensures SameEnvelope(m, Fire(m, e, now))
  {
    match m.status
    case Queued =>
    case Pushing =>
    case Delivered =>
    case Read =>
    case Acked =>
    case Dead =>
  }

  lemma {:induction false} OpKeepsEnvelope(b: Backend, m: Letter, op: LetterOp, now: nat)
    ensures SameEnvelope(m, BackendOp(b, m, op, now))
  {
    match b
    case Memory => FireKeepsEnvelope(EarlyWrites(m, EventFor(m, op)), EventFor(m, op), now);
    case Sled =>
      FireKeepsEnvelope(m, EventFor(m, op), now);
      match op {
        case OpPushFailed(reason) => FireKeepsEnvelope(m.(lastError := Some(reason)), EventFor(m, op), now);
        case OpReclaim(reason) => FireKeepsEnvelope(m.(lastError := Some(reason)), EventFor(m, op), now);
        case _ =>
      }
  }

  // ---------- what each operation does, field by field ----------

  /** A reason is a credential problem exactly when one of three words occurs in it anywhere. */
  lemma {:induction false} AuthReasons(reason: string)
    ensures IsAuth(reason) <==>
            exists i: nat :: OccursAt(reason, "401", i) || OccursAt(reason, "403", i) || OccursAt(reason, "Unauthorized", i)
  {
    ContainsExactly(reason, "401");
    ContainsExactly(reason, "403");
    ContainsExactly(reason, "Unauthorized");
  }

  lemma {:induction false} DeliverDoes(b: Backend, m: Letter, now: nat)
    ensures BackendOp(b, m, OpDeliver, now) ==
            if m.status == Queued then m.(status := Delivered, deliveredAt := Some(now)) else m
  {}

  lemma {:induction false} ClaimDoes(b: Backend, m: Letter, now: nat)
    ensures BackendOp(b, m, OpClaim, now) ==
            if m.status == Queued then m.(status := Pushing, attempts := m.attempts + 1, lastPushAt := Some(now)) else m
  {}

  lemma {:induction false} PushOkDoes(b: Backend, m: Letter, now: nat)
    ensures BackendOp(b, m, OpPushOk, now) ==
            if m.status == Pushing then m.(status := Delivered, deliveredAt := Some(now)) else m
  {}

  /** A failed push gives the letter up after the eighth attempt, unless credentials failed, and
      otherwise re-queues it; the backends differ in the diagnostics alone. */
  lemma {:induction false} FailDoes(m: Letter, reason: string, now: nat)
    ensures var hopeless, waiting := m.attempts >= 8 && !IsAuth(reason), m.status == Queued || m.status == Pushing;
            && BackendOp(Memory, m, OpPushFailed(reason), now) ==
               (if hopeless then m.(status := if waiting then Dead else m.status, deadReason := Some(reason))
                else m.(status := if m.status == Pushing then Queued else m.status, lastError := Some(reason)))
            && BackendOp(Sled, m, OpPushFailed(reason), now) ==
               var noted := m.(lastError := Some(reason));
               if hopeless && waiting then noted.(status := Dead, deadReason := Some(reason))
               else if !hopeless && m.status == Pushing then noted.(status := Queued)
               else noted
  {
    FailDoesInMemory(m, reason, now);
    FailDoesInTree(m, reason, now);
  }

  lemma {:induction false} FailDoesInMemory(m: Letter, reason: string, now: nat)
    ensures var hopeless, waiting := m.attempts >= 8 && !IsAuth(reason), m.status == Queued || m.status == Pushing;
            BackendOp(Memory, m, OpPushFailed(reason), now) ==
            if hopeless then m.(status := if waiting then Dead else m.status, deadReason := Some(reason))
            else m.(status := if m.status == Pushing then Queued else m.status, lastError := Some(reason))
  {
    match m.status
    case Queued =>
    case Pushing =>
    case Dead =>
    case _ =>
  }

  lemma {:induction false} FailDoesInTree(m: Letter, reason: string, now: nat)
    ensures var hopeless, waiting := m.attempts >= 8 && !IsAuth(reason), m.status == Queued || m.status == Pushing;
            var noted := m.(lastError := Some(reason));
            BackendOp(Sled, m, OpPushFailed(reason), now) ==
            if hopeless && waiting then noted.(status := Dead, deadReason := Some(reason))
            else if !hopeless && m.status == Pushing then noted.(status := Queued)
            else noted
  {
    match m.status
    case Queued =>
    case Pushing =>
    case Dead =>
    case _ =>
  }

  lemma {:induction false} ReclaimDoes(b: Backend, m: Letter, reason: string, now: nat)
    ensures BackendOp(b, m, OpReclaim(reason), now) ==
            m.(status := if m.status == Pushing then Queued else m.status, lastError := Some(reason))
  {}

  lemma {:induction false} KillDoes(b: Backend, m: Letter, reason: string, now: nat)
    ensures BackendOp(b, m, OpKill(reason), now) ==
            if m.status == Queued || m.status == Pushing then m.(status := Dead, deadReason := Some(reason))
            else if b == Memory then m.(deadReason := Some(reason))
            else m
  {}

  lemma {:induction false} ReviveDoes(b: Backend, m: Letter, now: nat)
    ensures BackendOp(b, m, OpRevive, now) ==
            if m.status == Dead && m.deadReason.Some? && IsAuth(m.deadReason.value)
            then m.(status := Queued, attempts := 0, lastError := None, deadReason := None) else m
  {}

  lemma {:induction false} ReadDoes(b: Backend, m: Letter, now: nat)
    ensures BackendOp(b, m, OpRead, now) ==
            if m.status == Delivered then m.(status := Read, readAt := Some(now)) else m
  {}

  /** Filing keeps the time of an earlier reading and takes its own for one otherwise. */
  lemma {:induction false} AckDoes(b: Backend, m: Letter, note: string, now: nat)
    ensures BackendOp(b, m, OpAck(note), now) ==
            if m.status == Delivered || m.status == Read
            then m.(status := Acked, ackedAt := Some(now), readAt := if m.readAt.Some? then m.readAt else Some(now),
                    ackNote := Some(if |note| <= 80 then note else note[..80]))
            else m
  {
    ClipTakes(note);
    match b {
      case Memory =>
      case Sled =>
    }
  }

  lemma {:induction false} ClipTakes(note: string)
    ensures Clip(note) == if |note| <= 80 then note else note[..80]
  {}
}
