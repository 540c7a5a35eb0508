/** The two backends from the empty bus on: when every run is answered alike, and that the
    conditions leave out nothing that a caller could not tell apart. */
module Backends {
  import opened Basics
  import opened Text
  import opened Lifecycle
  import opened Mailbox
  import opened SledTree
  import opened MemoryStore
  import opened SledStore
  import opened SledBoxes
  import opened Likeness
  import opened Simulation
  import opened Agreement
  import opened Histories

  // ---------- runs from the empty bus ----------

  /** Names that the key format supports. */
  predicate Named(op: Op) {
    match op
    case DoPush(m) => GoodName(m.receiver)
    case DoPoll(a, _) => GoodName(a)
    case DoTouch(a, _, _) => GoodName(a)
    case DoRevive(a) => GoodName(a)
    case _ => true
  }

  predicate PushesId(e: Timed, id: string) { e.op.DoPush? && e.op.letter.id == id }

  /** What callers see to: supported names, an id of its own for every letter, letters sent new,
      and creation times in whole milliseconds. */
  ghost predicate Ordinary(run: seq<Timed>) {
    && (forall k :: 0 <= k < |run| ==> Named(run[k].op))
    && (forall j, k :: 0 <= j < k < |run| && run[j].op.DoPush? ==> !PushesId(run[k], run[j].op.letter.id))
    && (forall k :: 0 <= k < |run| && run[k].op.DoPush? ==>
          IsNew(run[k].op.letter) && run[k].op.letter.createdAt <= run[k].at
          && run[k].op.letter.createdAt % NANOS_PER_MILLI == 0)
  }

  predicate KillsOrFails(op: LetterOp) { op.OpKill? || op.OpPushFailed? }

  /** Nobody gives up on, or reports a failed push of, a letter that is dead already. */
  ghost predicate SparesDead(boxes: Boxes, run: seq<Timed>)
    decreases |run|
  {
    run != [] ==>
      && (run[0].op.DoTouch? && KillsOrFails(run[0].op.op) ==>
            forall m :: m in BoxOf(boxes, run[0].op.agent) && m.id == run[0].op.id ==> m.status != Dead)
      && SparesDead(MemoryNext(CAPACITY, boxes, run[0].op, run[0].at), run[1..])
  }

  /** The letters stored so far neither clash with what is still to be pushed nor share its ids. */
  ghost predicate Prepared(boxes: Boxes, run: seq<Timed>) {
    forall a, m :: a in boxes && m in boxes[a] ==>
      m.createdAt % NANOS_PER_MILLI == 0 && forall k :: 0 <= k < |run| ==> !PushesId(run[k], m.id)
  }

  lemma {:induction false} NotInUse(boxes: Boxes, id: string)
    requires forall a, m :: a in boxes && m in boxes[a] ==> m.id != id
    ensures !IdInUse(boxes, id)
  {
    forall a | a in boxes ensures !HasId(boxes[a], id) {
      assert forall i :: 0 <= i < |boxes[a]| ==> boxes[a][i] in boxes[a];
    }
  }

  lemma {:induction false} FirstIsHarmless(boxes: Boxes, run: seq<Timed>)
    requires WellFormed(boxes) && Prepared(boxes, run) && Ordinary(run) && SparesDead(boxes, run) && run != []
    ensures WellNamed(boxes, run[0].op) && Harmless(boxes, run[0].op) && Sendable(boxes, run[0].op, run[0].at)
  {
    assert Named(run[0].op);
    match run[0].op
    case DoPush(m) => FreshNeverClashes(boxes, run, m);
    case DoTouch(a, id, lop) => SparedNeverClobbered(boxes, run, a, id, lop);
    case _ =>
  }

  lemma {:induction false} FreshNeverClashes(boxes: Boxes, run: seq<Timed>, m: Letter)
    requires Prepared(boxes, run) && Ordinary(run) && run != [] && run[0].op == DoPush(m)
    ensures !IdInUse(boxes, m.id) && ClashFree(m, BoxOf(boxes, m.receiver))
  {
    forall a, x | a in boxes && x in boxes[a] ensures x.id != m.id {
      assert !PushesId(run[0], x.id);
    }
    NotInUse(boxes, m.id);
    forall x | x in BoxOf(boxes, m.receiver) ensures SamePlace(m, x) {
      WholeMillisNeverClash(m, x);
    }
  }

  lemma {:induction false} SparedNeverClobbered(boxes: Boxes, run: seq<Timed>, a: string, id: string, lop: LetterOp)
    requires SparesDead(boxes, run) && run != [] && run[0].op == DoTouch(a, id, lop)
    ensures !ClobbersAt(BoxOf(boxes, a), id, lop)
  {
    forall m | m in BoxOf(boxes, a) && m.id == id ensures !Clobbers(m, lop) {
      if m.status == Dead {
        assert !KillsOrFails(lop);
      }
    }
  }

  lemma {:induction false} StillPrepared(boxes: Boxes, run: seq<Timed>)
    requires WellFormed(boxes) && Prepared(boxes, run) && Ordinary(run) && run != []
    requires Sendable(boxes, run[0].op, run[0].at)
    ensures Prepared(MemoryNext(CAPACITY, boxes, run[0].op, run[0].at), run[1..])
  {
    var boxes': Boxes := MemoryNext(CAPACITY, boxes, run[0].op, run[0].at);
    StepWellFormed(CAPACITY, boxes, run[0].op, run[0].at);
    forall a, m | a in boxes' && m in boxes'[a]
      ensures m.createdAt % NANOS_PER_MILLI == 0 && forall k :: 0 <= k < |run| - 1 ==> !PushesId(run[1..][k], m.id)
    {
      var i :| 0 <= i < |boxes'[a]| && boxes'[a][i] == m;
      if run[0].op == DoPush(m) {
        assert forall k :: 0 < k < |run| ==> !PushesId(run[k], m.id);
      } else {
        CameFrom(CAPACITY, boxes, run[0].op, run[0].at, m);
        var n :| n in boxes[m.receiver] && SameEnvelope(n, m);
        assert forall k :: 0 <= k < |run| ==> !PushesId(run[k], n.id);
      }
    }
  }

  lemma {:induction false} RestIsOrdinary(run: seq<Timed>)
    requires Ordinary(run) && run != []
    ensures Ordinary(run[1..])
  {
    var rest := run[1..];
    assert forall k :: 0 <= k < |rest| ==> rest[k] == run[k + 1];
  }

  lemma {:induction false} OrdinaryIsHarmless(boxes: Boxes, run: seq<Timed>)
    requires WellFormed(boxes) && Prepared(boxes, run) && Ordinary(run) && SparesDead(boxes, run)
    ensures RunHarmless(boxes, run)
    decreases |run|
  {
    if run != [] {
      FirstIsHarmless(boxes, run);
      StillPrepared(boxes, run);
      RestIsOrdinary(run);
      StepWellFormed(CAPACITY, boxes, run[0].op, run[0].at);
      OrdinaryIsHarmless(MemoryNext(CAPACITY, boxes, run[0].op, run[0].at), run[1..]);
    }
  }

  /** From the empty bus on, the two backends answer every ordinary run alike, as long as it
      spares the dead. */
  lemma {:induction false} BackendsAgree(run: seq<Timed>)
    requires Ordinary(run) && SparesDead(map[], run)
    ensures MemoryReplies(map[], run) == SledReplies([], run)
    ensures Related(MemoryAfter(CAPACITY, map[], run), SledAfter([], run))
  {
    var none: Boxes := map[];
    EmptyRelated();
    OrdinaryIsHarmless(none, run);
    RunsAgree(none, [], run);
  }

  // ---------- what a caller can tell apart ----------

  /** Operations that add no letter, give up on none and delete none: polls, and giving letters
      back to the queue. */
  predicate Quiet(op: Op) {
    match op
    case DoPoll(a, _) => GoodName(a)
    case DoTouch(a, _, lop) => GoodName(a) && (lop.OpReclaim? || lop.OpRevive?)
    case _ => false
  }

  predicate AllQuiet(run: seq<Timed>) { forall k :: 0 <= k < |run| ==> Quiet(run[k].op) }

  lemma {:induction false} QuietIsHarmless(boxes: Boxes, run: seq<Timed>)
    requires AllQuiet(run)
    ensures RunHarmless(boxes, run)
    decreases |run|
  {
    if run != [] {
      assert Quiet(run[0].op);
      assert forall k :: 0 <= k < |run| - 1 ==> run[1..][k] == run[k + 1];
      QuietIsHarmless(MemoryNext(CAPACITY, boxes, run[0].op, run[0].at), run[1..]);
    }
  }

  ghost predicate AnsweredAlike(boxes: Boxes, db: Db, run: seq<Timed>) {
    MemoryReplies(boxes, run) == SledReplies(db, run)
  }

  lemma {:induction false} FirstAnswer(boxes: Boxes, db: Db, e: Timed, rest: seq<Timed>)
    ensures AnsweredAlike(boxes, db, [e] + rest) <==>
            && MemoryReply(boxes, e.op, e.at) == SledReply(db, e.op, e.at)
            && AnsweredAlike(MemoryNext(CAPACITY, boxes, e.op, e.at), SledNext(db, e.op, e.at), rest)
  {
    var run := [e] + rest;
    assert run[0] == e && run[1..] == rest;
    var p, q := MemoryReplies(boxes, run), SledReplies(db, run);
    assert p == [MemoryReply(boxes, e.op, e.at)] + MemoryReplies(MemoryNext(CAPACITY, boxes, e.op, e.at), rest);
    assert q == [SledReply(db, e.op, e.at)] + SledReplies(SledNext(db, e.op, e.at), rest);
    assert p[1..] == MemoryReplies(MemoryNext(CAPACITY, boxes, e.op, e.at), rest);
    assert q[1..] == SledReplies(SledNext(db, e.op, e.at), rest);
    assert p[0] == MemoryReply(boxes, e.op, e.at) && q[0] == SledReply(db, e.op, e.at);
  }

  // ---------- a clobber is seen at once ----------

  lemma {:induction false} ClobberIsAnswered(boxes: Boxes, db: Db, a: string, id: string, lop: LetterOp, now: nat)
    requires Related(boxes, db) && GoodName(a) && ClobbersAt(BoxOf(boxes, a), id, lop)
    ensures MemoryReply(boxes, DoTouch(a, id, lop), now) != SledReply(db, DoTouch(a, id, lop), now)
  {
    var box, t := BoxOf(boxes, a), BoxIn(db, a);
    var i, k := IndexOf(box, id), IndexOf(t, id);
    assert i < |box| && Clobbers(box[i], lop) by {
      BoxDistinct(boxes, a);
      var m :| m in box && m.id == id && Clobbers(m, lop);
      var j :| 0 <= j < |box| && box[j] == m;
      IndexOfDistinct(box, j);
    }
    assert SledReply(db, DoTouch(a, id, lop), now) == CoreReply(UpdateReply(Sled, t, id, lop, now)) by {
      TouchInTree(db, a, id, lop, now);
    }
    TwinLookup(boxes, db, a, id);
    ClobberedAnswers(box[i], t[k], lop, now);
  }

  lemma {:induction false} ClobberedAnswers(m: Letter, n: Letter, lop: LetterOp, now: nat)
    requires Core(m) == Core(n) && Clobbers(m, lop)
    ensures !Refused(m, lop) && !Refused(n, lop)
    ensures Core(BackendOp(Memory, m, lop, now)) != Core(BackendOp(Sled, n, lop, now))
  {
    OpCores(m, n, lop, now);
  }

  // ---------- a clash is seen by a poll ----------

  ghost predicate Precedes(s: seq<Letter>, p: Letter, q: Letter) {
    exists i, j :: 0 <= i < j < |s| && s[i] == p && s[j] == q
  }

  ghost predicate IdsPrecede(s: seq<Letter>, p: string, q: string) {
    exists i, j :: 0 <= i < j < |s| && s[i].id == p && s[j].id == q
  }

  lemma {:induction false} FifoPrecedes(s: seq<Letter>, p: Letter, q: Letter)
    requires StrictFifoOrder(s) && p in s && q in s && FifoLt(p, q)
    ensures Precedes(s, p, q)
  {
    var i :| 0 <= i < |s| && s[i] == p;
    var j :| 0 <= j < |s| && s[j] == q;
    FifoLtAsymmetric(p, q);
    if j == i {
      StrLtIrreflexive(p.id);
    }
  }

  lemma {:induction false} MilliPrecedes(t: seq<Letter>, p: Letter, q: Letter)
    requires StrictMilliOrder(t) && p in t && q in t && MilliLt(p, q)
    ensures Precedes(t, p, q)
  {
    var i :| 0 <= i < |t| && t[i] == p;
    var j :| 0 <= j < |t| && t[j] == q;
    StrLtIrreflexive(p.id);
    if Millis(p) == Millis(q) {
      StrLtAsymmetric(p.id, q.id);
    }
  }

  lemma {:induction false} InQueued(s: seq<Letter>, m: Letter)
    requires m in s && m.status == Queued
    ensures m in QueuedOf(s)
  {
    if s[0] != m {
      assert m in s[1..];
      InQueued(s[1..], m);
    }
  }

  lemma {:induction false} QueuedPrecedes(s: seq<Letter>, p: Letter, q: Letter)
    requires Precedes(s, p, q) && p.status == Queued && q.status == Queued
    ensures Precedes(QueuedOf(s), p, q)
  {
    var i, j :| 0 <= i < j < |s| && s[i] == p && s[j] == q;
    var rest := s[1..];
    assert rest[j - 1] == q;
    if i == 0 {
      InQueued(rest, q);
      FirstPrecedes(p, QueuedOf(rest), q);
    } else {
      assert rest[i - 1] == p;
      QueuedPrecedes(rest, p, q);
      if s[0].status == Queued {
        StillPrecedes(s[0], QueuedOf(rest), p, q);
      }
    }
  }

  lemma {:induction false} FirstPrecedes(p: Letter, rest: seq<Letter>, q: Letter)
    requires q in rest
    ensures Precedes([p] + rest, p, q)
  {
    var k :| 0 <= k < |rest| && rest[k] == q;
    assert ([p] + rest)[0] == p && ([p] + rest)[k + 1] == q;
  }

  lemma {:induction false} StillPrecedes(first: Letter, rest: seq<Letter>, p: Letter, q: Letter)
    requires Precedes(rest, p, q)
    ensures Precedes([first] + rest, p, q)
  {
    var x, y :| 0 <= x < y < |rest| && rest[x] == p && rest[y] == q;
    assert ([first] + rest)[x + 1] == p && ([first] + rest)[y + 1] == q;
  }

  lemma {:induction false} QueuedNoMore(s: seq<Letter>)
    ensures |QueuedOf(s)| <= |s|
  {
    if s != [] {
      QueuedNoMore(s[1..]);
    }
  }

  /** A poll of the whole mailbox hands out two queued letters in the order in which they lie. */
  lemma {:induction false} DrainPrecedes(s: seq<Letter>, limit: nat, now: nat, p: Letter, q: Letter)
    requires Precedes(s, p, q) && p.status == Queued && q.status == Queued && |s| <= limit
    ensures IdsPrecede(Drain(s, limit, now).out, p.id, q.id)
  {
    QueuedPrecedes(s, p, q);
    assert Drain(s, limit, now).out == Map(Deliver(now), QueuedOf(s)) by {
      QueuedNoMore(s);
      DrainHandsOut(s, limit, now);
      assert QueuedOf(s)[..|QueuedOf(s)|] == QueuedOf(s);
    }
    DeliveredPrecede(QueuedOf(s), now, p, q);
  }

  lemma {:induction false} DeliveredPrecede(s: seq<Letter>, now: nat, p: Letter, q: Letter)
    requires Precedes(s, p, q)
    ensures IdsPrecede(Map(Deliver(now), s), p.id, q.id)
  {
    var x, y :| 0 <= x < y < |s| && s[x] == p && s[y] == q;
    OpKeepsEnvelope(Memory, p, OpDeliver, now);
    OpKeepsEnvelope(Memory, q, OpDeliver, now);
    assert Map(Deliver(now), s)[x].id == p.id && Map(Deliver(now), s)[y].id == q.id;
  }

  lemma {:induction false} DrainDistinct(s: seq<Letter>, limit: nat, now: nat)
    requires DistinctIds(s)
    ensures DistinctIds(Drain(s, limit, now).out)
  {
    if s != [] {
      RestHasOtherIds(s);
      var d := Drain(s, limit, now);
      if s[0].status != Queued {
        DrainDistinct(s[1..], limit, now);
      } else if 1 < limit {
        DrainDistinct(s[1..], limit - 1, now);
        OutComesFrom(s[1..], limit - 1, now);
        var rest := Drain(s[1..], limit - 1, now).out;
        forall j | 0 <= j < |rest| ensures rest[j].id != s[0].id {
          assert rest[j] in rest;
        }
      }
    }
  }

  lemma {:induction false} OneWay(s: seq<Letter>, p: string, q: string)
    requires DistinctIds(s) && IdsPrecede(s, p, q)
    ensures !IdsPrecede(s, q, p)
  {
    var i, j :| 0 <= i < j < |s| && s[i].id == p && s[j].id == q;
    forall x, y | 0 <= x < y < |s| && s[x].id == q ensures s[y].id != p {
      assert x == j;
    }
  }

  lemma {:induction false} SameOrder(s: seq<Letter>, t: seq<Letter>, p: string, q: string)
    requires Map(Core, s) == Map(Core, t) && IdsPrecede(t, p, q)
    ensures IdsPrecede(s, p, q)
  {
    var i, j :| 0 <= i < j < |t| && t[i].id == p && t[j].id == q;
    assert |s| == |Map(Core, s)| == |t|;
    assert Map(Core, s)[i] == Core(t[i]) && Map(Core, s)[j] == Core(t[j]);
    CoreKeeps(s[i], t[i]);
    CoreKeeps(s[j], t[j]);
  }

  /** Batches that hand out two letters in opposite orders are different answers. */
  lemma {:induction false} OppositeBatches(s: seq<Letter>, t: seq<Letter>, p: string, q: string)
    requires DistinctIds(s) && IdsPrecede(s, p, q) && IdsPrecede(t, q, p)
    ensures Map(Core, s) != Map(Core, t)
  {
    OneWay(s, p, q);
    if Map(Core, s) == Map(Core, t) {
      SameOrder(s, t, q, p);
    }
  }

  // ---------- waking letters up ----------

  /** What gives a letter that can be handed out back to the queue. */
  function WakeOp(m: Letter): LetterOp { if m.status == Dead then OpRevive else OpReclaim("") }

  lemma {:induction false} Wakes(b: Backend, m: Letter, now: nat)
    requires Live(m)
    ensures BackendOp(b, m, WakeOp(m), now).status == Queued
  {}

  lemma {:induction false} WakenInBox(b: Backend, box: seq<Letter>, m: Letter, now: nat)
    requires DistinctIds(box) && m in box && Live(m)
    ensures var r := UpdateBox(b, box, m.id, WakeOp(m), now);
            && DistinctIds(r) && |r| == |box|
            && BackendOp(b, m, WakeOp(m), now) in r
            && forall x :: x in box && x.id != m.id ==> x in r
  {
    var r := UpdateBox(b, box, m.id, WakeOp(m), now);
    var i :| 0 <= i < |box| && box[i] == m;
    IndexOfDistinct(box, i);
    UpdateKeepsDistinct(b, box, m.id, WakeOp(m), now);
    assert r[i] == BackendOp(b, m, WakeOp(m), now);
    forall x | x in box && x.id != m.id ensures x in r {
      var k :| 0 <= k < |box| && box[k] == x;
      assert r[k] == x;
    }
  }

  /** A letter as it is once it has been woken up. */
  ghost predicate AwakeLike(n: Letter, m: Letter) {
    n.status == Queued && n.id == m.id && n.createdAt == m.createdAt
  }

  /** Two letters of one mailbox, both woken up. */
  function BothAwake(b: Backend, box: seq<Letter>, p: Letter, q: Letter, now: nat): seq<Letter> {
    UpdateBox(b, UpdateBox(b, box, p.id, WakeOp(p), now), q.id, WakeOp(q), now)
  }

  lemma {:induction false} AwakeTogether(b: Backend, box: seq<Letter>, p: Letter, q: Letter, now: nat)
    returns (x: Letter, y: Letter)
    requires DistinctIds(box) && p in box && q in box && Live(p) && Live(q) && p.id != q.id
    ensures var r := BothAwake(b, box, p, q, now);
            DistinctIds(r) && |r| == |box| && x in r && y in r && AwakeLike(x, p) && AwakeLike(y, q)
  {
    x, y := BackendOp(b, p, WakeOp(p), now), BackendOp(b, q, WakeOp(q), now);
    OpKeepsEnvelope(b, p, WakeOp(p), now);
    OpKeepsEnvelope(b, q, WakeOp(q), now);
    Wakes(b, p, now);
    Wakes(b, q, now);
    WakenInBox(b, box, p, now);
    WakenInBox(b, UpdateBox(b, box, p.id, WakeOp(p), now), q, now);
  }

  /** Wake two letters up and poll. */
  function Probe(p: Letter, q: Letter, limit: nat): seq<Timed> {
    [Timed(DoTouch(p.receiver, p.id, WakeOp(p)), 0), Timed(DoTouch(q.receiver, q.id, WakeOp(q)), 0),
     Timed(DoPoll(p.receiver, limit), 0)]
  }

  lemma {:induction false} MemoryBatch(box: seq<Letter>, p: Letter, q: Letter, limit: nat)
    requires DistinctIds(box) && p in box && q in box && Live(p) && Live(q) && |box| <= limit
    requires FifoLt(p, q) && p.id != q.id
    ensures var out := Drain(Fifo(BothAwake(Memory, box, p, q, 0)), limit, 0).out;
            DistinctIds(out) && IdsPrecede(out, p.id, q.id)
  {
    var r := BothAwake(Memory, box, p, q, 0);
    var x, y := AwakeTogether(Memory, box, p, q, 0);
    FifoSorts(r);
    FifoStrict(r);
    FifoPrecedes(Fifo(r), x, y);
    DrainPrecedes(Fifo(r), limit, 0, x, y);
    DrainDistinct(Fifo(r), limit, 0);
  }

  lemma {:induction false} SledBatch(t: seq<Letter>, p: Letter, q: Letter, limit: nat)
    requires DistinctIds(t) && p in t && q in t && Live(p) && Live(q) && |t| <= limit
    requires MilliLt(q, p) && p.id != q.id
    requires StrictMilliOrder(BothAwake(Sled, t, p, q, 0))
    ensures IdsPrecede(Drain(BothAwake(Sled, t, p, q, 0), limit, 0).out, q.id, p.id)
  {
    var r := BothAwake(Sled, t, p, q, 0);
    var x, y := AwakeTogether(Sled, t, p, q, 0);
    MilliPrecedes(r, y, x);
    DrainPrecedes(r, limit, 0, y, x);
  }

  lemma {:induction false} MemoryProbe(boxes: Boxes, p: Letter, q: Letter, limit: nat)
    requires p.receiver == q.receiver && p.receiver in boxes
    ensures MemoryReplies(boxes, Probe(p, q, limit))[2] ==
            Batch(Map(Core, Drain(Fifo(BothAwake(Memory, boxes[p.receiver], p, q, 0)), limit, 0).out))
  {
    var run := Probe(p, q, limit);
    var b1 := MemoryNext(CAPACITY, boxes, run[0].op, 0);
    var b2 := MemoryNext(CAPACITY, b1, run[1].op, 0);
    assert b2[p.receiver] == BothAwake(Memory, boxes[p.receiver], p, q, 0);
    assert run[1..][1..] == [run[2]];
    assert MemoryReplies(b2, [run[2]])[0] == MemoryReply(b2, run[2].op, 0);
    assert MemoryReplies(b1, run[1..])[1] == MemoryReplies(b2, [run[2]])[0];
    assert MemoryReplies(boxes, run)[2] == MemoryReplies(b1, run[1..])[1];
  }

  lemma {:induction false} SledProbe(db: Db, p: Letter, q: Letter, limit: nat)
    requires Clean(db) && p.receiver == q.receiver && GoodName(p.receiver)
    ensures SledReplies(db, Probe(p, q, limit))[2] ==
            Batch(Map(Core, Drain(BothAwake(Sled, BoxIn(db, p.receiver), p, q, 0), limit, 0).out))
    ensures StrictMilliOrder(BothAwake(Sled, BoxIn(db, p.receiver), p, q, 0))
  {
    var a, run := p.receiver, Probe(p, q, limit);
    var d1 := SledNext(db, run[0].op, 0);
    var d2 := SledNext(d1, run[1].op, 0);
    UpdateInBox(db, a, p.id, WakeOp(p), 0);
    UpdateInBox(d1, a, q.id, WakeOp(q), 0);
    BoxInOrder(d2, a);
    PollWhole(d2, a, limit, 0);
    assert run[1..][1..] == [run[2]];
    assert SledReplies(d2, [run[2]])[0] == SledReply(d2, run[2].op, 0);
    assert SledReplies(d1, run[1..])[1] == SledReplies(d2, [run[2]])[0];
    assert SledReplies(db, run)[2] == SledReplies(d1, run[1..])[1];
  }

  /** The probe of two letters that the two orders dispute is answered differently. */
  lemma {:induction false} ProbeTells(boxes: Boxes, db: Db, p: Letter, q: Letter, p': Letter, q': Letter, limit: nat)
    requires Clean(db) && GoodName(p.receiver) && p.receiver == q.receiver && p.receiver in boxes
    requires DistinctIds(boxes[p.receiver]) && DistinctIds(BoxIn(db, p.receiver))
    requires |boxes[p.receiver]| <= limit && |BoxIn(db, p.receiver)| <= limit
    requires p in boxes[p.receiver] && q in boxes[p.receiver] && Live(p) && Live(q) && p.id != q.id
    requires p' in BoxIn(db, p.receiver) && q' in BoxIn(db, p.receiver) && Core(p) == Core(p') && Core(q) == Core(q')
    requires FifoLt(p, q) && MilliLt(q, p)
    ensures MemoryReplies(boxes, Probe(p, q, limit))[2] != SledReplies(db, Probe(p, q, limit))[2]
  {
    var box, t := boxes[p.receiver], BoxIn(db, p.receiver);
    CoreKeeps(p, p');
    CoreKeeps(q, q');
    assert Probe(p', q', limit) == Probe(p, q, limit);
    MemoryProbe(boxes, p, q, limit);
    SledProbe(db, p', q', limit);
    var out, out' := Drain(Fifo(BothAwake(Memory, box, p, q, 0)), limit, 0).out,
                     Drain(BothAwake(Sled, t, p', q', 0), limit, 0).out;
    assert DistinctIds(out) && IdsPrecede(out, p.id, q.id) by { MemoryBatch(box, p, q, limit); }
    assert IdsPrecede(out', q.id, p.id) by { SledBatch(t, p', q', limit); }
    OppositeBatches(out, out', p.id, q.id);
  }

  /** Two letters that both can be handed out and that the two orders dispute are told apart by
      waking them up and polling. */
  lemma {:induction false} DisputeIsSeen(boxes: Boxes, db: Db, p: Letter, q: Letter, p': Letter, q': Letter)
    requires Clean(db) && GoodName(p.receiver) && p.receiver == q.receiver && p.receiver in boxes
    requires DistinctIds(boxes[p.receiver]) && DistinctIds(BoxIn(db, p.receiver))
    requires p in boxes[p.receiver] && q in boxes[p.receiver] && Live(p) && Live(q) && p.id != q.id
    requires p' in BoxIn(db, p.receiver) && q' in BoxIn(db, p.receiver) && Core(p) == Core(p') && Core(q) == Core(q')
    requires FifoLt(p, q) && MilliLt(q, p)
    ensures exists cont :: AllQuiet(cont) && !AnsweredAlike(boxes, db, cont)
  {
    var limit := |boxes[p.receiver]| + |BoxIn(db, p.receiver)|;
    ProbeTells(boxes, db, p, q, p', q', limit);
    ProbeIsQuiet(p, q, limit);
    assert !AnsweredAlike(boxes, db, Probe(p, q, limit));
  }

  lemma {:induction false} ProbeIsQuiet(p: Letter, q: Letter, limit: nat)
    requires GoodName(p.receiver) && p.receiver == q.receiver
    ensures AllQuiet(Probe(p, q, limit))
  {}

  // ---------- harmless is exactly what cannot be told apart ----------

  lemma {:induction false} OrdersAreTotal(m: Letter, x: Letter)
    requires m.id != x.id && !SamePlace(m, x)
    ensures (FifoLt(m, x) && MilliLt(x, m)) || (FifoLt(x, m) && MilliLt(m, x))
  {
    StrLtTotal(m.id, x.id);
  }

  /** What both stores hold for a receiver after a push that fits. */
  lemma {:induction false} AfterPush(boxes: Boxes, db: Db, m: Letter, now: nat)
    requires Related(boxes, db) && GoodName(m.receiver) && !IdInUse(boxes, m.id)
    requires |BoxOf(boxes, m.receiver)| < CAPACITY
    ensures var boxes', db' := MemoryNext(CAPACITY, boxes, DoPush(m), now), SledNext(db, DoPush(m), now);
            && m.receiver in boxes' && boxes'[m.receiver] == BoxOf(boxes, m.receiver) + [m] && DistinctIds(boxes'[m.receiver])
            && Clean(db') && BoxIn(db', m.receiver) == InsertMilli(BoxIn(db, m.receiver), m) && DistinctIds(BoxIn(db', m.receiver))
  {
    var boxes', db' := Pushed(boxes, CAPACITY, m), Insert(db, Key(m), Held(m));
    assert SledNext(db, DoPush(m), now) == db' by { CountsAgree(boxes, db, m.receiver); }
    assert DistinctIds(BoxOf(boxes', m.receiver)) by {
      WellFormedPush(boxes, CAPACITY, m);
      BoxDistinct(boxes', m.receiver);
    }
    PushedBoxes(boxes, CAPACITY, m);
    PushJoinsTree(boxes, db, m);
    PushJoins(boxes, db, m);
  }

  lemma {:induction false} ClashIsSeen(boxes: Boxes, db: Db, m: Letter, now: nat)
    requires Related(boxes, db) && GoodName(m.receiver) && !IdInUse(boxes, m.id)
    requires |BoxOf(boxes, m.receiver)| < CAPACITY && !ClashFree(m, BoxOf(boxes, m.receiver))
    ensures exists cont :: AllQuiet(cont)
                           && !AnsweredAlike(MemoryNext(CAPACITY, boxes, DoPush(m), now), SledNext(db, DoPush(m), now), cont)
  {
    var a := m.receiver;
    var boxes', db' := MemoryNext(CAPACITY, boxes, DoPush(m), now), SledNext(db, DoPush(m), now);
    var x :| x in BoxOf(boxes, a) && Live(x) && !SamePlace(m, x);
    var n := TwinInTree(boxes, db, a, x);
    assert x.id != m.id && x.receiver == a by {
      NotInBox(boxes, a, m.id);
      BoxDistinct(boxes, a);
    }
    AfterPush(boxes, db, m, now);
    assert m in BoxIn(db', a) && n in BoxIn(db', a) by { InsertMembers(BoxIn(db, a), m); }
    OrdersAreTotal(m, x);
    if FifoLt(m, x) {
      DisputeIsSeen(boxes', db', m, x, m, n);
    } else {
      DisputeIsSeen(boxes', db', x, m, n, m);
    }
  }

  lemma {:induction false} HarmIsSeen(boxes: Boxes, db: Db, op: Op, now: nat)
    requires Related(boxes, db) && WellNamed(boxes, op) && !Harmless(boxes, op)
    ensures exists cont :: AllQuiet(cont) && !AnsweredAlike(boxes, db, [Timed(op, now)] + cont)
  {
    if op.DoTouch? {
      ClobberIsAnswered(boxes, db, op.agent, op.id, op.op, now);
      FirstAnswer(boxes, db, Timed(op, now), []);
      assert AllQuiet([]);
    } else {
      ClashIsSeen(boxes, db, op.letter, now);
      var cont :| AllQuiet(cont) && !AnsweredAlike(MemoryNext(CAPACITY, boxes, op, now), SledNext(db, op, now), cont);
      FirstAnswer(boxes, db, Timed(op, now), cont);
    }
  }

  /** An operation is harmless exactly when no caller can tell the backends apart by its answer
      or by any polls and re-queuings that follow. */
  lemma {:induction false} HarmlessExactly(boxes: Boxes, db: Db, op: Op, now: nat)
    requires Related(boxes, db) && WellNamed(boxes, op)
    ensures Harmless(boxes, op) <==> forall cont :: AllQuiet(cont) ==> AnsweredAlike(boxes, db, [Timed(op, now)] + cont)
  {
    if Harmless(boxes, op) {
      forall cont | AllQuiet(cont) ensures AnsweredAlike(boxes, db, [Timed(op, now)] + cont) {
        RepliesAgree(boxes, db, op, now);
        StepSimulates(boxes, db, op, now);
        QuietIsHarmless(MemoryNext(CAPACITY, boxes, op, now), cont);
        RunsAgree(MemoryNext(CAPACITY, boxes, op, now), SledNext(db, op, now), cont);
        FirstAnswer(boxes, db, Timed(op, now), cont);
      }
    } else {
      HarmIsSeen(boxes, db, op, now);
    }
  }

  // ---------- an example ----------

  function Sample(id: string, at: Instant): Letter {
    Letter(id, "s", "r", Task, "", "", None, Queued, at, None, None, None, None, 0, None, 0, None, None, None)
  }

  /** Two queued letters of one millisecond: the one sent first has the greater id, so the
      in-memory store hands out the first and the tree the second. */
  lemma {:induction false} OrderInsideMillisecond()
    ensures var x, m := Sample("b", 1), Sample("a", 2);
            && Drain(Fifo([x, m]), 1, 5).out == [HandOver(x, 5)]
            && PollFrom(Insert(Insert([], Key(x), Held(x)), Key(m), Held(m)), "r", 0, [], 1, 5).out == [HandOver(m, 5)]
  {
    var x, m := Sample("b", 1), Sample("a", 2);
    FifoOfSorted([x, m]);
    assert Millis(x) == 0 && Millis(m) == 0;
    assert StrLt("a", "b");
    KeyOrder(m, x);
    var db := [Entry(Key(m), Held(m)), Entry(Key(x), Held(x))];
    assert Insert(Insert([], Key(x), Held(x)), Key(m), Held(m)) == db;
    assert Prefix("r") <= Key(m);
  }
}
