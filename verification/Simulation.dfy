/** Both backends are one bus: for every agent, the in-memory mailbox in FIFO order and the
    tree's mailbox in key order are alike, whatever operations are applied. */
module Simulation {
  import opened Basics
  import opened Lifecycle
  import opened Mailbox
  import opened SledTree
  import opened MemoryStore
  import opened SledStore
  import opened SledBoxes
  import opened Likeness

  // ---------- the operations ----------

  datatype Op =
    | DoPush(letter: Letter)
    | DoPoll(agent: string, limit: nat)
    | DoTouch(agent: string, id: string, op: LetterOp)
    | DoRevive(agent: string)
    | DoDelete(id: string)
    | DoDeleteAll
    | DoRegister(agent: string)
    | DoUnregister(agent: string)

  /** One step of an in-memory store of some capacity. */
  function MemoryNext(cap: nat, boxes: Boxes, op: Op, now: nat): Boxes {
    match op
    case DoPush(m) => Pushed(boxes, cap, m)
    case DoPoll(a, limit) => Polled(boxes, a, limit, now)
    case DoTouch(a, id, lop) => Touched(boxes, a, id, lop, now)
    case DoRevive(a) => Revived(boxes, a)
    case DoDelete(id) => Deleted(boxes, id)
    case DoDeleteAll => Emptied(boxes)
    case DoRegister(a) => if a in boxes then boxes else boxes[a := []]
    case DoUnregister(_) => boxes
  }

  function SledNext(db: Db, op: Op, now: nat): Db {
    match op
    case DoPush(m) => if CountScanned(db, m.receiver) >= CAPACITY then db else Insert(db, Key(m), Held(m))
    case DoPoll(a, limit) => PollFrom(db, a, 0, [], limit, now).db
    case DoTouch(a, id, lop) => EditedDb(db, a, id, OpEdit(lop, now))
    case DoRevive(a) => ReviveAll(db, a, Fifo(Select(db, IsCandidate(a))), 0, []).db
    case DoDelete(id) => WithoutId(db, id)
    case DoDeleteAll => Unremovable(db)
    case DoRegister(a) => Insert(db, MarkerKey(a), Marker)
    case DoUnregister(a) => Remove(db, MarkerKey(a))
  }

  ghost function IdsIn(boxes: Boxes): set<string> {
    set a, k | a in boxes && 0 <= k < |boxes[a]| :: boxes[a][k].id
  }

  // ---------- the relation ----------

  /** A mailbox in memory and one in the tree are one mailbox to their callers. */
  ghost predicate OneMailbox(box: seq<Letter>, t: seq<Letter>) {
    DistinctIds(t) && Alike(Fifo(box), t)
  }

  ghost predicate Related(boxes: Boxes, db: Db) {
    && WellFormed(boxes)
    && Clean(db)
    && (forall a :: a in boxes && boxes[a] != [] ==> GoodName(a))
    && (forall a :: GoodName(a) ==> OneMailbox(BoxOf(boxes, a), BoxIn(db, a)))
  }

  lemma {:induction false} EmptyRelated()
    ensures Related(map[], [])
  {}

  lemma {:induction false} BoxDistinct(boxes: Boxes, a: string)
    requires WellFormed(boxes)
    ensures DistinctIds(BoxOf(boxes, a))
    ensures forall m :: m in BoxOf(boxes, a) ==> m.receiver == a
  {}

  // ---------- updates ----------

  lemma {:induction false} TouchedWellFormed(boxes: Boxes, a: string, id: string, op: LetterOp, now: nat)
    requires WellFormed(boxes)
    ensures WellFormed(Touched(boxes, a, id, op, now))
  {
    if a in boxes {
      var r := UpdateBox(Memory, boxes[a], id, op, now);
      forall i | 0 <= i < |r| ensures SameEnvelope(boxes[a][i], r[i]) {
        OpKeepsEnvelope(Memory, boxes[a][i], op, now);
      }
    }
  }

  /** When one mailbox changed, the relation rests on that mailbox. */
  lemma {:induction false} RelatedOnOneBox(boxes: Boxes, db: Db, boxes': Boxes, db': Db, a: string)
    requires Related(boxes, db) && GoodName(a)
    requires WellFormed(boxes') && Clean(db') && DistinctIds(BoxIn(db', a))
    requires boxes'.Keys <= boxes.Keys + {a}
    requires forall b :: b != a ==> BoxOf(boxes', b) == BoxOf(boxes, b) && BoxIn(db', b) == BoxIn(db, b)
    ensures Related(boxes', db') <==> Alike(Fifo(BoxOf(boxes', a)), BoxIn(db', a))
  {
    assert OneMailbox(BoxOf(boxes', a), BoxIn(db', a)) <==> Alike(Fifo(BoxOf(boxes', a)), BoxIn(db', a));
    forall b | b in boxes' && boxes'[b] != [] ensures GoodName(b) {
      if b != a {
        assert BoxOf(boxes', b) == BoxOf(boxes, b);
      }
    }
    forall b | GoodName(b) && b != a ensures OneMailbox(BoxOf(boxes', b), BoxIn(db', b)) {
      assert BoxOf(boxes', b) == BoxOf(boxes, b) && BoxIn(db', b) == BoxIn(db, b);
    }
  }

  /** What the relation says of one mailbox. */
  lemma {:induction false} MailboxesAlike(boxes: Boxes, db: Db, a: string)
    requires Related(boxes, db) && GoodName(a)
    ensures var s, t := Fifo(BoxOf(boxes, a)), BoxIn(db, a);
            && Alike(s, t) && DistinctIds(s) && DistinctIds(t) && StrictFifoOrder(s) && StrictMilliOrder(t)
            && forall m :: m in s <==> m in BoxOf(boxes, a)
  {
    assert OneMailbox(BoxOf(boxes, a), BoxIn(db, a));
    BoxDistinct(boxes, a);
    FifoSorts(BoxOf(boxes, a));
    FifoStrict(BoxOf(boxes, a));
    BoxInOrder(db, a);
  }

  lemma {:induction false} UpdateKeepsDistinct(b: Backend, box: seq<Letter>, id: string, op: LetterOp, now: nat)
    requires DistinctIds(box)
    ensures DistinctIds(UpdateBox(b, box, id, op, now))
  {
    var r := UpdateBox(b, box, id, op, now);
    var i := IndexOf(box, id);
    if i < |box| {
      OpKeepsEnvelope(b, box[i], op, now);
    }
    assert forall k :: 0 <= k < |box| ==> r[k].id == box[k].id;
  }

  /** An update keeps the backends together exactly when it does not clobber a dead letter. */
  lemma {:induction false} TouchSimulates(boxes: Boxes, db: Db, a: string, id: string, op: LetterOp, now: nat)
    requires Related(boxes, db) && GoodName(a)
    ensures Related(Touched(boxes, a, id, op, now), EditedDb(db, a, id, OpEdit(op, now))) <==>
            !ClobbersAt(BoxOf(boxes, a), id, op)
  {
    var boxes', db' := Touched(boxes, a, id, op, now), EditedDb(db, a, id, OpEdit(op, now));
    var s, t := Fifo(BoxOf(boxes, a)), BoxIn(db, a);
    MailboxesAlike(boxes, db, a);
    assert Fifo(BoxOf(boxes', a)) == UpdateBox(Memory, s, id, op, now) by { TouchedSorted(boxes, a, id, op, now); }
    TouchedWellFormed(boxes, a, id, op, now);
    UpdateInBox(db, a, id, op, now);
    assert DistinctIds(BoxIn(db', a)) by { UpdateKeepsDistinct(Sled, t, id, op, now); }
    RelatedOnOneBox(boxes, db, boxes', db', a);
    UpdateAlike(s, t, id, op, now);
  }

  lemma {:induction false} TouchedSorted(boxes: Boxes, a: string, id: string, op: LetterOp, now: nat)
    requires WellFormed(boxes)
    ensures Fifo(BoxOf(Touched(boxes, a, id, op, now), a)) == UpdateBox(Memory, Fifo(BoxOf(boxes, a)), id, op, now)
  {
    var box := BoxOf(boxes, a);
    BoxDistinct(boxes, a);
    assert BoxOf(Touched(boxes, a, id, op, now), a) == UpdateBox(Memory, box, id, op, now);
    UpdateSorted(Memory, box, id, op, now);
  }

  // ---------- pushes ----------

  lemma {:induction false} BoxInOrder(db: Db, a: string)
    requires Valid(db)
    ensures StrictMilliOrder(BoxIn(db, a))
  {
    if db != [] {
      BoxInOrder(db[1..], a);
      if Belongs(db[0], a) {
        var t, rest := BoxIn(db, a), BoxIn(db[1..], a);
        assert db[0] in db;
        forall j | 0 < j < |t| ensures MilliLt(t[0], t[j]) {
          BoxInMembers(db[1..], a, t[j]);
          assert rest[j - 1] == t[j];
          var e :| e in db[1..] && e.value == Held(t[j]);
          KeyOrder(t[0], t[j]);
        }
      }
    }
  }

  /** Replacing one mailbox by letters that were in it keeps a store well formed. */
  lemma {:induction false} WellFormedBox(boxes: Boxes, a: string, r: seq<Letter>)
    requires WellFormed(boxes) && a in boxes && DistinctIds(r)
    requires forall x :: x in r ==> x.receiver == a && exists y :: y in boxes[a] && y.id == x.id
    ensures WellFormed(boxes[a := r])
  {
    var boxes': Boxes := boxes[a := r];
    forall c, j, x | c in boxes && c != a && 0 <= j < |boxes[c]| && x in r ensures boxes[c][j].id != x.id {
      var y :| y in boxes[a] && y.id == x.id;
      var k :| 0 <= k < |boxes[a]| && boxes[a][k] == y;
    }
    assert forall i :: 0 <= i < |r| ==> r[i] in r;
    forall b, i | b in boxes' && 0 <= i < |boxes'[b]| ensures boxes'[b][i].receiver == b {
      if b == a {
        assert r[i] in r;
      }
    }
  }

  lemma {:induction false} WellFormedPush(boxes: Boxes, capacity: nat, m: Letter)
    requires WellFormed(boxes) && !IdInUse(boxes, m.id)
    ensures WellFormed(Pushed(boxes, capacity, m))
  {
    var box := BoxOf(boxes, m.receiver);
    if |box| < capacity {
      WellFormedAppend(boxes, m);
    } else if m.receiver in boxes {
      assert boxes[m.receiver := box] == boxes;
    } else {
      RegisteredWellFormed(boxes, m.receiver);
    }
  }

  lemma {:induction false} WellFormedAppend(boxes: Boxes, m: Letter)
    requires WellFormed(boxes) && !IdInUse(boxes, m.id)
    ensures WellFormed(boxes[m.receiver := BoxOf(boxes, m.receiver) + [m]])
  {
    var box := BoxOf(boxes, m.receiver);
    var r: Boxes := boxes[m.receiver := box + [m]];
    forall b, i | b in boxes && 0 <= i < |boxes[b]| ensures boxes[b][i].id != m.id {
      assert IndexOf(boxes[b], m.id) == |boxes[b]|;
    }
    forall b, i | b in r && 0 <= i < |r[b]|
      ensures (i < |BoxOf(boxes, b)| && r[b][i] == BoxOf(boxes, b)[i]) || (b == m.receiver && i == |box| && r[b][i] == m)
    {
      assert b == m.receiver || r[b] == boxes[b];
    }
    forall b, c, i, j | b in r && c in r && 0 <= i < |r[b]| && 0 <= j < |r[c]| && r[b][i].id == r[c][j].id
      ensures b == c && i == j
    {
      assert i < |BoxOf(boxes, b)| <==> j < |BoxOf(boxes, c)|;
    }
  }

  lemma {:induction false} NotInBox(boxes: Boxes, a: string, id: string)
    requires !IdInUse(boxes, id)
    ensures forall x :: x in BoxOf(boxes, a) ==> x.id != id
  {
    if a in boxes {
      assert IndexOf(boxes[a], id) == |boxes[a]|;
    }
  }

  lemma {:induction false} NotInTree(boxes: Boxes, db: Db, a: string, id: string)
    requires Related(boxes, db) && GoodName(a) && !IdInUse(boxes, id)
    ensures forall x :: x in BoxIn(db, a) ==> x.id != id
  {
    MailboxesAlike(boxes, db, a);
    NotInBox(boxes, a, id);
    forall x | x in BoxIn(db, a) ensures x.id != id {
      var m := TwinOf(BoxIn(db, a), Fifo(BoxOf(boxes, a)), x);
    }
  }

  /** A fresh id gives a key that is not in the tree. */
  lemma {:induction false} FreshKey(boxes: Boxes, db: Db, m: Letter)
    requires Related(boxes, db) && GoodName(m.receiver) && !IdInUse(boxes, m.id)
    ensures forall e :: e in db ==> e.key != Key(m)
  {
    NotInTree(boxes, db, m.receiver, m.id);
    forall e | e in db ensures e.key != Key(m) {
      if e.key == Key(m) {
        KeyTaken(db, m, e);
      }
    }
  }

  /** In the tree, a letter that fits joins its own mailbox and no other. */
  lemma {:induction false} PushJoinsTree(boxes: Boxes, db: Db, m: Letter)
    requires Related(boxes, db) && GoodName(m.receiver) && !IdInUse(boxes, m.id)
    ensures Clean(Insert(db, Key(m), Held(m)))
    ensures forall b :: BoxIn(Insert(db, Key(m), Held(m)), b) ==
                        if b == m.receiver then InsertMilli(BoxIn(db, b), m) else BoxIn(db, b)
  {
    FreshKey(boxes, db, m);
    PushKeepsClean(db, m);
    forall b ensures BoxIn(Insert(db, Key(m), Held(m)), b) ==
                     if b == m.receiver then InsertMilli(BoxIn(db, b), m) else BoxIn(db, b)
    {
      PushInBox(db, m, b);
    }
  }

  /** The two sorted places of a new letter agree exactly when it does not clash. */
  lemma {:induction false} PushJoins(boxes: Boxes, db: Db, m: Letter)
    requires Related(boxes, db) && GoodName(m.receiver) && !IdInUse(boxes, m.id)
    ensures var box := BoxOf(boxes, m.receiver);
            Alike(Fifo(box + [m]), InsertMilli(BoxIn(db, m.receiver), m)) <==> ClashFree(m, box)
    ensures DistinctIds(InsertMilli(BoxIn(db, m.receiver), m))
  {
    var a := m.receiver;
    var box, t := BoxOf(boxes, a), BoxIn(db, a);
    MailboxesAlike(boxes, db, a);
    assert forall x :: x in Fifo(box) ==> x.id != m.id by { NotInBox(boxes, a, m.id); }
    InsertAlike(Fifo(box), t, m);
    assert (box + [m])[..|box|] == box;
    NotInTree(boxes, db, a, m.id);
    InsertDistinct(t, m);
  }

  lemma {:induction false} InsertDistinct(t: seq<Letter>, m: Letter)
    requires DistinctIds(t) && forall x :: x in t ==> x.id != m.id
    ensures DistinctIds(InsertMilli(t, m))
  {
    if t != [] {
      RestHasOtherIds(t);
      InsertDistinct(t[1..], m);
      InsertMembers(t[1..], m);
      var r := InsertMilli(t[1..], m);
      assert t[0] in t;
      forall j | 0 <= j < |r| ensures r[j].id != t[0].id {
        assert r[j] in r;
      }
      forall j | 0 <= j < |t| ensures t[j].id != m.id {
        assert t[j] in t;
      }
    }
  }

  lemma {:induction false} PushedBoxes(boxes: Boxes, capacity: nat, m: Letter)
    requires |BoxOf(boxes, m.receiver)| < capacity
    ensures var boxes' := Pushed(boxes, capacity, m);
            && boxes'.Keys == boxes.Keys + {m.receiver}
            && BoxOf(boxes', m.receiver) == BoxOf(boxes, m.receiver) + [m]
            && forall b :: b != m.receiver ==> BoxOf(boxes', b) == BoxOf(boxes, b)
  {}

  lemma {:induction false} PushFits(boxes: Boxes, db: Db, m: Letter, now: nat)
    requires Related(boxes, db) && GoodName(m.receiver) && !IdInUse(boxes, m.id)
    requires |BoxOf(boxes, m.receiver)| < CAPACITY
    ensures Related(MemoryNext(CAPACITY, boxes, DoPush(m), now), SledNext(db, DoPush(m), now)) <==>
            ClashFree(m, BoxOf(boxes, m.receiver))
  {
    var boxes', db' := Pushed(boxes, CAPACITY, m), Insert(db, Key(m), Held(m));
    assert SledNext(db, DoPush(m), now) == db' by { CountsAgree(boxes, db, m.receiver); }
    PushedBoxes(boxes, CAPACITY, m);
    assert WellFormed(boxes') by { WellFormedPush(boxes, CAPACITY, m); }
    PushJoins(boxes, db, m);
    PushJoinsTree(boxes, db, m);
    RelatedOnOneBox(boxes, db, boxes', db', m.receiver);
  }

  lemma {:induction false} PushRefused(boxes: Boxes, db: Db, m: Letter, now: nat)
    requires Related(boxes, db) && GoodName(m.receiver) && CAPACITY <= |BoxOf(boxes, m.receiver)|
    ensures MemoryNext(CAPACITY, boxes, DoPush(m), now) == boxes && SledNext(db, DoPush(m), now) == db
  {
    CountsAgree(boxes, db, m.receiver);
    assert boxes[m.receiver := boxes[m.receiver]] == boxes;
  }

  /** A push keeps the backends together exactly when the mailbox is full or the new letter
      does not clash with a letter of the same millisecond that can still be handed out. */
  lemma {:induction false} PushSimulates(boxes: Boxes, db: Db, m: Letter, now: nat)
    requires Related(boxes, db) && GoodName(m.receiver) && !IdInUse(boxes, m.id)
    ensures Related(MemoryNext(CAPACITY, boxes, DoPush(m), now), SledNext(db, DoPush(m), now)) <==>
            |BoxOf(boxes, m.receiver)| >= CAPACITY || ClashFree(m, BoxOf(boxes, m.receiver))
  {
    if |BoxOf(boxes, m.receiver)| < CAPACITY {
      PushFits(boxes, db, m, now);
    } else {
      PushRefused(boxes, db, m, now);
    }
  }

  /** Both backends count a mailbox alike. */
  lemma {:induction false} CountsAgree(boxes: Boxes, db: Db, a: string)
    requires Related(boxes, db) && GoodName(a)
    ensures |BoxOf(boxes, a)| == CountScanned(db, a)
  {
    CountIsBox(db, a);
    MailboxesAlike(boxes, db, a);
  }

  // ---------- polls ----------

  /** A drained mailbox is already sorted. */
  lemma {:induction false} DrainedSorted(box: seq<Letter>, limit: nat, now: nat)
    requires DistinctIds(box)
    ensures var r := Drain(Fifo(box), limit, now).box;
            Fifo(r) == r && DistinctIds(r)
    ensures forall x :: x in Drain(Fifo(box), limit, now).box ==>
              exists y :: y in box && SameEnvelope(y, x)
  {
    var s, r := Fifo(box), Drain(Fifo(box), limit, now).box;
    FifoSorts(box);
    FifoStrict(box);
    DrainKeepsOrder(s, limit, now);
    FifoOfSorted(r);
    forall x | x in r ensures exists y :: y in box && SameEnvelope(y, x) {
      var k :| 0 <= k < |r| && r[k] == x;
      assert s[k] in s;
    }
  }

  lemma {:induction false} DrainKeepsDistinct(box: seq<Letter>, limit: nat, now: nat)
    requires DistinctIds(box)
    ensures DistinctIds(Drain(box, limit, now).box)
  {
    DrainKeepsOrder(box, limit, now);
  }

  lemma {:induction false} PolledWellFormed(boxes: Boxes, a: string, limit: nat, now: nat)
    requires WellFormed(boxes)
    ensures WellFormed(Polled(boxes, a, limit, now))
    ensures var box := BoxOf(boxes, a);
            Fifo(BoxOf(Polled(boxes, a, limit, now), a)) == Drain(Fifo(box), limit, now).box
  {
    BoxDistinct(boxes, a);
    if a in boxes {
      DrainedSorted(boxes[a], limit, now);
      WellFormedBox(boxes, a, Drain(Fifo(boxes[a]), limit, now).box);
    }
  }

  lemma {:induction false} PollSimulates(boxes: Boxes, db: Db, a: string, limit: nat, now: nat)
    requires Related(boxes, db) && GoodName(a)
    ensures Related(Polled(boxes, a, limit, now), PollFrom(db, a, 0, [], limit, now).db)
    ensures PollFrom(db, a, 0, [], limit, now).readable
    ensures SameCores(Drain(Fifo(BoxOf(boxes, a)), limit, now).out, PollFrom(db, a, 0, [], limit, now).out)
  {
    MailboxesAlike(boxes, db, a);
    PollWhole(db, a, limit, now);
    DrainAlike(Fifo(BoxOf(boxes, a)), BoxIn(db, a), limit, now);
    PolledWellFormed(boxes, a, limit, now);
    DrainKeepsDistinct(BoxIn(db, a), limit, now);
    RelatedOnOneBox(boxes, db, Polled(boxes, a, limit, now), PollFrom(db, a, 0, [], limit, now).db, a);
  }

  lemma {:induction false} PollWhole(db: Db, a: string, limit: nat, now: nat)
    requires Clean(db) && GoodName(a)
    ensures var p := PollFrom(db, a, 0, [], limit, now); var d := Drain(BoxIn(db, a), limit, now);
            && p.readable && Clean(p.db) && BoxIn(p.db, a) == d.box && p.out == d.out
            && forall b :: b != a ==> BoxIn(p.db, b) == BoxIn(db, b)
  {
    PollInBox(db, a, 0, [], limit, now);
    assert db[..0] == [] && db[0..] == db;
    var d := Drain(BoxIn(db, a), limit, now);
    assert [] + d.box == d.box && [] + d.out == d.out;
  }

  // ---------- revival ----------

  lemma {:induction false} RevivedBox(box: seq<Letter>)
    requires DistinctIds(box)
    ensures Fifo(Map(ReviveLetter, box)) == Map(ReviveLetter, Fifo(box))
    ensures DistinctIds(Map(ReviveLetter, box))
    ensures forall x :: x in Map(ReviveLetter, box) ==> exists y :: y in box && SameEnvelope(y, x)
  {
    FifoMap(ReviveLetter, box);
    var r := Map(ReviveLetter, box);
    forall x | x in r ensures exists y :: y in box && SameEnvelope(y, x) {
      var k :| 0 <= k < |r| && r[k] == x;
      assert box[k] in box;
    }
  }

  lemma {:induction false} RevivedWellFormed(boxes: Boxes, a: string)
    requires WellFormed(boxes)
    ensures WellFormed(Revived(boxes, a))
    ensures Fifo(BoxOf(Revived(boxes, a), a)) == Map(ReviveLetter, Fifo(BoxOf(boxes, a)))
  {
    BoxDistinct(boxes, a);
    RevivedBox(BoxOf(boxes, a));
    if a in boxes {
      WellFormedBox(boxes, a, Map(ReviveLetter, boxes[a]));
    } else {
      assert Map(ReviveLetter, []) == [];
    }
  }

  lemma {:induction false} ReviveKeepsDistinct(box: seq<Letter>)
    requires DistinctIds(box)
    ensures DistinctIds(Map(ReviveLetter, box))
  {}

  lemma {:induction false} ReviveSimulates(boxes: Boxes, db: Db, a: string)
    requires Related(boxes, db) && GoodName(a)
    ensures Related(Revived(boxes, a), ReviveAll(db, a, Fifo(Select(db, IsCandidate(a))), 0, []).db)
    ensures CoreSet(Map(ReviveLetter, RevivableOf(BoxOf(boxes, a)))) ==
            CoreSet(ReviveAll(db, a, Fifo(Select(db, IsCandidate(a))), 0, []).revived)
  {
    RevivedStaysRelated(boxes, db, a);
    RevivedAlike(boxes, db, a);
  }

  lemma {:induction false} RevivalOfMailbox(db: Db, a: string)
    requires Clean(db) && GoodName(a) && DistinctIds(BoxIn(db, a))
    ensures var db' := ReviveAll(db, a, Fifo(Select(db, IsCandidate(a))), 0, []).db;
            && Clean(db') && BoxIn(db', a) == Map(ReviveLetter, BoxIn(db, a))
            && forall b :: b != a ==> BoxIn(db', b) == BoxIn(db, b)
  {
    RevivalInBox(db, a);
  }

  lemma {:induction false} RevivedStaysRelated(boxes: Boxes, db: Db, a: string)
    requires Related(boxes, db) && GoodName(a)
    ensures Related(Revived(boxes, a), ReviveAll(db, a, Fifo(Select(db, IsCandidate(a))), 0, []).db)
  {
    var db' := ReviveAll(db, a, Fifo(Select(db, IsCandidate(a))), 0, []).db;
    MailboxesAlike(boxes, db, a);
    RevivalOfMailbox(db, a);
    RevivedOnOneBox(boxes, db, db', a);
  }

  lemma {:induction false} RevivedOnOneBox(boxes: Boxes, db: Db, db': Db, a: string)
    requires Related(boxes, db) && GoodName(a)
    requires Clean(db') && BoxIn(db', a) == Map(ReviveLetter, BoxIn(db, a))
    requires forall b :: b != a ==> BoxIn(db', b) == BoxIn(db, b)
    ensures Related(Revived(boxes, a), db')
  {
    MailboxesAlike(boxes, db, a);
    RevivedWellFormed(boxes, a);
    ReviveAlike(Fifo(BoxOf(boxes, a)), BoxIn(db, a));
    ReviveKeepsDistinct(BoxIn(db, a));
    RelatedOnOneBox(boxes, db, Revived(boxes, a), db', a);
  }

  lemma {:induction false} RevivedAlike(boxes: Boxes, db: Db, a: string)
    requires Related(boxes, db) && GoodName(a)
    ensures CoreSet(Map(ReviveLetter, RevivableOf(BoxOf(boxes, a)))) ==
            CoreSet(ReviveAll(db, a, Fifo(Select(db, IsCandidate(a))), 0, []).revived)
  {
    var box := BoxOf(boxes, a);
    MailboxesAlike(boxes, db, a);
    RevivalInBox(db, a);
    assert CoreSet(box) == CoreSet(Fifo(box));
    RevivedSets(box, BoxIn(db, a), Fifo(Select(db, IsCandidate(a))));
  }

  // ---------- deletions ----------

  lemma {:induction false} DropKeepsOrder(box: seq<Letter>, id: string)
    requires StrictFifoOrder(box)
    ensures StrictFifoOrder(DropId(box, id))
    ensures forall m :: m in DropId(box, id) ==> m in box
  {
    if box != [] && box[0].id != id {
      DropKeepsOrder(box[1..], id);
      var r := DropId(box[1..], id);
      forall j | 0 <= j < |r| ensures FifoLt(box[0], r[j]) {
        assert r[j] in box[1..];
      }
    }
  }

  /** With distinct ids it does not matter whether one sorts before or after a removal. */
  lemma {:induction false} DropCommutes(box: seq<Letter>, id: string)
    requires DistinctIds(box)
    ensures Fifo(DropId(box, id)) == DropId(Fifo(box), id)
  {
    FifoStrict(box);
    DropMembers(box, id);
    DropDistinct(box, id);
    DropMembers(Fifo(box), id);
    DropKeepsOrder(Fifo(box), id);
    DropSorted(box, DropId(box, id), id);
    StrictOrderUnique(Fifo(DropId(box, id)), DropId(Fifo(box), id));
  }

  lemma {:induction false} DeletedWellFormed(boxes: Boxes, id: string)
    requires WellFormed(boxes)
    ensures WellFormed(Deleted(boxes, id))
  {
    if IdInUse(boxes, id) {
      var a :| a in boxes && HasId(boxes[a], id);
      BoxDistinct(boxes, a);
      DeletedFromOne(boxes, a, id);
      DropMembers(boxes[a], id);
      DropDistinct(boxes[a], id);
      WellFormedBox(boxes, a, DropId(boxes[a], id));
    } else {
      DeletedFromNone(boxes, id);
    }
  }

  /** A letter of one tree mailbox has its twin in memory under the same receiver. */
  lemma {:induction false} TwinInMemory(boxes: Boxes, db: Db, a: string, n: Letter) returns (m: Letter)
    requires Related(boxes, db) && GoodName(a) && n in BoxIn(db, a)
    ensures a in boxes && m in boxes[a] && Core(m) == Core(n) && m.id == n.id
  {
    MailboxesAlike(boxes, db, a);
    m := TwinOf(BoxIn(db, a), Fifo(BoxOf(boxes, a)), n);
  }

  lemma {:induction false} TwinInTree(boxes: Boxes, db: Db, a: string, m: Letter) returns (n: Letter)
    requires Related(boxes, db) && a in boxes && m in boxes[a]
    ensures GoodName(a) && n in BoxIn(db, a) && Core(m) == Core(n) && m.id == n.id
  {
    assert boxes[a] != [];
    MailboxesAlike(boxes, db, a);
    n := TwinOf(Fifo(BoxOf(boxes, a)), BoxIn(db, a), m);
  }

  lemma {:induction false} OneTreeHolder(boxes: Boxes, db: Db, a: string, b: string, n: Letter, x: Letter)
    requires Related(boxes, db) && GoodName(a) && GoodName(b)
    requires n in BoxIn(db, a) && x in BoxIn(db, b) && n.id == x.id
    ensures a == b
  {
    var m := TwinInMemory(boxes, db, a, n);
    var y := TwinInMemory(boxes, db, b, x);
    var i :| 0 <= i < |boxes[a]| && boxes[a][i] == m;
    var j :| 0 <= j < |boxes[b]| && boxes[b][j] == y;
  }

  /** An id that one mailbox holds is located in the tree, in an entry of that mailbox. */
  lemma {:induction false} LocatedIn(boxes: Boxes, db: Db, id: string, b: string)
    requires Related(boxes, db) && GoodName(b) && HasId(BoxIn(db, b), id)
    ensures var i := Locate(db, id); i < |db| && Belongs(db[i], b)
  {
    var t, i := BoxIn(db, b), Locate(db, id);
    var x := t[IndexOf(t, id)];
    BoxInMembers(db, b, x);
    var e :| e in db && e.value == Held(x);
    var n := db[i].value.letter;
    assert db[i] in db;
    BoxInMembers(db, n.receiver, n);
    OneTreeHolder(boxes, db, n.receiver, b, n, x);
  }

  /** The tree without the first letter of that id. */
  function WithoutId(db: Db, id: string): Db {
    var i := Locate(db, id);
    if i == |db| then db else Without(db, i)
  }

  /** Deleting by id in the tree drops the id from every mailbox. */
  lemma {:induction false} DeleteInTree(boxes: Boxes, db: Db, id: string, b: string)
    requires Related(boxes, db) && GoodName(b)
    ensures BoxIn(WithoutId(db, id), b) == DropId(BoxIn(db, b), id)
  {
    var i := Locate(db, id);
    if i < |db| && Belongs(db[i], b) {
      LocatedIsCut(boxes, db, i, id, b);
    } else {
      CutElsewhere(db, id, b);
      LocatedElsewhere(boxes, db, id, b);
    }
  }

  lemma {:induction false} CutElsewhere(db: Db, id: string, b: string)
    requires Locate(db, id) == |db| || !Belongs(db[Locate(db, id)], b)
    ensures BoxIn(WithoutId(db, id), b) == BoxIn(db, b)
  {
    if Locate(db, id) < |db| {
      CutInBox(db, Locate(db, id), b);
    }
  }

  lemma {:induction false} LocatedElsewhere(boxes: Boxes, db: Db, id: string, b: string)
    requires Related(boxes, db) && GoodName(b)
    requires Locate(db, id) == |db| || !Belongs(db[Locate(db, id)], b)
    ensures DropId(BoxIn(db, b), id) == BoxIn(db, b)
  {
    if HasId(BoxIn(db, b), id) {
      LocatedIn(boxes, db, id, b);
    }
    DropIsCut(BoxIn(db, b), id);
  }

  lemma {:induction false} LocatedIsCut(boxes: Boxes, db: Db, i: nat, id: string, b: string)
    requires Related(boxes, db) && GoodName(b) && i < |db| && Belongs(db[i], b) && db[i].value.letter.id == id
    ensures BoxIn(Without(db, i), b) == DropId(BoxIn(db, b), id)
  {
    var t := BoxIn(db, b);
    assert OneMailbox(BoxOf(boxes, b), t);
    CutInBox(db, i, b);
    IndexOfDistinct(t, |BoxIn(db[..i], b)|);
    DropIsCut(t, id);
  }

  lemma {:induction false} DeleteKeepsClean(db: Db, id: string)
    requires Clean(db)
    ensures Clean(SledNext(db, DoDelete(id), 0))
  {
    var i := Locate(db, id);
    if i < |db| {
      CutKeepsOrder(db, i);
    }
  }

  lemma {:induction false} DeletedAlike(boxes: Boxes, db: Db, id: string, b: string)
    requires Related(boxes, db) && GoodName(b)
    ensures OneMailbox(BoxOf(Deleted(boxes, id), b), BoxIn(SledNext(db, DoDelete(id), 0), b))
  {
    BoxDistinct(boxes, b);
    MailboxesAlike(boxes, db, b);
    assert BoxOf(Deleted(boxes, id), b) == DropId(BoxOf(boxes, b), id);
    DropCommutes(BoxOf(boxes, b), id);
    DropAlike(Fifo(BoxOf(boxes, b)), BoxIn(db, b), id);
    DropDistinct(BoxIn(db, b), id);
    DeleteInTree(boxes, db, id, b);
  }

  lemma {:induction false} DeleteSimulates(boxes: Boxes, db: Db, id: string)
    requires Related(boxes, db)
    ensures Related(Deleted(boxes, id), SledNext(db, DoDelete(id), 0))
  {
    var boxes', db' := Deleted(boxes, id), SledNext(db, DoDelete(id), 0);
    DeletedWellFormed(boxes, id);
    DeleteKeepsClean(db, id);
    forall b | GoodName(b) ensures OneMailbox(BoxOf(boxes', b), BoxIn(db', b)) {
      DeletedAlike(boxes, db, id, b);
    }
    forall a | a in boxes' && boxes'[a] != [] ensures GoodName(a) {
      assert boxes[a] != [];
    }
  }

  // ---------- clean-up and markers ----------

  lemma {:induction false} EmptyMailboxes()
    ensures OneMailbox([], [])
  {}

  lemma {:induction false} CleanUpKeepsClean(db: Db)
    requires Clean(db)
    ensures Clean(Unremovable(db)) && forall b :: BoxIn(Unremovable(db), b) == []
  {
    forall b ensures BoxIn(Unremovable(db), b) == [] {
      CleanUpInBox(db, b);
    }
    CleanUpInBox(db, "");
  }

  lemma {:induction false} CleanUpSimulates(boxes: Boxes, db: Db)
    requires Related(boxes, db)
    ensures Related(Emptied(boxes), Unremovable(db))
  {
    CleanUpKeepsClean(db);
    EmptyMailboxes();
    assert forall b :: BoxOf(Emptied(boxes), b) == [];
  }

  lemma {:induction false} RegisteredWellFormed(boxes: Boxes, a: string)
    requires WellFormed(boxes) && a !in boxes
    ensures WellFormed(boxes[a := []])
    ensures forall b :: BoxOf(boxes[a := []], b) == BoxOf(boxes, b)
  {}

  lemma {:induction false} MarkingSimulates(boxes: Boxes, db: Db, a: string)
    requires Related(boxes, db)
    ensures Related(boxes, Insert(db, MarkerKey(a), Marker))
  {
    MarkKeepsClean(db, a);
    forall b | GoodName(b) ensures OneMailbox(BoxOf(boxes, b), BoxIn(Insert(db, MarkerKey(a), Marker), b)) {
      assert OneMailbox(BoxOf(boxes, b), BoxIn(db, b));
      MarkInBox(db, a, b);
    }
  }

  lemma {:induction false} RegisterSimulates(boxes: Boxes, db: Db, a: string)
    requires Related(boxes, db)
    ensures Related(if a in boxes then boxes else boxes[a := []], Insert(db, MarkerKey(a), Marker))
  {
    MarkingSimulates(boxes, db, a);
    if a !in boxes {
      var db' := Insert(db, MarkerKey(a), Marker);
      RegisteredWellFormed(boxes, a);
      forall b | GoodName(b) ensures OneMailbox(BoxOf(boxes[a := []], b), BoxIn(db', b)) {
        assert OneMailbox(BoxOf(boxes, b), BoxIn(db', b));
      }
    }
  }

  lemma {:induction false} UnregisterSimulates(boxes: Boxes, db: Db, a: string)
    requires Related(boxes, db)
    ensures Related(boxes, Remove(db, MarkerKey(a)))
  {
    RemoveKeepsOrder(db, MarkerKey(a));
    forall b | GoodName(b) ensures OneMailbox(BoxOf(boxes, b), BoxIn(Remove(db, MarkerKey(a)), b)) {
      UnmarkInBox(db, a, b);
    }
  }

  // ---------- registrations in the tree ----------

  ghost predicate Marked(db: Db, agent: string) { HasKey(db, "__agent__::" + agent) }

  /** Registering marks the agent and no other, and unregistering unmarks it and no other. */
  lemma {:induction false} MarkersTell(db: Db, a: string, b: string, now: nat)
    requires KeySorted(db)
    ensures Marked(SledNext(db, DoRegister(a), now), b) <==> b == a || Marked(db, b)
    ensures Marked(SledNext(db, DoUnregister(a), now), b) <==> b != a && Marked(db, b)
  {
    KeysAfter(db, MarkerKey(a), Marker, "__agent__::" + b);
    assert MarkerKey(a) == "__agent__::" + a;
    assert ("__agent__::" + a)[11..] == a && ("__agent__::" + b)[11..] == b;
  }
}
