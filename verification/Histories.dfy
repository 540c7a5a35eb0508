/** One letter in the in-memory store, where every method is one atomic step and any number of
    callers interleave: what each step of anybody does to it. */
module Histories {
  import opened Basics
  import opened Lifecycle
  import opened Mailbox
  import opened MemoryStore
  import opened Likeness
  import opened Simulation

  // ---------- one letter in a store ----------

  ghost function LetterOf(boxes: Boxes, id: string): Option<Letter> {
    if IdInUse(boxes, id) then
      var a :| a in boxes && HasId(boxes[a], id);
      Some(boxes[a][IndexOf(boxes[a], id)])
    else None
  }

  lemma {:induction false} TheLetter(boxes: Boxes, a: string, m: Letter)
    requires WellFormed(boxes) && a in boxes && m in boxes[a]
    ensures LetterOf(boxes, m.id) == Some(m)
  {
    var k :| 0 <= k < |boxes[a]| && boxes[a][k] == m;
    assert IndexOf(boxes[a], m.id) <= k;
    assert HasId(boxes[a], m.id);
    forall b | b in boxes && HasId(boxes[b], m.id) ensures boxes[b][IndexOf(boxes[b], m.id)] == m {
      assert boxes[b][IndexOf(boxes[b], m.id)].id == boxes[a][k].id;
    }
  }

  lemma {:induction false} HomeOf(boxes: Boxes, id: string)
    requires WellFormed(boxes) && LetterOf(boxes, id).Some?
    ensures var m := LetterOf(boxes, id).value; m.id == id && m.receiver in boxes && m in boxes[m.receiver]
  {
    var a :| a in boxes && HasId(boxes[a], id) && LetterOf(boxes, id) == Some(boxes[a][IndexOf(boxes[a], id)]);
  }

  lemma {:induction false} NoLetter(boxes: Boxes, id: string)
    requires forall a, m :: a in boxes && m in boxes[a] ==> m.id != id
    ensures LetterOf(boxes, id) == None
  {
    forall a | a in boxes ensures !HasId(boxes[a], id) {
      assert forall i :: 0 <= i < |boxes[a]| ==> boxes[a][i] in boxes[a];
    }
  }

  // ---------- one step of the store, seen from one letter ----------

  /** Ids are fresh when letters are sent, and letters are sent new and not in the future. */
  ghost predicate Sendable(boxes: Boxes, op: Op, now: nat) {
    op.DoPush? ==> !IdInUse(boxes, op.letter.id) && IsNew(op.letter) && op.letter.createdAt <= now
  }

  /** What one store step does to a letter that is stored before it. */
  ghost predicate LetterStep(m: Letter, op: Op, now: nat, after: Option<Letter>) {
    match op
    case DoTouch(a, id, lop) =>
      after == Some(if a == m.receiver && id == m.id then BackendOp(Memory, m, lop, now) else m)
    case DoPoll(a, _) =>
      after == Some(m) || (a == m.receiver && m.status == Queued && after == Some(BackendOp(Memory, m, OpDeliver, now)))
    case DoRevive(a) => after == Some(if a == m.receiver then ReviveLetter(m) else m)
    case DoDelete(id) => after == if id == m.id then None else Some(m)
    case DoDeleteAll => after == None
    case _ => after == Some(m)
  }

  lemma {:induction false} StepWellFormed(cap: nat, boxes: Boxes, op: Op, now: nat)
    requires WellFormed(boxes) && Sendable(boxes, op, now)
    ensures WellFormed(MemoryNext(cap, boxes, op, now))
  {
    match op
    case DoPush(m) => WellFormedPush(boxes, cap, m);
    case DoPoll(a, limit) => PolledWellFormed(boxes, a, limit, now);
    case DoTouch(a, id, lop) => TouchedWellFormed(boxes, a, id, lop, now);
    case DoRevive(a) => RevivedWellFormed(boxes, a);
    case DoDelete(id) => DeletedWellFormed(boxes, id);
    case DoDeleteAll =>
    case DoRegister(a) =>
      if a !in boxes {
        RegisteredWellFormed(boxes, a);
      }
    case DoUnregister(_) =>
  }

  /** A letter that is stored meets each step in exactly one way. */
  lemma {:induction false} StoredStep(cap: nat, boxes: Boxes, op: Op, now: nat, id: string)
    requires WellFormed(boxes) && Sendable(boxes, op, now) && LetterOf(boxes, id).Some?
    ensures LetterStep(LetterOf(boxes, id).value, op, now, LetterOf(MemoryNext(cap, boxes, op, now), id))
  {
    var m := LetterOf(boxes, id).value;
    HomeOf(boxes, id);
    StepWellFormed(cap, boxes, op, now);
    match op
    case DoPush(n) => TheLetter(MemoryNext(cap, boxes, op, now), m.receiver, m);
    case DoPoll(a, limit) => PollStep(boxes, a, limit, now, m);
    case DoTouch(a, i, lop) => TouchStep(boxes, a, i, lop, now, m);
    case DoRevive(a) => ReviveStep(boxes, a, m);
    case DoDelete(i) => DeleteStep(boxes, i, m);
    case DoDeleteAll => NoLetter(Emptied(boxes), id);
    case DoRegister(a) => TheLetter(MemoryNext(cap, boxes, op, now), m.receiver, m);
    case DoUnregister(a) =>
  }

  lemma {:induction false} TouchStep(boxes: Boxes, a: string, id: string, lop: LetterOp, now: nat, m: Letter)
    requires WellFormed(boxes) && m.receiver in boxes && m in boxes[m.receiver]
    ensures LetterStep(m, DoTouch(a, id, lop), now, LetterOf(Touched(boxes, a, id, lop, now), m.id))
  {
    var boxes' := Touched(boxes, a, id, lop, now);
    TouchedWellFormed(boxes, a, id, lop, now);
    var box := boxes[m.receiver];
    var k :| 0 <= k < |box| && box[k] == m;
    if a == m.receiver {
      var i := IndexOf(box, id);
      if id == m.id {
        assert i <= k && box[i].id == box[k].id;
        OpKeepsEnvelope(Memory, m, lop, now);
        assert boxes'[a][i] == BackendOp(Memory, m, lop, now);
        TheLetter(boxes', a, BackendOp(Memory, m, lop, now));
      } else {
        assert boxes'[a][k] == m;
        TheLetter(boxes', a, m);
      }
    } else {
      TheLetter(boxes', m.receiver, m);
    }
  }

  /** What a poll makes of one letter of its own mailbox. */
  lemma {:induction false} PolledLetter(box: seq<Letter>, limit: nat, now: nat, m: Letter) returns (n: Letter)
    requires DistinctIds(box) && m in box
    ensures n in Drain(Fifo(box), limit, now).box && SameEnvelope(m, n)
    ensures n == m || (m.status == Queued && n == BackendOp(Memory, m, OpDeliver, now))
  {
    var s := Fifo(box);
    FifoSorts(box);
    var k :| 0 <= k < |s| && s[k] == m;
    DrainChanges(s, limit, now, k);
    n := Drain(s, limit, now).box[k];
    OpKeepsEnvelope(Memory, m, OpDeliver, now);
  }

  lemma {:induction false} PollStep(boxes: Boxes, a: string, limit: nat, now: nat, m: Letter)
    requires WellFormed(boxes) && m.receiver in boxes && m in boxes[m.receiver]
    ensures LetterStep(m, DoPoll(a, limit), now, LetterOf(Polled(boxes, a, limit, now), m.id))
  {
    var boxes' := Polled(boxes, a, limit, now);
    PolledWellFormed(boxes, a, limit, now);
    if a == m.receiver {
      BoxDistinct(boxes, a);
      var n := PolledLetter(boxes[a], limit, now, m);
      TheLetter(boxes', a, n);
    } else {
      TheLetter(boxes', m.receiver, m);
    }
  }

  lemma {:induction false} ReviveStep(boxes: Boxes, a: string, m: Letter)
    requires WellFormed(boxes) && m.receiver in boxes && m in boxes[m.receiver]
    ensures LetterStep(m, DoRevive(a), 0, LetterOf(Revived(boxes, a), m.id))
  {
    RevivedWellFormed(boxes, a);
    if a == m.receiver {
      var k :| 0 <= k < |boxes[a]| && boxes[a][k] == m;
      assert Revived(boxes, a)[a][k] == ReviveLetter(m);
      TheLetter(Revived(boxes, a), a, ReviveLetter(m));
    } else {
      TheLetter(Revived(boxes, a), m.receiver, m);
    }
  }

  lemma {:induction false} DeleteStep(boxes: Boxes, id: string, m: Letter)
    requires WellFormed(boxes) && m.receiver in boxes && m in boxes[m.receiver]
    ensures LetterStep(m, DoDelete(id), 0, LetterOf(Deleted(boxes, id), m.id))
  {
    var boxes' := Deleted(boxes, id);
    DeletedWellFormed(boxes, id);
    forall a | a in boxes ensures forall n :: n in boxes'[a] <==> n in boxes[a] && n.id != id {
      BoxDistinct(boxes, a);
      DropMembers(boxes[a], id);
    }
    if id == m.id {
      NoLetter(boxes', id);
    } else {
      TheLetter(boxes', m.receiver, m);
    }
  }

  /** A letter that is not stored appears only by being sent. */
  lemma {:induction false} AbsentStep(cap: nat, boxes: Boxes, op: Op, now: nat, id: string)
    requires WellFormed(boxes) && Sendable(boxes, op, now) && LetterOf(boxes, id) == None
    ensures var after := LetterOf(MemoryNext(cap, boxes, op, now), id);
            after == None || (op.DoPush? && op.letter.id == id && after == Some(op.letter))
  {
    var boxes' := MemoryNext(cap, boxes, op, now);
    StepWellFormed(cap, boxes, op, now);
    if LetterOf(boxes', id).Some? {
      HomeOf(boxes', id);
      var m := LetterOf(boxes', id).value;
      if !(op.DoPush? && m == op.letter) {
        CameFrom(cap, boxes, op, now, m);
        var n :| n in boxes[m.receiver] && SameEnvelope(n, m);
        TheLetter(boxes, m.receiver, n);
      }
    }
  }

  /** No step but a push invents a letter. */
  lemma {:induction false} CameFrom(cap: nat, boxes: Boxes, op: Op, now: nat, m: Letter)
    requires WellFormed(boxes) && !(op.DoPush? && m == op.letter)
    requires var boxes' := MemoryNext(cap, boxes, op, now); m.receiver in boxes' && m in boxes'[m.receiver]
    ensures m.receiver in boxes && exists n :: n in boxes[m.receiver] && SameEnvelope(n, m)
  {
    var r := m.receiver;
    match op
    case DoPush(n) => assert m in BoxOf(boxes, r);
    case DoPoll(a, limit) =>
      BoxDistinct(boxes, r);
      DrainedSorted(BoxOf(boxes, r), limit, now);
    case DoTouch(a, id, lop) => UpdatedFrom(boxes[r], id, lop, now, m);
    case DoRevive(a) => RevivedFrom(boxes[r], m);
    case DoDelete(id) =>
      BoxDistinct(boxes, r);
      DropMembers(boxes[r], id);
    case _ =>
  }

  lemma {:induction false} UpdatedFrom(box: seq<Letter>, id: string, lop: LetterOp, now: nat, m: Letter)
    requires m in UpdateBox(Memory, box, id, lop, now) || m in box
    ensures exists n :: n in box && SameEnvelope(n, m)
  {
    if m !in box {
      var i := IndexOf(box, id);
      OpKeepsEnvelope(Memory, box[i], lop, now);
      assert box[i] in box;
    }
  }

  lemma {:induction false} RevivedFrom(box: seq<Letter>, m: Letter)
    requires m in Map(ReviveLetter, box) || m in box
    ensures exists n :: n in box && SameEnvelope(n, m)
  {
    if m !in box {
      var k :| 0 <= k < |box| && Map(ReviveLetter, box)[k] == m;
      assert box[k] in box;
    }
  }
}
