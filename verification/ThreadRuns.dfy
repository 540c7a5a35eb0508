/** Threads over time: what sends, replies and deletions do to the references of a store. */
module ThreadRuns {
  import opened Basics
  import opened Lifecycle
  import opened Mailbox
  import opened MemoryStore
  import opened Simulation
  import opened Agreement
  import opened Histories
  import opened Ledger
  import opened Threads
  import opened Sweeps

  // ---------- one letter more, one letter less ----------

  /** A new id: no letter has it and no reference mentions it. */
  ghost predicate FreshRef(refs: Refs, id: string) {
    id !in refs && forall x :: x in refs ==> refs[x] != Some(id)
  }

  lemma {:induction false} SameClimb(refs: Refs, refs': Refs, x: string, n: nat)
    requires x in refs
    requires forall y :: y in refs ==> Up(refs', y) == Up(refs, y)
    ensures Climb(refs', x, n) == Climb(refs, x, n) && UpN(refs', x, n) == UpN(refs, x, n)
    decreases n
  {
    if 0 < n && Up(refs, x).Some? {
      SameClimb(refs, refs', Up(refs, x).value, n - 1);
    }
  }

  lemma {:induction false} SendKeepsUp(refs: Refs, id: string, parent: Option<string>)
    requires FreshRef(refs, id)
    ensures forall y :: y in refs ==> Up(refs[id := parent], y) == Up(refs, y)
  {}

  /** Sending a letter under a new id, whatever it refers to, closes no cycle and moves no
      letter to another root. */
  lemma {:induction false} SendKeepsThreads(refs: Refs, id: string, parent: Option<string>)
    requires ChainsEnd(refs) && FreshRef(refs, id)
    ensures ChainsEnd(refs[id := parent])
    ensures forall x :: x in refs ==> Root(refs[id := parent], x) == Root(refs, x)
  {
    var refs' := refs[id := parent];
    SendKeepsUp(refs, id, parent);
    forall x | x in refs ensures exists d: nat :: Ends(refs', x, d) {
      var d := Depth(refs, x);
      SameClimb(refs, refs', x, d);
      UpNStays(refs, x, d);
      assert Ends(refs', x, d);
    }
    if Up(refs', id).None? {
      assert Ends(refs', id, 0);
    } else {
      var p := Up(refs', id).value;
      var d: nat :| Ends(refs', p, d);
      assert Ends(refs', id, d + 1);
    }
    forall x | x in refs ensures Root(refs', x) == Root(refs, x) {
      SameClimb(refs, refs', x, ROOT_HOPS);
    }
  }

  lemma {:induction false} DeleteEnds(refs: Refs, gone: string, x: string, d: nat) returns (e: nat)
    requires Ends(refs, x, d) && x != gone
    ensures Ends(refs - {gone}, x, e)
    decreases d
  {
    var refs' := refs - {gone};
    if Up(refs', x).None? {
      e := 0;
    } else {
      e := DeleteEnds(refs, gone, Up(refs, x).value, d - 1);
      e := e + 1;
    }
  }

  /** Deleting a letter closes no cycle either. */
  lemma {:induction false} DeleteKeepsChains(refs: Refs, gone: string)
    requires ChainsEnd(refs)
    ensures ChainsEnd(refs - {gone})
  {
    forall x | x in refs - {gone} ensures exists d: nat :: Ends(refs - {gone}, x, d) {
      var d := DeleteEnds(refs, gone, x, Depth(refs, x));
    }
  }

  /** A reply joins the thread of the letter it answers exactly when that letter lies at most 31
      references below its root. */
  lemma {:induction false} ReplyJoinsThread(refs: Refs, id: string, p: string)
    requires ChainsEnd(refs) && FreshRef(refs, id) && p in refs
    ensures var refs' := refs[id := Some(p)];
            Root(refs', id) == Root(refs', p) <==> Depth(refs, p) < 32
  {
    var refs' := refs[id := Some(p)];
    var d, n := Depth(refs, p), ROOT_HOPS - 1;
    SendKeepsUp(refs, id, Some(p));
    SameClimb(refs, refs', p, n);
    SameClimb(refs, refs', p, n + 1);
    assert Root(refs', id) == Climb(refs, p, n);
    ClimbIs(refs, p, d, n);
    ClimbIs(refs, p, d, n + 1);
    if n < d {
      NextIsElsewhere(refs, p, n);
    }
  }

  /** A step up always leads to another letter. */
  lemma {:induction false} NextIsElsewhere(refs: Refs, p: string, n: nat)
    requires UpN(refs, p, n).Some? && UpN(refs, p, n + 1).Some?
    ensures UpN(refs, p, n + 1) != UpN(refs, p, n)
  {
    UpNSteps(refs, p, n, 1);
    UpOnce(refs, UpN(refs, p, n).value);
  }

  lemma {:induction false} UpOnce(refs: Refs, x: string)
    ensures UpN(refs, x, 1) == Up(refs, x)
  {
    if Up(refs, x).Some? {
      assert UpN(refs, Up(refs, x).value, 0) == Up(refs, x);
    }
  }

  // ---------- the references of a store ----------

  ghost function RefsIn(boxes: Boxes): Refs {
    map id | id in IdsIn(boxes) && LetterOf(boxes, id).Some? :: LetterOf(boxes, id).value.parent
  }

  lemma {:induction false} StoredIds(boxes: Boxes, id: string)
    requires WellFormed(boxes)
    ensures id in RefsIn(boxes) <==> LetterOf(boxes, id).Some?
  {
    if LetterOf(boxes, id).Some? {
      HomeOf(boxes, id);
      var m := LetterOf(boxes, id).value;
      var k :| 0 <= k < |boxes[m.receiver]| && boxes[m.receiver][k] == m;
    }
  }

  lemma {:induction false} RefsAt(all: seq<Letter>, m: Letter)
    requires DistinctIds(all) && m in all
    ensures m.id in RefsOf(all) && RefsOf(all)[m.id] == m.parent
  {
    var n := |all| - 1;
    assert all == all[..n] + [all[n]];
    if m != all[n] {
      var k :| 0 <= k < |all| && all[k] == m;
      RefsAt(all[..n], m);
    }
  }

  /** The references that the thread query reads off the listing are those of the store. */
  lemma {:induction false} ListingRefs(boxes: Boxes, all: seq<Letter>)
    requires WellFormed(boxes) && Lists(all, boxes)
    ensures RefsOf(all) == RefsIn(boxes)
  {
    forall id ensures id in RefsOf(all) <==> id in RefsIn(boxes) {
      IdsInRefs(all, id);
      StoredIds(boxes, id);
      if LetterOf(boxes, id).Some? {
        HomeOf(boxes, id);
        assert Stored(boxes, LetterOf(boxes, id).value);
      }
      if m :| m in all && m.id == id {
        var a :| a in boxes && m in boxes[a];
        TheLetter(boxes, a, m);
      }
    }
    forall id | id in RefsOf(all) ensures RefsOf(all)[id] == RefsIn(boxes)[id] {
      IdsInRefs(all, id);
      var m :| m in all && m.id == id;
      RefsAt(all, m);
      var a :| a in boxes && m in boxes[a];
      TheLetter(boxes, a, m);
    }
  }

  // ---------- runs ----------

  lemma {:induction false} LetterRefStep(cap: nat, boxes: Boxes, op: Op, now: nat, id: string)
    requires WellFormed(boxes) && Sendable(boxes, op, now)
    ensures var before, after := LetterOf(boxes, id), LetterOf(MemoryNext(cap, boxes, op, now), id);
            && (before.Some? && after.Some? ==> after.value.parent == before.value.parent)
            && (before.Some? && !op.DoDeleteAll? && op != DoDelete(id) ==> after.Some?)
            && (before.Some? && (op.DoDeleteAll? || op == DoDelete(id)) ==> after.None?)
            && (before.None? && after.Some? ==> op.DoPush? && op.letter.id == id && after.value.parent == op.letter.parent)
  {
    if LetterOf(boxes, id).Some? {
      var m := LetterOf(boxes, id).value;
      StoredStep(cap, boxes, op, now, id);
      assert m.id == id by { HomeOf(boxes, id); }
      match op {
        case DoTouch(a, i, lop) => OpKeepsEnvelope(Memory, m, lop, now);
        case DoPoll(a, limit) => OpKeepsEnvelope(Memory, m, OpDeliver, now);
        case _ =>
      }
    } else {
      AbsentStep(cap, boxes, op, now, id);
    }
  }

  /** What a step may do to the reference of one id. */
  ghost predicate RefMoves(before: Refs, after: Refs, op: Op, id: string) {
    && (id in before && id in after ==> after[id] == before[id])
    && (id in before ==> (id in after <==> !op.DoDeleteAll? && op != DoDelete(id)))
    && (id !in before && id in after ==> op.DoPush? && op.letter.id == id && after[id] == op.letter.parent)
  }

  lemma {:induction false} RefStep(cap: nat, boxes: Boxes, op: Op, now: nat, id: string)
    requires WellFormed(boxes) && Sendable(boxes, op, now)
    ensures RefMoves(RefsIn(boxes), RefsIn(MemoryNext(cap, boxes, op, now)), op, id)
  {
    StepWellFormed(cap, boxes, op, now);
    StoredIds(boxes, id);
    StoredIds(MemoryNext(cap, boxes, op, now), id);
    LetterRefStep(cap, boxes, op, now, id);
  }

  /** What one step does to the references of the store. */
  ghost predicate RefsMove(before: Refs, after: Refs, op: Op) {
    match op
    case DoPush(m) => after == before || after == before[m.id := m.parent]
    case DoDelete(id) => after == before - {id}
    case DoDeleteAll => after == map[]
    case _ => after == before
  }

  lemma {:induction false} RefsFollow(before: Refs, after: Refs, op: Op)
    requires forall id :: RefMoves(before, after, op, id)
    requires op.DoPush? ==> op.letter.id !in before
    ensures RefsMove(before, after, op)
  {
    assert forall id :: id in before || id in after ==> RefMoves(before, after, op, id);
    if op.DoPush? && op.letter.id in after {
      assert after == before[op.letter.id := op.letter.parent];
    }
  }

  lemma {:induction false} RefsStep(cap: nat, boxes: Boxes, op: Op, now: nat)
    requires WellFormed(boxes) && Sendable(boxes, op, now)
    requires op.DoPush? ==> op.letter.id !in RefsIn(boxes)
    ensures RefsMove(RefsIn(boxes), RefsIn(MemoryNext(cap, boxes, op, now)), op)
  {
    forall id ensures RefMoves(RefsIn(boxes), RefsIn(MemoryNext(cap, boxes, op, now)), op, id) {
      RefStep(cap, boxes, op, now, id);
    }
    RefsFollow(RefsIn(boxes), RefsIn(MemoryNext(cap, boxes, op, now)), op);
  }

  ghost predicate RefsFresh(cap: nat, boxes: Boxes, run: seq<Timed>)
    decreases |run|
  {
    run != [] ==>
      && (run[0].op.DoPush? ==> FreshRef(RefsIn(boxes), run[0].op.letter.id))
      && RefsFresh(cap, MemoryNext(cap, boxes, run[0].op, run[0].at), run[1..])
  }

  lemma {:induction false} ChainsStep(cap: nat, boxes: Boxes, op: Op, now: nat)
    requires WellFormed(boxes) && Sendable(boxes, op, now) && ChainsEnd(RefsIn(boxes))
    requires op.DoPush? ==> FreshRef(RefsIn(boxes), op.letter.id)
    ensures ChainsEnd(RefsIn(MemoryNext(cap, boxes, op, now)))
    ensures !op.DoDelete? && !op.DoDeleteAll? ==>
              forall x :: x in RefsIn(boxes) ==>
                x in RefsIn(MemoryNext(cap, boxes, op, now)) && Root(RefsIn(MemoryNext(cap, boxes, op, now)), x) == Root(RefsIn(boxes), x)
  {
    RefsStep(cap, boxes, op, now);
    match op
    case DoPush(m) => SendKeepsThreads(RefsIn(boxes), m.id, m.parent);
    case DoDelete(id) => DeleteKeepsChains(RefsIn(boxes), id);
    case _ =>
  }

  /** On every reachable store references do not go round, provided new ids are fresh. */
  lemma {:induction false} ChainsAlwaysEnd(cap: nat, boxes: Boxes, run: seq<Timed>)
    requires WellFormed(boxes) && RunSendable(cap, boxes, run) && RefsFresh(cap, boxes, run) && ChainsEnd(RefsIn(boxes))
    ensures ChainsEnd(RefsIn(MemoryAfter(cap, boxes, run)))
    decreases |run|
  {
    if run != [] {
      ChainsStep(cap, boxes, run[0].op, run[0].at);
      StepWellFormed(cap, boxes, run[0].op, run[0].at);
      ChainsAlwaysEnd(cap, MemoryNext(cap, boxes, run[0].op, run[0].at), run[1..]);
    }
  }

  ghost predicate NothingDeleted(run: seq<Timed>)
    decreases |run|
  {
    run != [] ==> !run[0].op.DoDelete? && !run[0].op.DoDeleteAll? && NothingDeleted(run[1..])
  }

  /** Over any run without deletions a letter keeps the root it has. */
  lemma {:induction false} RootsArePermanent(cap: nat, boxes: Boxes, run: seq<Timed>, x: string)
    requires WellFormed(boxes) && RunSendable(cap, boxes, run) && RefsFresh(cap, boxes, run) && ChainsEnd(RefsIn(boxes))
    requires NothingDeleted(run)
    requires x in RefsIn(boxes)
    ensures var refs := RefsIn(MemoryAfter(cap, boxes, run)); x in refs && Root(refs, x) == Root(RefsIn(boxes), x)
    decreases |run|
  {
    if run != [] {
      ChainsStep(cap, boxes, run[0].op, run[0].at);
      StepWellFormed(cap, boxes, run[0].op, run[0].at);
      RootsArePermanent(cap, MemoryNext(cap, boxes, run[0].op, run[0].at), run[1..], x);
    }
  }
}
