/** What callers see: the two backends answer every operation alike, over whole runs. */
module Agreement {
  import opened Basics
  import opened Lifecycle
  import opened Mailbox
  import opened SledTree
  import opened MemoryStore
  import opened SledStore
  import opened SledBoxes
  import opened Likeness
  import opened Simulation

  // ---------- replies ----------

  datatype Reply =
    | Done
    | Refusal(error: BusError)
    | Single(core: Letter)
    | Won(won: bool)
    | Batch(cores: seq<Letter>)
    | Group(members: set<Letter>)
    | Removed(count: int)

  function CoreReply(r: Result<Letter>): Reply {
    match r
    case Ok(m) => Single(Core(m))
    case Err(e) => Refusal(e)
  }

  function ClaimAnswer(r: Result<bool>): Reply {
    match r
    case Ok(won) => Won(won)
    case Err(e) => Refusal(e)
  }

  /** The letter a deletion by id returns from memory, where ids are unique. */
  ghost function DeletionAnswer(boxes: Boxes, id: string): Reply {
    if exists a :: a in boxes && HasId(boxes[a], id) then
      var a :| a in boxes && HasId(boxes[a], id);
      Single(Core(boxes[a][IndexOf(boxes[a], id)]))
    else Refusal(NotFound(id))
  }

  /** What a caller of the in-memory backend gets back, diagnostics aside. */
  ghost function MemoryReply(boxes: Boxes, op: Op, now: nat): Reply {
    match op
    case DoPush(m) => if |BoxOf(boxes, m.receiver)| >= CAPACITY then Refusal(MailboxFull(m.receiver, CAPACITY)) else Done
    case DoPoll(a, limit) => Batch(Map(Core, Drain(Fifo(BoxOf(boxes, a)), limit, now).out))
    case DoTouch(a, id, lop) =>
      if lop.OpClaim? then ClaimAnswer(ClaimReply(BoxOf(boxes, a), id))
      else CoreReply(UpdateReply(Memory, BoxOf(boxes, a), id, lop, now))
    case DoRevive(a) => Group(CoreSet(Map(ReviveLetter, RevivableOf(BoxOf(boxes, a)))))
    case DoDelete(id) => DeletionAnswer(boxes, id)
    case DoDeleteAll => Removed(Total(boxes))
    case _ => Done
  }

  /** What a caller of the persistent backend gets back, diagnostics aside. */
  ghost function SledReply(db: Db, op: Op, now: nat): Reply {
    match op
    case DoPush(m) => if CountScanned(db, m.receiver) >= CAPACITY then Refusal(MailboxFull(m.receiver, CAPACITY)) else Done
    case DoPoll(a, limit) =>
      var p := PollFrom(db, a, 0, [], limit, now);
      if p.readable then Batch(Map(Core, p.out)) else Refusal(UNREADABLE)
    case DoTouch(a, id, lop) =>
      var answer := EditAnswer(db, a, id, OpEdit(lop, now));
      if lop.OpClaim? && answer.Edited? then Won(answer.won) else CoreReply(AsResult(answer))
    case DoRevive(a) => Group(CoreSet(ReviveAll(db, a, Fifo(Select(db, IsCandidate(a))), 0, []).revived))
    case DoDelete(id) =>
      var i := Locate(db, id);
      if i < |db| then Single(Core(db[i].value.letter)) else Refusal(NotFound(id))
    case DoDeleteAll => Removed(|db| - |Unremovable(db)|)
    case _ => Done
  }

  // ---------- the simulation ----------

  /** Names and ids that the key format supports: no colon, not the reserved word, fresh ids. */
  ghost predicate WellNamed(boxes: Boxes, op: Op) {
    match op
    case DoPush(m) => GoodName(m.receiver) && !IdInUse(boxes, m.id)
    case DoPoll(a, _) => GoodName(a)
    case DoTouch(a, _, _) => GoodName(a)
    case DoRevive(a) => GoodName(a)
    case _ => true
  }

  /** The operations on which the backends stay together. */
  ghost predicate Harmless(boxes: Boxes, op: Op) {
    match op
    case DoPush(m) => |BoxOf(boxes, m.receiver)| >= CAPACITY || ClashFree(m, BoxOf(boxes, m.receiver))
    case DoTouch(a, id, lop) => !ClobbersAt(BoxOf(boxes, a), id, lop)
    case _ => true
  }

  /** One operation keeps the two backends together exactly when it is harmless: it neither
      overwrites the reason of a dead letter nor pushes a letter whose place inside its
      millisecond, among the letters that can still be handed out, contradicts its id. */
  lemma {:induction false} StepSimulates(boxes: Boxes, db: Db, op: Op, now: nat)
    requires Related(boxes, db) && WellNamed(boxes, op)
    ensures Related(MemoryNext(CAPACITY, boxes, op, now), SledNext(db, op, now)) <==> Harmless(boxes, op)
  {
    match op
    case DoPush(m) => PushSimulates(boxes, db, m, now);
    case DoPoll(a, limit) => PollSimulates(boxes, db, a, limit, now);
    case DoTouch(a, id, lop) => TouchSimulates(boxes, db, a, id, lop, now);
    case DoRevive(a) => ReviveSimulates(boxes, db, a);
    case DoDelete(id) => DeleteSimulates(boxes, db, id);
    case DoDeleteAll => CleanUpSimulates(boxes, db);
    case DoRegister(a) => RegisterSimulates(boxes, db, a);
    case DoUnregister(a) => UnregisterSimulates(boxes, db, a);
  }

  /** Related backends give the same answer to every harmless operation. */
  lemma {:induction false} RepliesAgree(boxes: Boxes, db: Db, op: Op, now: nat)
    requires Related(boxes, db) && WellNamed(boxes, op) && Harmless(boxes, op)
    ensures MemoryReply(boxes, op, now) == SledReply(db, op, now)
  {
    match op
    case DoPush(m) => CountsAgree(boxes, db, m.receiver);
    case DoPoll(a, limit) => PollRepliesAgree(boxes, db, a, limit, now);
    case DoTouch(a, id, lop) => TouchRepliesAgree(boxes, db, a, id, lop, now);
    case DoRevive(a) => ReviveSimulates(boxes, db, a);
    case DoDelete(id) => DeleteRepliesAgree(boxes, db, id);
    case DoDeleteAll => TotalsAgree(boxes, db);
    case _ =>
  }

  lemma {:induction false} PollRepliesAgree(boxes: Boxes, db: Db, a: string, limit: nat, now: nat)
    requires Related(boxes, db) && GoodName(a)
    ensures MemoryReply(boxes, DoPoll(a, limit), now) == SledReply(db, DoPoll(a, limit), now)
  {
    PollSimulates(boxes, db, a, limit, now);
    EqualCores(Drain(Fifo(BoxOf(boxes, a)), limit, now).out, PollFrom(db, a, 0, [], limit, now).out);
  }

  /** Both sides look up twins, or neither finds the id. */
  lemma {:induction false} TwinLookup(boxes: Boxes, db: Db, a: string, id: string)
    requires Related(boxes, db) && GoodName(a)
    ensures var box, t := BoxOf(boxes, a), BoxIn(db, a); var i, k := IndexOf(box, id), IndexOf(t, id);
            (i < |box| && k < |t| && Core(box[i]) == Core(t[k])) || (i == |box| && k == |t|)
  {
    var box, t := BoxOf(boxes, a), BoxIn(db, a);
    var i, k := IndexOf(box, id), IndexOf(t, id);
    MailboxesAlike(boxes, db, a);
    if i < |box| {
      var n := TwinInTree(boxes, db, a, box[i]);
      var j :| 0 <= j < |t| && t[j] == n;
      IndexOfDistinct(t, j);
    } else if k < |t| {
      var m := TwinInMemory(boxes, db, a, t[k]);
    }
  }

  lemma {:induction false} UpdateRepliesAgree(box: seq<Letter>, t: seq<Letter>, id: string, lop: LetterOp, now: nat)
    requires var i, k := IndexOf(box, id), IndexOf(t, id);
             (i < |box| && k < |t| && Core(box[i]) == Core(t[k]) && !Clobbers(box[i], lop)) || (i == |box| && k == |t|)
    ensures CoreReply(UpdateReply(Memory, box, id, lop, now)) == CoreReply(UpdateReply(Sled, t, id, lop, now))
  {
    var i, k := IndexOf(box, id), IndexOf(t, id);
    if i < |box| {
      assert Core(box[i]).status == box[i].status && Core(t[k]).status == t[k].status;
      OpCores(box[i], t[k], lop, now);
    }
  }

  /** A claim in the tree is answered as a claim in the mailbox it holds. */
  lemma {:induction false} ClaimInTree(db: Db, a: string, id: string, now: nat)
    requires Clean(db) && GoodName(a)
    ensures SledReply(db, DoTouch(a, id, OpClaim), now) == ClaimAnswer(ClaimReply(BoxIn(db, a), id))
  {
    FoundIsLookup(db, a, id);
  }

  lemma {:induction false} ClaimsAgree(boxes: Boxes, db: Db, a: string, id: string, now: nat)
    requires Related(boxes, db) && GoodName(a)
    ensures MemoryReply(boxes, DoTouch(a, id, OpClaim), now) == SledReply(db, DoTouch(a, id, OpClaim), now)
  {
    var box, t := BoxOf(boxes, a), BoxIn(db, a);
    var i, k := IndexOf(box, id), IndexOf(t, id);
    TwinLookup(boxes, db, a, id);
    ClaimInTree(db, a, id, now);
    if i < |box| {
      CoreKeeps(box[i], t[k]);
    }
  }

  /** Any other update in the tree is answered as an update of the mailbox it holds. */
  lemma {:induction false} TouchInTree(db: Db, a: string, id: string, lop: LetterOp, now: nat)
    requires Clean(db) && GoodName(a) && !lop.OpClaim?
    ensures SledReply(db, DoTouch(a, id, lop), now) == CoreReply(UpdateReply(Sled, BoxIn(db, a), id, lop, now))
  {
    UpdateAnswer(db, a, id, lop, now);
  }

  lemma {:induction false} NotClobbered(box: seq<Letter>, id: string, lop: LetterOp)
    requires !ClobbersAt(box, id, lop) && HasId(box, id)
    ensures !Clobbers(box[IndexOf(box, id)], lop)
  {
    assert box[IndexOf(box, id)] in box;
  }

  lemma {:induction false} TouchRepliesAgree(boxes: Boxes, db: Db, a: string, id: string, lop: LetterOp, now: nat)
    requires Related(boxes, db) && GoodName(a) && !ClobbersAt(BoxOf(boxes, a), id, lop)
    ensures MemoryReply(boxes, DoTouch(a, id, lop), now) == SledReply(db, DoTouch(a, id, lop), now)
  {
    if lop.OpClaim? {
      ClaimsAgree(boxes, db, a, id, now);
    } else {
      TouchInTree(db, a, id, lop, now);
      TwinLookup(boxes, db, a, id);
      if HasId(BoxOf(boxes, a), id) {
        NotClobbered(BoxOf(boxes, a), id, lop);
      }
      UpdateRepliesAgree(BoxOf(boxes, a), BoxIn(db, a), id, lop, now);
    }
  }

  lemma {:induction false} DeletionFinds(boxes: Boxes, a: string, m: Letter)
    requires WellFormed(boxes) && a in boxes && m in boxes[a]
    ensures DeletionAnswer(boxes, m.id) == Single(Core(m))
  {
    var k :| 0 <= k < |boxes[a]| && boxes[a][k] == m;
    assert IndexOf(boxes[a], m.id) <= k;
    assert HasId(boxes[a], m.id);
    forall b | b in boxes && HasId(boxes[b], m.id) ensures boxes[b][IndexOf(boxes[b], m.id)] == m {
      assert boxes[b][IndexOf(boxes[b], m.id)].id == boxes[a][k].id;
    }
  }

  lemma {:induction false} DeletionMisses(boxes: Boxes, db: Db, id: string)
    requires Related(boxes, db) && Locate(db, id) == |db|
    ensures DeletionAnswer(boxes, id) == Refusal(NotFound(id))
  {
    forall a | a in boxes ensures !HasId(boxes[a], id) {
      if HasId(boxes[a], id) {
        var n := TwinInTree(boxes, db, a, boxes[a][IndexOf(boxes[a], id)]);
        BoxInMembers(db, a, n);
      }
    }
  }

  lemma {:induction false} DeleteRepliesAgree(boxes: Boxes, db: Db, id: string)
    requires Related(boxes, db)
    ensures DeletionAnswer(boxes, id) ==
            var i := Locate(db, id);
            if i < |db| then Single(Core(db[i].value.letter)) else Refusal(NotFound(id))
  {
    var i := Locate(db, id);
    if i < |db| {
      var n := db[i].value.letter;
      assert db[i] in db;
      BoxInMembers(db, n.receiver, n);
      var m := TwinInMemory(boxes, db, n.receiver, n);
      DeletionFinds(boxes, n.receiver, m);
    } else {
      DeletionMisses(boxes, db, id);
    }
  }

  /** A full clean-up removes the same number of letters. */
  lemma {:induction false} TotalsAgree(boxes: Boxes, db: Db)
    requires Related(boxes, db)
    ensures Total(boxes) == |db| - |Unremovable(db)|
  {
    var all := Select(db, (m: Letter) => true);
    SelectAll(db);
    SelectAllDistinct(boxes, db);
    RemovableAreLetters(db, db);
    DistinctCount(all);
    IdsTotal(boxes);
    forall id ensures id in IdsIn(boxes) <==> id in IdsOf(all) {
      SameIdsStored(boxes, db, id);
    }
    assert IdsIn(boxes) == IdsOf(all);
  }

  lemma {:induction false} SameIdsStored(boxes: Boxes, db: Db, id: string)
    requires Related(boxes, db)
    ensures id in IdsIn(boxes) <==> id in IdsOf(Select(db, (m: Letter) => true))
  {
    if id in IdsIn(boxes) {
      IdInTree(boxes, db, id);
    }
    if id in IdsOf(Select(db, (m: Letter) => true)) {
      IdInMemory(boxes, db, id);
    }
  }

  lemma {:induction false} IdInTree(boxes: Boxes, db: Db, id: string)
    requires Related(boxes, db) && id in IdsIn(boxes)
    ensures id in IdsOf(Select(db, (m: Letter) => true))
  {
    var a, k :| a in boxes && 0 <= k < |boxes[a]| && boxes[a][k].id == id;
    var n := TwinInTree(boxes, db, a, boxes[a][k]);
    BoxInMembers(db, a, n);
    SelectAll(db);
  }

  lemma {:induction false} IdInMemory(boxes: Boxes, db: Db, id: string)
    requires Related(boxes, db) && id in IdsOf(Select(db, (m: Letter) => true))
    ensures id in IdsIn(boxes)
  {
    SelectAll(db);
    var n :| n in Select(db, (m: Letter) => true) && n.id == id;
    var e :| e in db && e.value == Held(n);
    BoxInMembers(db, n.receiver, n);
    var m := TwinInMemory(boxes, db, n.receiver, n);
    var k :| 0 <= k < |boxes[n.receiver]| && boxes[n.receiver][k] == m;
  }

  lemma {:induction false} DistinctCount(s: seq<Letter>)
    requires DistinctIds(s)
    ensures |IdsOf(s)| == |s|
  {
    if s != [] {
      RestHasOtherIds(s);
      DistinctCount(s[1..]);
      assert s == [s[0]] + s[1..];
      IdsOfCons(s[0], s[1..]);
    }
  }

  lemma {:induction false} RemovableAreLetters(db: Db, whole: Db)
    requires Clean(whole) && forall e :: e in db ==> e in whole
    ensures |db| - |Unremovable(db)| == |Select(db, (m: Letter) => true)|
  {
    if db != [] {
      RemovableAreLetters(db[1..], whole);
      assert db[0] in whole;
      if db[0].value.Held? {
        NotReserved(db[0].value.letter);
      }
    }
  }

  lemma {:induction false} IdsTotal(boxes: Boxes)
    requires WellFormed(boxes)
    ensures |IdsIn(boxes)| == Total(boxes)
    decreases |boxes|
  {
    if boxes == map[] {
      assert IdsIn(boxes) == {};
    } else {
      var a :| a in boxes;
      var rest: Boxes := boxes - {a};
      TotalMinus(boxes, a);
      IdsTotal(rest);
      BoxDistinct(boxes, a);
      DistinctCount(boxes[a]);
      IdsSplit(boxes, a);
    }
  }

  lemma {:induction false} IdsSplit(boxes: Boxes, a: string)
    requires WellFormed(boxes) && a in boxes
    ensures IdsIn(boxes) == IdsOf(boxes[a]) + IdsIn(boxes - {a}) && IdsOf(boxes[a]) !! IdsIn(boxes - {a})
  {
    var rest: Boxes := boxes - {a};
    forall id ensures id in IdsIn(boxes) <==> id in IdsOf(boxes[a]) || id in IdsIn(rest) {
      if id in IdsIn(boxes) {
        var b, k :| b in boxes && 0 <= k < |boxes[b]| && boxes[b][k].id == id;
        if b == a {
          assert boxes[a][k] in boxes[a];
        } else {
          assert rest[b][k].id == id;
        }
      }
      if id in IdsOf(boxes[a]) {
        var m :| m in boxes[a] && m.id == id;
        var k :| 0 <= k < |boxes[a]| && boxes[a][k] == m;
      }
    }
    forall id | id in IdsOf(boxes[a]) ensures id !in IdsIn(rest) {
      var m :| m in boxes[a] && m.id == id;
      var k :| 0 <= k < |boxes[a]| && boxes[a][k] == m;
      forall b, j | b in rest && 0 <= j < |rest[b]| ensures rest[b][j].id != id {
        assert rest[b][j] == boxes[b][j];
      }
    }
  }

  // ---------- whole runs ----------

  datatype Timed = Timed(op: Op, at: nat)

  ghost function MemoryAfter(cap: nat, boxes: Boxes, run: seq<Timed>): Boxes
    decreases |run|
  {
    if run == [] then boxes else MemoryAfter(cap, MemoryNext(cap, boxes, run[0].op, run[0].at), run[1..])
  }

  ghost function SledAfter(db: Db, run: seq<Timed>): Db
    decreases |run|
  {
    if run == [] then db else SledAfter(SledNext(db, run[0].op, run[0].at), run[1..])
  }

  ghost predicate RunHarmless(boxes: Boxes, run: seq<Timed>)
    decreases |run|
  {
    run != [] ==>
      && WellNamed(boxes, run[0].op) && Harmless(boxes, run[0].op)
      && RunHarmless(MemoryNext(CAPACITY, boxes, run[0].op, run[0].at), run[1..])
  }

  ghost function MemoryReplies(boxes: Boxes, run: seq<Timed>): (r: seq<Reply>)
    ensures |r| == |run|
    decreases |run|
  {
    if run == [] then []
    else [MemoryReply(boxes, run[0].op, run[0].at)] + MemoryReplies(MemoryNext(CAPACITY, boxes, run[0].op, run[0].at), run[1..])
  }

  ghost function SledReplies(db: Db, run: seq<Timed>): (r: seq<Reply>)
    ensures |r| == |run|
    decreases |run|
  {
    if run == [] then []
    else [SledReply(db, run[0].op, run[0].at)] + SledReplies(SledNext(db, run[0].op, run[0].at), run[1..])
  }

  /** Over any run the two backends answer alike and stay one bus. */
  lemma {:induction false} RunsAgree(boxes: Boxes, db: Db, run: seq<Timed>)
    requires Related(boxes, db) && RunHarmless(boxes, run)
    ensures MemoryReplies(boxes, run) == SledReplies(db, run)
    ensures Related(MemoryAfter(CAPACITY, boxes, run), SledAfter(db, run))
    decreases |run|
  {
    if run != [] {
      StepSimulates(boxes, db, run[0].op, run[0].at);
      RepliesAgree(boxes, db, run[0].op, run[0].at);
      RunsAgree(MemoryNext(CAPACITY, boxes, run[0].op, run[0].at), SledNext(db, run[0].op, run[0].at), run[1..]);
    }
  }

  /** The listing of every letter is the same listing. */
  lemma {:induction false} ListingsAgree(boxes: Boxes, db: Db, listed: seq<Letter>)
    requires Related(boxes, db)
    requires StrictFifoOrder(listed) && forall m :: m in listed <==> Stored(boxes, m)
    ensures Map(Core, listed) == Map(Core, Fifo(Select(db, (m: Letter) => true)))
  {
    var all := Select(db, (m: Letter) => true);
    SelectAll(db);
    FifoSorts(all);
    forall n | n in all ensures Core(n) in Map(Core, listed) {
      var e :| e in db && e.value == Held(n);
      BoxInMembers(db, n.receiver, n);
      var m := TwinInMemory(boxes, db, n.receiver, n);
      assert m in listed;
      InCores(listed, m);
    }
    forall m | m in listed ensures Core(m) in Map(Core, Fifo(all)) {
      var a :| a in boxes && m in boxes[a];
      var n := TwinInTree(boxes, db, a, m);
      BoxInMembers(db, a, n);
      InCores(Fifo(all), n);
    }
    SelectAllDistinct(boxes, db);
    FifoStrict(all);
    StrictCores(listed);
    StrictCores(Fifo(all));
    FromCores(listed);
    FromCores(Fifo(all));
    StrictOrderUnique(Map(Core, listed), Map(Core, Fifo(all)));
  }

  lemma {:induction false} InCores(s: seq<Letter>, m: Letter)
    requires m in s
    ensures Core(m) in Map(Core, s)
  {
    var k :| 0 <= k < |s| && s[k] == m;
    assert Map(Core, s)[k] == Core(m);
  }

  lemma {:induction false} FromCores(s: seq<Letter>)
    ensures forall c :: c in Map(Core, s) ==> exists m :: m in s && c == Core(m)
  {
    forall c | c in Map(Core, s) ensures exists m :: m in s && c == Core(m) {
      var k :| 0 <= k < |s| && Map(Core, s)[k] == c;
      assert s[k] in s;
    }
  }

  lemma {:induction false} StrictCores(s: seq<Letter>)
    requires StrictFifoOrder(s)
    ensures StrictFifoOrder(Map(Core, s))
  {
    forall i, j | 0 <= i < j < |s| ensures FifoLt(Map(Core, s)[i], Map(Core, s)[j]) {
      assert FifoLt(s[i], s[j]);
    }
  }

  lemma {:induction false} SelectAll(db: Db)
    ensures forall m :: m in Select(db, (m: Letter) => true) <==> exists e :: e in db && e.value == Held(m)
  {
    if db != [] {
      SelectAll(db[1..]);
      assert forall e :: e in db <==> e == db[0] || e in db[1..];
    }
  }

  lemma {:induction false} SelectAllDistinct(boxes: Boxes, db: Db)
    requires Related(boxes, db)
    ensures DistinctIds(Select(db, (m: Letter) => true))
  {
    forall i, j | 0 <= i < j < |db| && db[i].value.Held? && db[j].value.Held?
      ensures db[i].value.letter.id != db[j].value.letter.id
    {
      DistinctEntries(boxes, db, i, j);
    }
    SelectDistinct(db);
  }

  lemma {:induction false} SelectDistinct(db: Db)
    requires forall i, j :: 0 <= i < j < |db| && db[i].value.Held? && db[j].value.Held? ==>
               db[i].value.letter.id != db[j].value.letter.id
    ensures DistinctIds(Select(db, (m: Letter) => true))
  {
    if db != [] {
      SelectDistinct(db[1..]);
      SelectAll(db[1..]);
      forall x | db[0].value.Held? && x in Select(db[1..], (m: Letter) => true) ensures x.id != db[0].value.letter.id {
        var e :| e in db[1..] && e.value == Held(x);
        var k :| 0 <= k < |db[1..]| && db[1..][k] == e;
        assert db[k + 1] == e;
      }
      assert Select(db, (m: Letter) => true) ==
             (if db[0].value.Held? then [db[0].value.letter] else []) + Select(db[1..], (m: Letter) => true);
    }
  }

  lemma {:induction false} PlacesApart(db: Db, i: nat, j: nat, a: string)
    requires i < j < |db| && Belongs(db[i], a) && Belongs(db[j], a)
    ensures var p, q := |BoxIn(db[..i], a)|, |BoxIn(db[..j], a)|;
            && p < q < |BoxIn(db, a)|
            && BoxIn(db, a)[p] == db[i].value.letter && BoxIn(db, a)[q] == db[j].value.letter
  {
    ReplaceInBox(db, i, db[i].value.letter, a);
    ReplaceInBox(db, j, db[j].value.letter, a);
    SplitAt(db, i, a);
    assert db[..j] == db[..i + 1] + db[i + 1..j];
    BoxInConcat(db[..i + 1], db[i + 1..j], a);
  }

  lemma {:induction false} DistinctEntries(boxes: Boxes, db: Db, i: nat, j: nat)
    requires Related(boxes, db) && i < j < |db| && db[i].value.Held? && db[j].value.Held?
    ensures db[i].value.letter.id != db[j].value.letter.id
  {
    var n, x := db[i].value.letter, db[j].value.letter;
    assert db[i] in db && db[j] in db;
    BoxInMembers(db, n.receiver, n);
    BoxInMembers(db, x.receiver, x);
    if n.receiver == x.receiver {
      MailboxesAlike(boxes, db, n.receiver);
      PlacesApart(db, i, j, n.receiver);
    } else if n.id == x.id {
      OneTreeHolder(boxes, db, n.receiver, x.receiver, n, x);
    }
  }

  /** Both backends refuse a push exactly when the mailbox holds 1024 letters, and say so. */
  lemma {:induction false} FullIsRefused(boxes: Boxes, db: Db, m: Letter, now: nat)
    requires Related(boxes, db) && GoodName(m.receiver)
    ensures MemoryReply(boxes, DoPush(m), now) == SledReply(db, DoPush(m), now) ==
            if |BoxOf(boxes, m.receiver)| >= 1024 then Refusal(MailboxFull(m.receiver, 1024)) else Done
  {
    CountsAgree(boxes, db, m.receiver);
  }

  /** Both backends answer a claim with whether the letter was queued, or that there is none. */
  lemma {:induction false} ClaimsTell(boxes: Boxes, db: Db, a: string, id: string, now: nat)
    requires Related(boxes, db) && GoodName(a)
    ensures var i := IndexOf(BoxOf(boxes, a), id);
            MemoryReply(boxes, DoTouch(a, id, OpClaim), now) == SledReply(db, DoTouch(a, id, OpClaim), now) ==
            if i < |BoxOf(boxes, a)| then Won(BoxOf(boxes, a)[i].status == Queued) else Refusal(NotFound(id))
  {
    ClaimsAgree(boxes, db, a, id, now);
  }

  /** Both backends answer a deletion with the letter, or that there is none of that id. */
  lemma {:induction false} DeletionsTell(boxes: Boxes, db: Db, id: string, now: nat)
    requires Related(boxes, db)
    ensures MemoryReply(boxes, DoDelete(id), now) == SledReply(db, DoDelete(id), now)
    ensures forall a, m :: a in boxes && m in boxes[a] && m.id == id ==> MemoryReply(boxes, DoDelete(id), now) == Single(Core(m))
    ensures !IdInUse(boxes, id) ==> MemoryReply(boxes, DoDelete(id), now) == Refusal(NotFound(id))
  {
    RepliesAgree(boxes, db, DoDelete(id), now);
    DeletionAnswers(boxes, id);
    assert MemoryReply(boxes, DoDelete(id), now) == DeletionAnswer(boxes, id);
  }

  lemma {:induction false} DeletionAnswers(boxes: Boxes, id: string)
    requires WellFormed(boxes)
    ensures forall a, m :: a in boxes && m in boxes[a] && m.id == id ==> DeletionAnswer(boxes, id) == Single(Core(m))
    ensures !IdInUse(boxes, id) ==> DeletionAnswer(boxes, id) == Refusal(NotFound(id))
  {
    forall a, m | a in boxes && m in boxes[a] && m.id == id ensures DeletionAnswer(boxes, id) == Single(Core(m)) {
      DeletionFinds(boxes, a, m);
    }
  }

  /** A revived letter as callers see it: queued, with all its attempts. */
  function RevivedOf(m: Letter): Letter {
    Core(m.(status := Queued, attempts := 0, deadReason := None, lastError := None))
  }

  /** Both backends answer a revival with exactly the letters that died on their credentials,
      queued again with all their attempts, and a clean-up with the number of letters there were. */
  lemma {:induction false} RevivalsTell(boxes: Boxes, db: Db, a: string, now: nat)
    requires Related(boxes, db) && GoodName(a)
    ensures MemoryReply(boxes, DoRevive(a), now) == SledReply(db, DoRevive(a), now) ==
            Group(set m: Letter | m in BoxOf(boxes, a) && m.status == Dead && DiedOnAuth(m)
                    :: RevivedOf(m))
    ensures MemoryReply(boxes, DoDeleteAll, now) == SledReply(db, DoDeleteAll, now) == Removed(Total(boxes))
  {
    ReviveSimulates(boxes, db, a);
    TotalsAgree(boxes, db);
    RevivedCores(BoxOf(boxes, a));
  }

  lemma {:induction false} RevivedCores(box: seq<Letter>)
    ensures CoreSet(Map(ReviveLetter, RevivableOf(box))) ==
            set m: Letter | m in box && m.status == Dead && DiedOnAuth(m) :: RevivedOf(m)
  {
    if box != [] {
      RevivedCores(box[1..]);
      assert box == [box[0]] + box[1..];
      var rest := Map(ReviveLetter, RevivableOf(box[1..]));
      if Revivable(box[0]) {
        assert Map(ReviveLetter, RevivableOf(box)) == [ReviveLetter(box[0])] + rest;
        assert CoreSet([ReviveLetter(box[0])] + rest) == {RevivedOf(box[0])} + CoreSet(rest);
      }
    }
  }
}
