/** The in-memory backend: one growing vector of letters per receiver, behind a write lock,
    so that every method is one atomic step. */
module MemoryStore {
  import opened Basics
  import opened Lifecycle
  import opened Mailbox

  type Boxes = map<string, seq<Letter>>

  // ---------- the state after each method, as functions ----------

  function BoxOf(boxes: Boxes, agent: string): seq<Letter> {
    if agent in boxes then boxes[agent] else []
  }

  /** A full mailbox refuses the letter, but it exists from then on. */
  function Pushed(boxes: Boxes, capacity: nat, m: Letter): Boxes {
    var box := BoxOf(boxes, m.receiver);
    boxes[m.receiver := if |box| >= capacity then box else box + [m]]
  }

  function Polled(boxes: Boxes, agent: string, limit: nat, now: nat): Boxes {
    if agent in boxes then boxes[agent := Drain(Fifo(boxes[agent]), limit, now).box] else boxes
  }

  function Touched(boxes: Boxes, agent: string, id: string, op: LetterOp, now: nat): Boxes {
    if agent in boxes then boxes[agent := UpdateBox(Memory, boxes[agent], id, op, now)] else boxes
  }

  predicate Revivable(m: Letter) { m.status.Dead? && DiedOnAuth(m) }

  function ReviveLetter(m: Letter): Letter {
    if Revivable(m) then m.(status := Queued, deadReason := None, lastError := None, attempts := 0) else m
  }

  /** Reviving is the table's `revive_auth` row, in either backend. */
  lemma {:induction false} ReviveFollowsTable(b: Backend, m: Letter, now: nat)
    ensures ReviveLetter(m) == BackendOp(b, m, OpRevive, now)
  {}

  function RevivableOf(box: seq<Letter>): seq<Letter> {
    if box == [] then []
    else if Revivable(box[0]) then [box[0]] + RevivableOf(box[1..])
    else RevivableOf(box[1..])
  }

  function Revived(boxes: Boxes, agent: string): Boxes {
    if agent in boxes then boxes[agent := Map(ReviveLetter, boxes[agent])] else boxes
  }

  function Emptied(boxes: Boxes): Boxes {
    map a | a in boxes :: []
  }

  /** The mailbox without the first letter of that id. */
  function DropId(box: seq<Letter>, id: string): seq<Letter> {
    if box == [] then []
    else if box[0].id == id then box[1..]
    else [box[0]] + DropId(box[1..], id)
  }

  lemma {:induction false} CutBehindHead(box: seq<Letter>, j: nat)
    requires box != []
    ensures j < |box| - 1 ==> Without(box, j + 1) == [box[0]] + Without(box[1..], j)
    ensures box == [box[0]] + box[1..]
  {}

  lemma {:induction false} DropIsCut(box: seq<Letter>, id: string)
    ensures var i := IndexOf(box, id);
            DropId(box, id) == if i < |box| then Without(box, i) else box
  {
    if box != [] && box[0].id != id {
      DropIsCut(box[1..], id);
      CutBehindHead(box, IndexOf(box[1..], id));
    }
  }

  function Deleted(boxes: Boxes, id: string): Boxes {
    map a | a in boxes :: DropId(boxes[a], id)
  }

  /** How many letters the store holds, counted mailbox by mailbox in any order. */
  ghost function Total(boxes: Boxes): nat
    decreases |boxes|
  {
    if boxes == map[] then 0
    else
      var a :| a in boxes;
      |boxes[a]| + Total(boxes - {a})
  }

  lemma {:induction false} TotalMinus(boxes: Boxes, a: string)
    requires a in boxes
    ensures Total(boxes) == |boxes[a]| + Total(boxes - {a})
    decreases |boxes|
  {
    var b :| b in boxes && Total(boxes) == |boxes[b]| + Total(boxes - {b});
    if a != b {
      TotalMinus(boxes - {b}, a);
      TotalMinus(boxes - {a}, b);
      assert boxes - {b} - {a} == boxes - {a} - {b};
    }
  }

  // ---------- well-formed stores ----------

  /** Every letter sits in its receiver's mailbox and no two letters share an id. */
  ghost predicate WellFormed(boxes: Boxes) {
    && (forall a, i :: a in boxes && 0 <= i < |boxes[a]| ==> boxes[a][i].receiver == a)
    && (forall a, b, i, j ::
          a in boxes && b in boxes && 0 <= i < |boxes[a]| && 0 <= j < |boxes[b]|
          && boxes[a][i].id == boxes[b][j].id
          ==> a == b && i == j)
  }

  ghost predicate Stored(boxes: Boxes, m: Letter) {
    exists a :: a in boxes && m in boxes[a]
  }

  ghost predicate IdInUse(boxes: Boxes, id: string) {
    exists a :: a in boxes && HasId(boxes[a], id)
  }

  /** A drain that has already dealt with the front of the mailbox. */
  function After(front: seq<Letter>, handed: seq<Letter>, d: Drained): Drained {
    Drained(front + d.box, handed + d.out)
  }

  // The three turns of the draining loop.

  lemma {:induction false} DrainSkips(front: seq<Letter>, handed: seq<Letter>, rest: seq<Letter>, limit: nat, now: nat)
    requires rest != [] && rest[0].status != Queued
    ensures After(front, handed, Drain(rest, limit, now)) ==
            After(front + [rest[0]], handed, Drain(rest[1..], limit, now))
  {
    var d := Drain(rest[1..], limit, now);
    assert front + ([rest[0]] + d.box) == front + [rest[0]] + d.box;
  }

  lemma {:induction false} DrainTakes(front: seq<Letter>, handed: seq<Letter>, rest: seq<Letter>, limit: nat, now: nat, m: Letter)
    requires rest != [] && rest[0].status == Queued && 1 < limit
    requires m == HandOver(rest[0], now)
    ensures After(front, handed, Drain(rest, limit, now)) ==
            After(front + [m], handed + [m], Drain(rest[1..], limit - 1, now))
  {
    var d := Drain(rest[1..], limit - 1, now);
    assert front + ([m] + d.box) == front + [m] + d.box;
    assert handed + ([m] + d.out) == handed + [m] + d.out;
  }

  lemma {:induction false} DrainStops(front: seq<Letter>, handed: seq<Letter>, rest: seq<Letter>, limit: nat, now: nat, m: Letter)
    requires rest != [] && rest[0].status == Queued && limit <= 1
    requires m == HandOver(rest[0], now)
    ensures After(front, handed, Drain(rest, limit, now)) == Drained(front + [m] + rest[1..], handed + [m])
  {
    assert front + ([m] + rest[1..]) == front + [m] + rest[1..];
  }

  lemma {:induction false} Rewritten<T>(front: seq<T>, rest: seq<T>, x: T)
    requires rest != []
    ensures (front + rest)[|front| := x] == front + [x] + rest[1..]
    ensures x == rest[0] ==> front + rest == front + [x] + rest[1..]
  {}

  /** The rest of the draining loop, from position i on. */
  function DrainFrom(box: seq<Letter>, i: nat, out: seq<Letter>, limit: nat, now: nat): Drained
    requires i <= |box|
    decreases |box| - i
  {
    if i == |box| then Drained(box, out)
    else if box[i].status != Queued then DrainFrom(box, i + 1, out, limit, now)
    else
      var m := HandOver(box[i], now);
      if |out| + 1 >= limit then Drained(box[i := m], out + [m])
      else DrainFrom(box[i := m], i + 1, out + [m], limit, now)
  }

  lemma {:induction false} DrainFromIsDrain(front: seq<Letter>, rest: seq<Letter>, out: seq<Letter>, limit: nat, now: nat)
    requires |out| == 0 || |out| < limit
    ensures DrainFrom(front + rest, |front|, out, limit, now) == After(front, out, Drain(rest, limit - |out|, now))
    decreases rest
  {
    if rest == [] {
      assert front + [] == front && out + [] == out;
    } else {
      var m := HandOver(rest[0], now);
      Rewritten(front, rest, m);
      Rewritten(front, rest, rest[0]);
      if rest[0].status != Queued {
        DrainSkips(front, out, rest, limit - |out|, now);
        DrainFromIsDrain(front + [rest[0]], rest[1..], out, limit, now);
      } else if |out| + 1 >= limit {
        DrainStops(front, out, rest, limit - |out|, now, m);
      } else {
        DrainTakes(front, out, rest, limit - |out|, now, m);
        DrainFromIsDrain(front + [m], rest[1..], out + [m], limit, now);
      }
    }
  }

  /** The draining loop of `poll`, over a mailbox that has just been sorted. */
  method DrainInOrder(sorted: seq<Letter>, limit: nat, now: nat) returns (box: seq<Letter>, out: seq<Letter>)
    ensures Drained(box, out) == Drain(sorted, limit, now)
  {
    box, out := sorted, [];
    DrainFromIsDrain([], sorted, [], limit, now);
    assert [] + sorted == sorted;
    var i := 0;
    while i < |box|
      invariant i <= |box|
      invariant DrainFrom(box, i, out, limit, now) == Drain(sorted, limit, now)
      decreases |box| - i
    {
      if box[i].status == Queued {
        var m := box[i].(status := Delivered, deliveredAt := Some(now));
        box := box[i := m];
        out := out + [m];
        if |out| >= limit {
          break;
        }
      }
      i := i + 1;
    }
  }

  datatype Revival = Revival(box: seq<Letter>, revived: seq<Letter>)

  /** The rest of the revival loop, from position i on. */
  function ReviveFrom(box: seq<Letter>, i: nat, revived: seq<Letter>): Revival
    requires i <= |box|
    decreases |box| - i
  {
    if i == |box| then Revival(box, revived)
    else if !Revivable(box[i]) then ReviveFrom(box, i + 1, revived)
    else
      var m := ReviveLetter(box[i]);
      ReviveFrom(box[i := m], i + 1, revived + [m])
  }

  lemma {:induction false} ReviveFromIsMap(front: seq<Letter>, rest: seq<Letter>, revived: seq<Letter>)
    ensures ReviveFrom(front + rest, |front|, revived) ==
            Revival(front + Map(ReviveLetter, rest), revived + Map(ReviveLetter, RevivableOf(rest)))
    decreases rest
  {
    var q := RevivableOf(rest);
    if rest == [] {
      assert Map(ReviveLetter, rest) == [] && Map(ReviveLetter, q) == [];
      assert front + [] == front && revived + [] == revived;
    } else {
      var m := ReviveLetter(rest[0]);
      Rewritten(front, rest, m);
      MapCons(ReviveLetter, rest);
      Append3(front, m, Map(ReviveLetter, rest[1..]));
      if Revivable(rest[0]) {
        ReviveFromIsMap(front + [m], rest[1..], revived + [m]);
        MapCons(ReviveLetter, q);
        Append3(revived, m, Map(ReviveLetter, q[1..]));
      } else {
        ReviveFromIsMap(front + [m], rest[1..], revived);
      }
    }
  }

  function Funnelled(m: Letter, e: Event, stamp: nat): Letter {
    if e.PushStarted? then m.(attempts := m.attempts + 1, lastPushAt := Some(stamp)) else EarlyWrites(m, e)
  }

  /** The times that go with a state entered through the funnel. */
  function Stamped(m: Letter, e: Event, stamp: nat): Letter {
    match (e, m.status)
    case (PushOk, Delivered) => m.(deliveredAt := Some(stamp))
    case (PollClaimed, Delivered) => m.(deliveredAt := Some(stamp))
    case (ReadReceipt, Read) => m.(readAt := Some(stamp))
    case (Ack(note), Acked) =>
      m.(ackedAt := Some(stamp),
         ackNote := if note.Some? then Some(Clip(note.value)) else None,
         readAt := if m.readAt == None then Some(stamp) else m.readAt)
    case _ => m
  }

  /** The shared funnel: write the early facts, ask the table, and only on a legal move run
      the caller's own change and stamp the time that goes with the state entered. */
  method ApplyEvent(m: Letter, e: Event, stamp: nat, change: Letter -> Letter) returns (r: Letter)
    ensures r == if Apply(m.status, e).To? then Stamped(change(Funnelled(m, e, stamp)), e, stamp) else Funnelled(m, e, stamp)
  {
    r := m;
    match e {
      case PushStarted =>
        r := r.(attempts := r.attempts + 1);
        r := r.(lastPushAt := Some(stamp));
      case PushRejected(reason) => r := r.(lastError := Some(reason));
      case PushErrored(reason) => r := r.(lastError := Some(reason));
      case GiveUp(reason) => r := r.(deadReason := Some(reason));
      case _ =>
    }
    var verdict := ApplyByScan(r.status, e);
    if verdict.To? {
      r := change(r);
      match (e, r.status) {
        case (PushOk, Delivered) => r := r.(deliveredAt := Some(stamp));
        case (PollClaimed, Delivered) => r := r.(deliveredAt := Some(stamp));
        case (ReadReceipt, Read) => r := r.(readAt := Some(stamp));
        case (Ack(note), Acked) =>
          r := r.(ackedAt := Some(stamp));
          r := r.(ackNote := if note.Some? then Some(Clip(note.value)) else None);
          if r.readAt == None {
            r := r.(readAt := Some(stamp));
          }
        case _ =>
      }
    }
  }

  /** The revival loop, over a whole mailbox. */
  method ReviveInOrder(original: seq<Letter>, now: nat) returns (box: seq<Letter>, revived: seq<Letter>)
    ensures box == Map(ReviveLetter, original)
    ensures revived == Map(ReviveLetter, RevivableOf(original))
  {
    box, revived := original, [];
    ReviveFromIsMap([], original, []);
    assert [] + original == original;
    var i := 0;
    while i < |box|
      invariant i <= |box|
      invariant ReviveFrom(box, i, revived) == ReviveFrom(original, 0, [])
      decreases |box| - i
    {
      if box[i].status == Dead && DiedOnAuth(box[i]) {
        var m := ApplyEvent(box[i], ReviveAuth, now,
                            (x: Letter) => x.(status := Queued, deadReason := None, lastError := None, attempts := 0));
        assert m == ReviveLetter(box[i]);
        box := box[i := m];
        revived := revived + [m];
      }
      i := i + 1;
    }
    assert [] + Map(ReviveLetter, original) == Map(ReviveLetter, original);
    assert [] + Map(ReviveLetter, RevivableOf(original)) == Map(ReviveLetter, RevivableOf(original));
  }

  lemma {:induction false} SameWhenRewritten(boxes: Boxes, agent: string, i: nat)
    requires agent in boxes && i < |boxes[agent]|
    ensures boxes[agent := boxes[agent][i := boxes[agent][i]]] == boxes
  {
    assert boxes[agent][i := boxes[agent][i]] == boxes[agent];
  }

  /** All agents but one, in order. */
  function Retain(agents: seq<string>, gone: string): seq<string> {
    if agents == [] then []
    else
      var front := Retain(agents[..|agents| - 1], gone);
      if agents[|agents| - 1] == gone then front else front + [agents[|agents| - 1]]
  }

  lemma {:induction false} RetainKeepsOthers(agents: seq<string>, gone: string)
    ensures gone !in Retain(agents, gone)
    ensures forall a :: a != gone ==> multiset(Retain(agents, gone))[a] == multiset(agents)[a]
    ensures gone !in agents ==> Retain(agents, gone) == agents
  {
    if agents != [] {
      var n := |agents| - 1;
      RetainKeepsOthers(agents[..n], gone);
      assert agents == agents[..n] + [agents[n]];
    }
  }

  class InMemoryStore {
    var mailboxes: Boxes
    var agents: seq<string>
    const capacity: nat

    constructor WithCapacity(capacity: nat)
      ensures mailboxes == map[] && agents == [] && this.capacity == capacity
    {
      this.capacity := capacity;
      mailboxes, agents := map[], [];
    }

    method Push(m: Letter) returns (r: Result<()>)
      modifies this`mailboxes
      ensures mailboxes == Pushed(old(mailboxes), capacity, m)
      ensures r == if |BoxOf(old(mailboxes), m.receiver)| >= capacity
                   then Err(MailboxFull(m.receiver, capacity)) else Ok(())
    {
      if m.receiver !in mailboxes {
        mailboxes := mailboxes[m.receiver := []];
      }
      if |mailboxes[m.receiver]| >= capacity {
        return Err(MailboxFull(m.receiver, capacity));
      }
      mailboxes := mailboxes[m.receiver := mailboxes[m.receiver] + [m]];
      return Ok(());
    }

    method Poll(agent: string, limit: nat, now: nat) returns (out: seq<Letter>)
      modifies this`mailboxes
      ensures mailboxes == Polled(old(mailboxes), agent, limit, now)
      ensures out == Drain(Fifo(BoxOf(old(mailboxes), agent)), limit, now).out
    {
      if agent !in mailboxes {
        return [];
      }
      var box;
      box, out := DrainInOrder(Fifo(mailboxes[agent]), limit, now);
      mailboxes := mailboxes[agent := box];
    }

    method MarkDelivered(agent: string, id: string, now: nat) returns (r: Result<Letter>)
      modifies this`mailboxes
      ensures mailboxes == Touched(old(mailboxes), agent, id, OpDeliver, now)
      ensures r == UpdateReply(Memory, BoxOf(old(mailboxes), agent), id, OpDeliver, now)
    {
      if agent !in mailboxes { return Err(NotFound(id)); }
      var i := IndexOf(mailboxes[agent], id);
      if i == |mailboxes[agent]| { return Err(NotFound(id)); }
      var m := mailboxes[agent][i];
      if m.status == Queued {
        m := m.(status := Delivered, deliveredAt := Some(now));
      }
      mailboxes := mailboxes[agent := mailboxes[agent][i := m]];
      return Ok(m);
    }

    method MarkPushing(agent: string, id: string, now: nat) returns (r: Result<bool>)
      modifies this`mailboxes
      ensures mailboxes == Touched(old(mailboxes), agent, id, OpClaim, now)
      ensures r == ClaimReply(BoxOf(old(mailboxes), agent), id)
    {
      if agent !in mailboxes { return Err(NotFound(id)); }
      var i := IndexOf(mailboxes[agent], id);
      if i == |mailboxes[agent]| { return Err(NotFound(id)); }
      var m := mailboxes[agent][i];
      var verdict := ApplyByScan(m.status, PushStarted);
      if verdict == To(Pushing) {
        m := m.(attempts := m.attempts + 1);
        m := m.(lastPushAt := Some(now));
        m := m.(status := Pushing);
        mailboxes := mailboxes[agent := mailboxes[agent][i := m]];
        return Ok(true);
      }
      SameWhenRewritten(mailboxes, agent, i);
      return Ok(false);
    }

    method MarkPushOk(agent: string, id: string, now: nat) returns (r: Result<Letter>)
      modifies this`mailboxes
      ensures mailboxes == Touched(old(mailboxes), agent, id, OpPushOk, now)
      ensures r == UpdateReply(Memory, BoxOf(old(mailboxes), agent), id, OpPushOk, now)
    {
      if agent !in mailboxes { return Err(NotFound(id)); }
      var i := IndexOf(mailboxes[agent], id);
      if i == |mailboxes[agent]| { return Err(NotFound(id)); }
      var m := ApplyEvent(mailboxes[agent][i], PushOk, now,
                          (x: Letter) => x.(status := Delivered, deliveredAt := Some(now)));
      mailboxes := mailboxes[agent := mailboxes[agent][i := m]];
      return Ok(m);
    }

    method MarkPushFailed(agent: string, id: string, reason: string, now: nat) returns (r: Result<Letter>)
      modifies this`mailboxes
      ensures mailboxes == Touched(old(mailboxes), agent, id, OpPushFailed(reason), now)
      ensures r == UpdateReply(Memory, BoxOf(old(mailboxes), agent), id, OpPushFailed(reason), now)
    {
      if agent !in mailboxes { return Err(NotFound(id)); }
      var i := IndexOf(mailboxes[agent], id);
      if i == |mailboxes[agent]| { return Err(NotFound(id)); }
      var m := mailboxes[agent][i];
      var authErr := IsAuth(reason);
      var e := if ShouldGiveUp(m.attempts) && !authErr then GiveUp(reason) else PushRejected(reason);
      var giveUp := e.GiveUp?;
      ghost var was := m;
      m := ApplyEvent(m, e, now, (x: Letter) => x.(status := if giveUp then Dead else Queued));
      assert m == BackendOp(Memory, was, OpPushFailed(reason), now);
      mailboxes := mailboxes[agent := mailboxes[agent][i := m]];
      return Ok(m);
    }

    method ReclaimStalePushing(agent: string, id: string, reason: string, now: nat) returns (r: Result<Letter>)
      modifies this`mailboxes
      ensures mailboxes == Touched(old(mailboxes), agent, id, OpReclaim(reason), now)
      ensures r == UpdateReply(Memory, BoxOf(old(mailboxes), agent), id, OpReclaim(reason), now)
    {
      if agent !in mailboxes { return Err(NotFound(id)); }
      var i := IndexOf(mailboxes[agent], id);
      if i == |mailboxes[agent]| { return Err(NotFound(id)); }
      var m := ApplyEvent(mailboxes[agent][i], PushRejected(reason), now, (x: Letter) => x.(status := Queued));
      mailboxes := mailboxes[agent := mailboxes[agent][i := m]];
      return Ok(m);
    }

    method MarkDead(agent: string, id: string, reason: string, now: nat) returns (r: Result<Letter>)
      modifies this`mailboxes
      ensures mailboxes == Touched(old(mailboxes), agent, id, OpKill(reason), now)
      ensures r == UpdateReply(Memory, BoxOf(old(mailboxes), agent), id, OpKill(reason), now)
    {
      if agent !in mailboxes { return Err(NotFound(id)); }
      var i := IndexOf(mailboxes[agent], id);
      if i == |mailboxes[agent]| { return Err(NotFound(id)); }
      var m := ApplyEvent(mailboxes[agent][i], GiveUp(reason), now, (x: Letter) => x.(status := Dead));
      assert m == BackendOp(Memory, mailboxes[agent][i], OpKill(reason), now);
      mailboxes := mailboxes[agent := mailboxes[agent][i := m]];
      return Ok(m);
    }

    method MarkRead(agent: string, id: string, now: nat) returns (r: Result<Letter>)
      modifies this`mailboxes
      ensures mailboxes == Touched(old(mailboxes), agent, id, OpRead, now)
      ensures r == UpdateReply(Memory, BoxOf(old(mailboxes), agent), id, OpRead, now)
    {
      if agent !in mailboxes { return Err(NotFound(id)); }
      var i := IndexOf(mailboxes[agent], id);
      if i == |mailboxes[agent]| { return Err(NotFound(id)); }
      var m := mailboxes[agent][i];
      SameWhenRewritten(mailboxes, agent, i);
      if m.status != Delivered {
        return Err(NotDeliverable(m.id, StatusName(m.status)));
      }
      m := m.(status := Read);
      m := m.(readAt := Some(now));
      mailboxes := mailboxes[agent := mailboxes[agent][i := m]];
      return Ok(m);
    }

    method AckLetter(agent: string, id: string, note: string, now: nat) returns (r: Result<Letter>)
      modifies this`mailboxes
      ensures mailboxes == Touched(old(mailboxes), agent, id, OpAck(note), now)
      ensures r == UpdateReply(Memory, BoxOf(old(mailboxes), agent), id, OpAck(note), now)
    {
      if agent !in mailboxes { return Err(NotFound(id)); }
      var i := IndexOf(mailboxes[agent], id);
      if i == |mailboxes[agent]| { return Err(NotFound(id)); }
      var m := mailboxes[agent][i];
      SameWhenRewritten(mailboxes, agent, i);
      if m.status == Acked {
        return Ok(m);
      }
      if m.status != Delivered && m.status != Read {
        return Err(NotDeliverable(m.id, StatusName(m.status)));
      }
      if m.readAt == None {
        m := m.(readAt := Some(now));
      }
      m := m.(status := Acked);
      m := m.(ackedAt := Some(now));
      m := m.(ackNote := Some(Clip(note)));
      assert m == BackendOp(Memory, mailboxes[agent][i], OpAck(note), now);
      mailboxes := mailboxes[agent := mailboxes[agent][i := m]];
      return Ok(m);
    }

    method ReviveAuthDead(agent: string, now: nat) returns (revived: seq<Letter>)
      modifies this`mailboxes
      ensures mailboxes == Revived(old(mailboxes), agent)
      ensures revived == Map(ReviveLetter, RevivableOf(BoxOf(old(mailboxes), agent)))
    {
      revived := [];
      if agent !in mailboxes {
        assert Map(ReviveLetter, []) == [];
        return;
      }
      var box;
      box, revived := ReviveInOrder(mailboxes[agent], now);
      mailboxes := mailboxes[agent := box];
    }

    method DeleteOne(id: string) returns (r: Result<Letter>)
      modifies this`mailboxes
      ensures r.Err? ==> r == Err(NotFound(id)) && !IdInUse(old(mailboxes), id) && mailboxes == old(mailboxes)
      ensures r.Ok? ==> r.value.id == id && Stored(old(mailboxes), r.value)
      ensures r.Ok? ==> exists a :: a in old(mailboxes) && HasId(old(mailboxes)[a], id)
                          && mailboxes == old(mailboxes)[a := DropId(old(mailboxes)[a], id)]
      ensures WellFormed(old(mailboxes)) ==> mailboxes == Deleted(old(mailboxes), id)
    {
      var todo := mailboxes.Keys;
      while todo != {}
        invariant todo <= mailboxes.Keys
        invariant mailboxes == old(mailboxes)
        invariant forall a :: a in mailboxes && a !in todo ==> !HasId(mailboxes[a], id)
      {
        var a :| a in todo;
        var i := IndexOf(mailboxes[a], id);
        if i < |mailboxes[a]| {
          var m := mailboxes[a][i];
          DropIsCut(mailboxes[a], id);
          if WellFormed(mailboxes) {
            DeletedFromOne(mailboxes, a, id);
          }
          mailboxes := mailboxes[a := Without(mailboxes[a], i)];
          return Ok(m);
        }
        todo := todo - {a};
      }
      DeletedFromNone(mailboxes, id);
      return Err(NotFound(id));
    }

    method DeleteAll() returns (removed: nat)
      modifies this`mailboxes
      ensures mailboxes == Emptied(old(mailboxes))
      ensures removed == Total(old(mailboxes))
    {
      removed := 0;
      var todo := mailboxes.Keys;
      ghost var left := mailboxes;
      while todo != {}
        invariant mailboxes.Keys == old(mailboxes).Keys && todo == left.Keys
        invariant left.Keys <= mailboxes.Keys
        invariant forall a :: a in left ==> left[a] == mailboxes[a]
        invariant forall a :: a in mailboxes && a !in left ==> mailboxes[a] == []
        invariant removed + Total(left) == Total(old(mailboxes))
      {
        var a :| a in todo;
        TotalMinus(left, a);
        removed := removed + |mailboxes[a]|;
        mailboxes := mailboxes[a := []];
        left := left - {a};
        todo := todo - {a};
      }
      assert left == map[];
    }

    /** Every letter on the bus, in FIFO order, each once. */
    method ListAll() returns (out: seq<Letter>)
      ensures forall m :: m in out <==> Stored(mailboxes, m)
      ensures InFifoOrder(out)
      ensures WellFormed(mailboxes) ==> DistinctIds(out) && StrictFifoOrder(out)
    {
      var all := [];
      var todo := mailboxes.Keys;
      while todo != {}
        invariant todo <= mailboxes.Keys
        invariant forall m :: m in all <==> exists a :: a in mailboxes && a !in todo && m in mailboxes[a]
        invariant WellFormed(mailboxes) ==> DistinctIds(all)
      {
        var a :| a in todo;
        if WellFormed(mailboxes) {
          DistinctAppend(mailboxes, todo, a, all);
        }
        all := all + mailboxes[a];
        todo := todo - {a};
      }
      FifoSorts(all);
      if WellFormed(mailboxes) {
        FifoStrict(all);
      }
      return Fifo(all);
    }

    method Register(agent: string)
      modifies this
      ensures agents == if agent in old(agents) then old(agents) else old(agents) + [agent]
      ensures mailboxes == if agent in old(mailboxes) then old(mailboxes) else old(mailboxes)[agent := []]
    {
      if agent !in agents {
        agents := agents + [agent];
      }
      if agent !in mailboxes {
        mailboxes := mailboxes[agent := []];
      }
    }

    /** The other agents keep their order, and the mailbox is kept: letters on the shelf stay
        visible. */
    method Unregister(agent: string)
      modifies this`agents
      ensures agents == Retain(old(agents), agent)
    {
      var kept := [];
      assert agents[..0] == [];
      for i := 0 to |agents|
        invariant agents == old(agents)
        invariant kept == Retain(agents[..i], agent)
      {
        assert agents[..i + 1][..i] == agents[..i];
        if agents[i] != agent {
          kept := kept + [agents[i]];
        }
      }
      assert agents[..|agents|] == agents;
      agents := kept;
    }
  }

  lemma {:induction false} DeletedFromNone(boxes: Boxes, id: string)
    requires !IdInUse(boxes, id)
    ensures Deleted(boxes, id) == boxes
  {
    forall a | a in boxes ensures DropId(boxes[a], id) == boxes[a] {
      DropIsCut(boxes[a], id);
    }
  }

  lemma {:induction false} DeletedFromOne(boxes: Boxes, a: string, id: string)
    requires WellFormed(boxes) && a in boxes && HasId(boxes[a], id)
    ensures Deleted(boxes, id) == boxes[a := DropId(boxes[a], id)]
  {
    forall b | b in boxes && b != a ensures DropId(boxes[b], id) == boxes[b] {
      assert boxes[a][IndexOf(boxes[a], id)].id == id;
      DropIsCut(boxes[b], id);
    }
  }

  lemma {:induction false} DistinctAppend(boxes: Boxes, todo: set<string>, a: string, all: seq<Letter>)
    requires WellFormed(boxes) && a in todo && todo <= boxes.Keys
    requires forall m :: m in all <==> exists b :: b in boxes && b !in todo && m in boxes[b]
    requires DistinctIds(all)
    ensures DistinctIds(all + boxes[a])
  {
    var r := all + boxes[a];
    forall i, j | 0 <= i < j < |r| ensures r[i].id != r[j].id {
      if i < |all| && |all| <= j {
        assert all[i] in all;
        var b :| b in boxes && b !in todo && all[i] in boxes[b];
        var k :| 0 <= k < |boxes[b]| && boxes[b][k] == all[i];
        assert r[j] == boxes[a][j - |all|];
      }
    }
  }
}
