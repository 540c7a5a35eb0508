/** Mailboxes as sequences of letters: FIFO order, lookup and update by id, and draining. */
module Mailbox {
  import opened Basics
  import opened Text
  import opened Lifecycle

  // ---------- FIFO order ----------

  /** Creation time first, id second: the order in which letters are handed out. */
  predicate FifoLt(a: Letter, b: Letter) {
    a.createdAt < b.createdAt || (a.createdAt == b.createdAt && StrLt(a.id, b.id))
  }

  function InsertFifo(s: seq<Letter>, m: Letter): (r: seq<Letter>)
    ensures |r| == |s| + 1
  {
    if s == [] then [m]
    else if FifoLt(m, s[0]) then [m] + s
    else [s[0]] + InsertFifo(s[1..], m)
  }

  /** The stable sort of a mailbox by FIFO order. */
  function Fifo(s: seq<Letter>): (r: seq<Letter>)
    ensures |r| == |s|
  {
    if s == [] then [] else InsertFifo(Fifo(s[..|s| - 1]), s[|s| - 1])
  }

  ghost predicate InFifoOrder(s: seq<Letter>) {
    forall i, j :: 0 <= i < j < |s| ==> !FifoLt(s[j], s[i])
  }

  ghost predicate StrictFifoOrder(s: seq<Letter>) {
    forall i, j :: 0 <= i < j < |s| ==> FifoLt(s[i], s[j])
  }

  ghost predicate DistinctIds(s: seq<Letter>) {
    forall i, j :: 0 <= i < j < |s| ==> s[i].id != s[j].id
  }

  lemma {:induction false} FifoLtTransitive(a: Letter, b: Letter, c: Letter)
    requires FifoLt(a, b) && !FifoLt(c, b)
    ensures FifoLt(a, c)
  {
    StrLtTotal(b.id, c.id);
    if a.createdAt == b.createdAt == c.createdAt && b.id != c.id {
      StrLtTransitive(a.id, b.id, c.id);
    }
  }

  lemma {:induction false} FifoLtAsymmetric(a: Letter, b: Letter)
    requires FifoLt(a, b)
    ensures !FifoLt(b, a)
  {
    if a.createdAt == b.createdAt {
      StrLtAsymmetric(a.id, b.id);
    }
  }

  lemma {:induction false} InsertFifoContents(s: seq<Letter>, m: Letter)
    ensures multiset(InsertFifo(s, m)) == multiset(s) + multiset{m}
  {
    if s != [] {
      assert s == [s[0]] + s[1..];
      assert multiset(s) == multiset{s[0]} + multiset(s[1..]);
      if !FifoLt(m, s[0]) {
        InsertFifoContents(s[1..], m);
      }
    }
  }

  lemma {:induction false} InOrderCons(m: Letter, s: seq<Letter>)
    requires InFifoOrder(s) && forall x :: x in s ==> !FifoLt(x, m)
    ensures InFifoOrder([m] + s)
  {
    var r := [m] + s;
    forall i, j | 0 <= i < j < |r| ensures !FifoLt(r[j], r[i]) {
      assert r[j] == s[j - 1] && s[j - 1] in s;
    }
  }

  lemma {:induction false} NoneBefore(s: seq<Letter>, m: Letter)
    requires InFifoOrder(s) && s != [] && FifoLt(m, s[0])
    ensures forall x :: x in s ==> !FifoLt(x, m)
  {
    forall x | x in s ensures !FifoLt(x, m) {
      var k :| 0 <= k < |s| && s[k] == x;
      if 0 < k {
        FifoLtTransitive(m, s[0], x);
      }
      FifoLtAsymmetric(m, x);
    }
  }

  lemma {:induction false} InsertFifoOrdered(s: seq<Letter>, m: Letter)
    requires InFifoOrder(s)
    ensures InFifoOrder(InsertFifo(s, m))
  {
    if s != [] {
      if FifoLt(m, s[0]) {
        NoneBefore(s, m);
        InOrderCons(m, s);
      } else {
        var r := InsertFifo(s[1..], m);
        InsertFifoOrdered(s[1..], m);
        InsertFifoContents(s[1..], m);
        forall x | x in r ensures !FifoLt(x, s[0]) {
          assert x in multiset(r);
          assert x == m || x in s[1..];
        }
        InOrderCons(s[0], r);
      }
    }
  }

  /** Sorting rearranges the letters it is given and puts them in FIFO order. */
  lemma {:induction false} FifoSorts(s: seq<Letter>)
    ensures multiset(Fifo(s)) == multiset(s)
    ensures InFifoOrder(Fifo(s))
    ensures forall m :: m in Fifo(s) <==> m in s
  {
    if s != [] {
      var front := s[..|s| - 1];
      FifoSorts(front);
      InsertFifoContents(Fifo(front), s[|s| - 1]);
      InsertFifoOrdered(Fifo(front), s[|s| - 1]);
      assert s == front + [s[|s| - 1]];
    }
    forall m ensures m in Fifo(s) <==> m in s {
      assert m in Fifo(s) <==> m in multiset(Fifo(s));
      assert m in s <==> m in multiset(s);
    }
  }

  lemma {:induction false} InsertLast(s: seq<Letter>, m: Letter)
    requires forall i :: 0 <= i < |s| ==> !FifoLt(m, s[i])
    ensures InsertFifo(s, m) == s + [m]
  {
    if s != [] {
      InsertLast(s[1..], m);
    }
  }

  /** Sorting a mailbox that is already in order changes nothing. */
  lemma {:induction false} FifoOfSorted(s: seq<Letter>)
    requires InFifoOrder(s)
    ensures Fifo(s) == s
  {
    if s != [] {
      var front := s[..|s| - 1];
      FifoOfSorted(front);
      InsertLast(front, s[|s| - 1]);
      assert s == front + [s[|s| - 1]];
    }
  }

  /** With distinct ids the sorted order is strict, so it leaves no choice. */
  lemma {:induction false} FifoStrict(s: seq<Letter>)
    requires DistinctIds(s)
    ensures StrictFifoOrder(Fifo(s)) && DistinctIds(Fifo(s))
  {
    FifoSorts(s);
    DistinctIdsPermute(s, Fifo(s));
    var r := Fifo(s);
    forall i, j | 0 <= i < j < |r| ensures FifoLt(r[i], r[j]) {
      StrLtTotal(r[i].id, r[j].id);
    }
  }

  lemma {:induction false} CountTwice(r: seq<Letter>, i: nat, j: nat)
    requires i < j < |r| && r[i] == r[j]
    ensures multiset(r)[r[i]] >= 2
  {
    assert r == r[..i] + [r[i]] + r[i + 1..j] + [r[j]] + r[j + 1..];
  }

  lemma {:induction false} CountOnce(s: seq<Letter>, i: nat)
    requires i < |s| && DistinctIds(s)
    ensures multiset(s)[s[i]] == 1
  {
    assert s == s[..i] + [s[i]] + s[i + 1..];
    assert s[i] !in s[..i] && s[i] !in s[i + 1..];
  }

  lemma {:induction false} DistinctIdsPermute(s: seq<Letter>, r: seq<Letter>)
    requires DistinctIds(s) && multiset(r) == multiset(s)
    ensures DistinctIds(r)
  {
    forall i, j | 0 <= i < j < |r| ensures r[i].id != r[j].id {
      assert r[i] in multiset(s) && r[j] in multiset(s);
      var a :| 0 <= a < |s| && s[a] == r[i];
      var b :| 0 <= b < |s| && s[b] == r[j];
      CountOnce(s, a);
      if r[i] == r[j] {
        CountTwice(r, i, j);
      }
    }
  }

  /** Two strictly ordered mailboxes with the same letters are the same mailbox. */
  lemma {:induction false} StrictOrderUnique(s: seq<Letter>, t: seq<Letter>)
    requires StrictFifoOrder(s) && StrictFifoOrder(t)
    requires forall m :: m in s <==> m in t
    ensures s == t
  {
    if t != [] {
      assert t[0] in s;
    }
    if s != [] {
      assert s[0] in t;
      var i :| 0 <= i < |t| && t[i] == s[0];
      var j :| 0 <= j < |s| && s[j] == t[0];
      if i > 0 {
        FifoLtAsymmetric(t[0], t[i]);
      }
      forall m ensures m in s[1..] <==> m in t[1..] {
        RestWithoutHead(s, m);
        RestWithoutHead(t, m);
      }
      StrictOrderUnique(s[1..], t[1..]);
      assert s == [s[0]] + s[1..] && t == [t[0]] + t[1..];
    }
  }

  lemma {:induction false} RestWithoutHead(s: seq<Letter>, m: Letter)
    requires s != [] && StrictFifoOrder(s)
    ensures m in s[1..] <==> m in s && m != s[0]
  {
    if m in s[1..] {
      var k :| 0 <= k < |s[1..]| && s[1..][k] == m;
      assert s[k + 1] == m;
      FifoLtAsymmetric(s[0], s[k + 1]);
    }
    assert s == [s[0]] + s[1..];
  }

  // ---------- letterwise changes ----------

  function Map(g: Letter -> Letter, s: seq<Letter>): (r: seq<Letter>)
    ensures |r| == |s|
    ensures forall i :: 0 <= i < |s| ==> r[i] == g(s[i])
  {
    seq(|s|, i requires 0 <= i < |s| => g(s[i]))
  }

  lemma {:induction false} MapCons(g: Letter -> Letter, s: seq<Letter>)
    requires s != []
    ensures Map(g, s) == [g(s[0])] + Map(g, s[1..])
  {}

  lemma {:induction false} Append3<T>(a: seq<T>, x: T, b: seq<T>)
    ensures a + ([x] + b) == a + [x] + b
  {}

  /** The change leaves the sort key alone. */
  ghost predicate KeepsSortKey(g: Letter -> Letter) {
    forall m: Letter :: g(m).id == m.id && g(m).createdAt == m.createdAt
  }

  lemma {:induction false} InsertFifoMap(g: Letter -> Letter, s: seq<Letter>, m: Letter)
    requires KeepsSortKey(g)
    ensures InsertFifo(Map(g, s), g(m)) == Map(g, InsertFifo(s, m))
  {
    if s == [] {
      assert Map(g, s) == [];
    } else {
      MapCons(g, s);
      if FifoLt(m, s[0]) {
        MapCons(g, [m] + s);
        assert ([m] + s)[1..] == s;
      } else {
        var r := InsertFifo(s[1..], m);
        InsertFifoMap(g, s[1..], m);
        MapCons(g, [s[0]] + r);
        assert ([s[0]] + r)[1..] == r;
        assert Map(g, s)[1..] == Map(g, s[1..]);
      }
    }
  }

  /** Sorting commutes with every change that leaves the sort key alone. */
  lemma {:induction false} FifoMap(g: Letter -> Letter, s: seq<Letter>)
    requires KeepsSortKey(g)
    ensures Fifo(Map(g, s)) == Map(g, Fifo(s))
  {
    if s != [] {
      var front := s[..|s| - 1];
      FifoMap(g, front);
      InsertFifoMap(g, Fifo(front), s[|s| - 1]);
      assert Map(g, s)[..|s| - 1] == Map(g, front);
    }
  }

  // ---------- lookup and update by id ----------

  /** Position of the first letter with the id, or |box| when there is none. */
  function IndexOf(box: seq<Letter>, id: string): (i: nat)
    ensures i <= |box|
    ensures i < |box| ==> box[i].id == id
    ensures forall j :: 0 <= j < i ==> box[j].id != id
  {
    if box == [] || box[0].id == id then 0 else 1 + IndexOf(box[1..], id)
  }

  lemma {:induction false} IndexOfDistinct(t: seq<Letter>, k: nat)
    requires DistinctIds(t) && k < |t|
    ensures IndexOf(t, t[k].id) == k
  {}

  lemma {:induction false} IndexOfSameIds(s: seq<Letter>, t: seq<Letter>, id: string)
    requires |s| == |t| && forall i :: 0 <= i < |s| ==> s[i].id == t[i].id
    ensures IndexOf(s, id) == IndexOf(t, id)
  {
    if s != [] && s[0].id != id {
      IndexOfSameIds(s[1..], t[1..], id);
    }
  }

  predicate HasId(box: seq<Letter>, id: string) {
    IndexOf(box, id) < |box|
  }

  function UpdateBox(b: Backend, box: seq<Letter>, id: string, op: LetterOp, now: nat): (r: seq<Letter>)
    ensures |r| == |box|
  {
    var i := IndexOf(box, id);
    if i < |box| then box[i := BackendOp(b, box[i], op, now)] else box
  }

  /** The change of one letter, as a change of every letter. */
  function Editor(b: Backend, id: string, op: LetterOp, now: nat): Letter -> Letter {
    (m: Letter) => if m.id == id then BackendOp(b, m, op, now) else m
  }

  lemma {:induction false} EditorKeepsSortKey(b: Backend, id: string, op: LetterOp, now: nat)
    ensures KeepsSortKey(Editor(b, id, op, now))
  {
    forall m: Letter ensures Editor(b, id, op, now)(m).id == m.id && Editor(b, id, op, now)(m).createdAt == m.createdAt {
      OpKeepsEnvelope(b, m, op, now);
    }
  }

  lemma {:induction false} UpdateBoxIsMap(b: Backend, box: seq<Letter>, id: string, op: LetterOp, now: nat)
    requires DistinctIds(box)
    ensures UpdateBox(b, box, id, op, now) == Map(Editor(b, id, op, now), box)
  {
    var i := IndexOf(box, id);
    var r, t := UpdateBox(b, box, id, op, now), Map(Editor(b, id, op, now), box);
    forall k | 0 <= k < |box| ensures r[k] == t[k] {
      if box[k].id == id {
        assert k == i;
      }
    }
  }

  /** With distinct ids it does not matter whether one sorts before or after an update. */
  lemma {:induction false} UpdateSorted(b: Backend, box: seq<Letter>, id: string, op: LetterOp, now: nat)
    requires DistinctIds(box)
    ensures Fifo(UpdateBox(b, box, id, op, now)) == UpdateBox(b, Fifo(box), id, op, now)
  {
    EditorKeepsSortKey(b, id, op, now);
    UpdateBoxIsMap(b, box, id, op, now);
    FifoMap(Editor(b, id, op, now), box);
    FifoStrict(box);
    UpdateBoxIsMap(b, Fifo(box), id, op, now);
  }

  // ---------- replies of single-letter operations ----------

  function StatusName(s: Status): string {
    match s
    case Queued => "Queued" case Pushing => "Pushing" case Delivered => "Delivered"
    case Read => "Read" case Acked => "Acked" case Dead => "Dead"
  }

  /** Reading needs a delivered letter; filing a result needs a letter in the receiver's hands. */
  predicate Refused(m: Letter, op: LetterOp) {
    || (op.OpRead? && m.status != Delivered)
    || (op.OpAck? && m.status !in {Delivered, Read, Acked})
  }

  function UpdateReply(b: Backend, box: seq<Letter>, id: string, op: LetterOp, now: nat): Result<Letter> {
    var i := IndexOf(box, id);
    if i == |box| then Err(NotFound(id))
    else if Refused(box[i], op) then Err(NotDeliverable(id, StatusName(box[i].status)))
    else Ok(BackendOp(b, box[i], op, now))
  }

  /** A claim is won by whoever finds the letter queued. */
  function ClaimReply(box: seq<Letter>, id: string): Result<bool> {
    var i := IndexOf(box, id);
    if i == |box| then Err(NotFound(id)) else Ok(box[i].status == Queued)
  }

  /** Filing is answered with the letter when it has reached its receiver, filed already or not,
      and refused with its status when it has not. */
  lemma {:induction false} AckIsAnswered(b: Backend, box: seq<Letter>, id: string, note: string, now: nat)
    requires IndexOf(box, id) < |box|
    ensures var m, r := box[IndexOf(box, id)], UpdateReply(b, box, id, OpAck(note), now);
            && (r.Ok? <==> m.status == Delivered || m.status == Read || m.status == Acked)
            && (m.status == Acked ==> r == Ok(m))
            && (m.status == Delivered || m.status == Read ==>
                  r == Ok(m.(status := Acked, ackedAt := Some(now), readAt := if m.readAt.Some? then m.readAt else Some(now),
                             ackNote := Some(if |note| <= 80 then note else note[..80]))))
            && (m.status == Queued ==> r == Err(NotDeliverable(id, "Queued")))
            && (m.status == Pushing ==> r == Err(NotDeliverable(id, "Pushing")))
            && (m.status == Dead ==> r == Err(NotDeliverable(id, "Dead")))
  {
    AckDoes(b, box[IndexOf(box, id)], note, now);
  }

  /** Reading is answered with the letter exactly when it is delivered and not read yet. */
  lemma {:induction false} ReadIsAnswered(b: Backend, box: seq<Letter>, id: string, now: nat)
    requires IndexOf(box, id) < |box|
    ensures var m, r := box[IndexOf(box, id)], UpdateReply(b, box, id, OpRead, now);
            && (m.status == Delivered ==> r == Ok(m.(status := Read, readAt := Some(now))))
            && (m.status == Queued ==> r == Err(NotDeliverable(id, "Queued")))
            && (m.status == Pushing ==> r == Err(NotDeliverable(id, "Pushing")))
            && (m.status == Read ==> r == Err(NotDeliverable(id, "Read")))
            && (m.status == Acked ==> r == Err(NotDeliverable(id, "Acked")))
            && (m.status == Dead ==> r == Err(NotDeliverable(id, "Dead")))
  {
    ReadDoes(b, box[IndexOf(box, id)], now);
  }

  /** Every other operation is answered with the letter as it is then; an unknown id is an error. */
  lemma {:induction false} OthersAreAnswered(b: Backend, box: seq<Letter>, id: string, op: LetterOp, now: nat)
    ensures var i, r := IndexOf(box, id), UpdateReply(b, box, id, op, now);
            && (i < |box| && !op.OpRead? && !op.OpAck? ==> r == Ok(BackendOp(b, box[i], op, now)) == Ok(UpdateBox(b, box, id, op, now)[i]))
            && (i == |box| ==> r == Err(NotFound(id)) && UpdateBox(b, box, id, op, now) == box)
            && (r.Err? ==> UpdateBox(b, box, id, op, now) == box)
  {
    var i := IndexOf(box, id);
    if i < |box| {
      ReadDoes(b, box[i], now);
      if op.OpAck? {
        AckDoes(b, box[i], op.note, now);
      }
    }
  }

  /** A claim is answered `true` exactly for a queued letter, `false` for any other that is there. */
  lemma {:induction false} ClaimIsAnswered(box: seq<Letter>, id: string)
    ensures (ClaimReply(box, id) == Ok(true) <==> exists i :: 0 <= i < |box| && box[i].id == id && box[i].status == Queued
                                                         && forall j :: 0 <= j < i ==> box[j].id != id)
    ensures ClaimReply(box, id) == Err(NotFound(id)) <==> forall i :: 0 <= i < |box| ==> box[i].id != id
    ensures ClaimReply(box, id).Err? ==> ClaimReply(box, id) == Err(NotFound(id))
  {
    var i := IndexOf(box, id);
    if i < |box| {
      assert forall j :: 0 <= j < |box| && box[j].id == id && (forall k :: 0 <= k < j ==> box[k].id != id) ==> j == i;
    }
  }

  // ---------- draining ----------

  function QueuedOf(box: seq<Letter>): seq<Letter> {
    if box == [] then []
    else if box[0].status == Queued then [box[0]] + QueuedOf(box[1..])
    else QueuedOf(box[1..])
  }

  function Deliver(now: nat): Letter -> Letter {
    (m: Letter) => Fire(m, PollClaimed, now)
  }

  /** A letter as a drain hands it out. */
  function HandOver(m: Letter, now: nat): Letter {
    m.(status := Delivered, deliveredAt := Some(now))
  }

  datatype Drained = Drained(box: seq<Letter>, out: seq<Letter>)

  /** Hand out queued letters from the front until the limit is reached.
      The limit is checked after each letter, so a limit of zero still hands out one. */
  function Drain(box: seq<Letter>, limit: nat, now: nat): Drained {
    if box == [] then Drained([], [])
    else if box[0].status != Queued then
      var d := Drain(box[1..], limit, now);
      Drained([box[0]] + d.box, d.out)
    else
      var m := HandOver(box[0], now);
      if limit <= 1 then Drained([m] + box[1..], [m])
      else
        var d := Drain(box[1..], limit - 1, now);
        Drained([m] + d.box, [m] + d.out)
  }

  /** How many letters a drain hands out. */
  function Handed(box: seq<Letter>, limit: nat): (n: nat)
    ensures n <= |QueuedOf(box)|
  {
    Min(if limit == 0 then 1 else limit, |QueuedOf(box)|)
  }

  lemma {:induction false} HandOverIsDelivery(m: Letter, now: nat)
    requires m.status == Queued
    ensures HandOver(m, now) == Deliver(now)(m)
  {}

  lemma {:induction false} DrainLeavesQueued(box: seq<Letter>, limit: nat, now: nat)
    ensures QueuedOf(Drain(box, limit, now).box) == QueuedOf(box)[Handed(box, limit)..]
  {
    if box != [] {
      var rest := box[1..];
      var d := Drain(box, limit, now);
      if box[0].status != Queued {
        DrainLeavesQueued(rest, limit, now);
        assert d.box[1..] == Drain(rest, limit, now).box;
      } else if 1 < limit {
        DrainLeavesQueued(rest, limit - 1, now);
        assert d.box[1..] == Drain(rest, limit - 1, now).box;
        assert QueuedOf(box)[Handed(box, limit)..] == QueuedOf(rest)[Handed(rest, limit - 1)..];
      } else {
        assert d.box[1..] == rest;
        assert QueuedOf(box)[1..] == QueuedOf(rest);
      }
    }
  }

  lemma {:induction false} TakeCons<T>(x: T, r: seq<T>, n: nat)
    requires n <= |r|
    ensures ([x] + r)[..n + 1] == [x] + r[..n]
  {}

  /** One more letter at the front of what is handed out. */
  lemma {:induction false} HandsOutMore(m: Letter, queued: seq<Letter>, n: nat, now: nat)
    requires m.status == Queued && n <= |queued|
    ensures [HandOver(m, now)] + Map(Deliver(now), queued[..n]) == Map(Deliver(now), ([m] + queued)[..n + 1])
  {
    TakeCons(m, queued, n);
    HandOverIsDelivery(m, now);
    MapCons(Deliver(now), [m] + queued[..n]);
    assert ([m] + queued[..n])[1..] == queued[..n];
  }

  lemma {:induction false} DrainOutIs(box: seq<Letter>, limit: nat, now: nat)
    ensures Drain(box, limit, now).out == Map(Deliver(now), QueuedOf(box)[..Handed(box, limit)])
  {
    if box != [] {
      var rest := box[1..];
      if box[0].status != Queued {
        DrainOutIs(rest, limit, now);
      } else if 1 < limit {
        DrainOutIs(rest, limit - 1, now);
        HandsOutMore(box[0], QueuedOf(rest), Handed(rest, limit - 1), now);
      } else {
        HandsOutMore(box[0], QueuedOf(rest), 0, now);
        assert QueuedOf(rest)[..0] == [] && Map(Deliver(now), []) == [];
      }
    }
  }

  /** A drain hands out exactly the first queued letters, delivered, in order, and the
      other queued letters stay queued. */
  lemma {:induction false} DrainHandsOut(box: seq<Letter>, limit: nat, now: nat)
    ensures Drain(box, limit, now).out == Map(Deliver(now), QueuedOf(box)[..Handed(box, limit)])
    ensures QueuedOf(Drain(box, limit, now).box) == QueuedOf(box)[Handed(box, limit)..]
  {
    DrainLeavesQueued(box, limit, now);
    DrainOutIs(box, limit, now);
  }

  lemma {:induction false} DrainFirst(box: seq<Letter>, limit: nat, now: nat)
    requires box != []
    ensures Drain(box, limit, now).box != []
    ensures Drain(box, limit, now).box[0] == if box[0].status == Queued then Deliver(now)(box[0]) else box[0]
    ensures box[0].status == Queued ==> 0 < Handed(box, limit)
  {}

  lemma {:induction false} QueuedPrefix(box: seq<Letter>, i: nat)
    requires 0 < i <= |box|
    ensures |QueuedOf(box[..i])| == One(box[0].status == Queued) + |QueuedOf(box[1..][..i - 1])|
  {
    assert box[..i][0] == box[0] && box[..i][1..] == box[1..][..i - 1];
  }

  /** What a drain leaves behind the first letter. */
  lemma {:induction false} DrainRest(box: seq<Letter>, limit: nat, now: nat)
    requires box != []
    ensures var rest := Drain(box, limit, now).box[1..];
            rest == if box[0].status != Queued then Drain(box[1..], limit, now).box
                    else if limit <= 1 then box[1..]
                    else Drain(box[1..], limit - 1, now).box
  {}

  lemma {:induction false} HandedCons(box: seq<Letter>, limit: nat)
    requires box != []
    ensures Handed(box, limit) == if box[0].status != Queued then Handed(box[1..], limit)
                                  else if limit <= 1 then 1
                                  else 1 + Handed(box[1..], limit - 1)
  {}

  /** Position i of a drained mailbox. */
  ghost predicate DrainedAt(box: seq<Letter>, limit: nat, now: nat, i: nat)
    requires i < |box|
  {
    var r := Drain(box, limit, now).box;
    i < |r| && r[i] == if box[i].status == Queued && |QueuedOf(box[..i])| < Handed(box, limit)
                       then Deliver(now)(box[i]) else box[i]
  }

  lemma {:induction false} DrainedLater(box: seq<Letter>, limit: nat, now: nat, i: nat)
    requires 0 < i < |box|
    requires box[0].status != Queued ==> DrainedAt(box[1..], limit, now, i - 1)
    requires box[0].status == Queued && 1 < limit ==> DrainedAt(box[1..], limit - 1, now, i - 1)
    ensures DrainedAt(box, limit, now, i)
  {
    var r := Drain(box, limit, now).box;
    DrainLength(box, limit, now);
    DrainRest(box, limit, now);
    HandedCons(box, limit);
    QueuedPrefix(box, i);
    assert r[i] == r[1..][i - 1] && box[i] == box[1..][i - 1];
  }

  /** A letter changes in a drain exactly when it is queued and early enough in the mailbox,
      and then it changes as the table says. */
  lemma {:induction false} DrainChanges(box: seq<Letter>, limit: nat, now: nat, i: nat)
    requires i < |box|
    ensures |Drain(box, limit, now).box| == |box|
    ensures Drain(box, limit, now).box[i] ==
            if box[i].status == Queued && |QueuedOf(box[..i])| < Handed(box, limit)
            then Deliver(now)(box[i]) else box[i]
  {
    DrainLength(box, limit, now);
    if i == 0 {
      DrainFirst(box, limit, now);
    } else {
      if box[0].status != Queued {
        DrainChanges(box[1..], limit, now, i - 1);
      } else if 1 < limit {
        DrainChanges(box[1..], limit - 1, now, i - 1);
      }
      DrainedLater(box, limit, now, i);
    }
  }

  lemma {:induction false} DrainLength(box: seq<Letter>, limit: nat, now: nat)
    ensures |Drain(box, limit, now).box| == |box|
  {
    if box != [] {
      DrainLength(box[1..], limit, now);
      DrainLength(box[1..], if limit <= 1 then 0 else limit - 1, now);
    }
  }

  /** A drained mailbox keeps its letters, places and order. */
  lemma {:induction false} DrainKeepsOrder(box: seq<Letter>, limit: nat, now: nat)
    ensures var r := Drain(box, limit, now).box;
            && |r| == |box|
            && (forall i :: 0 <= i < |box| ==> SameEnvelope(box[i], r[i]))
            && (InFifoOrder(box) ==> InFifoOrder(r))
  {
    DrainLength(box, limit, now);
    var r := Drain(box, limit, now).box;
    forall i | 0 <= i < |box| ensures SameEnvelope(box[i], r[i]) {
      DrainChanges(box, limit, now, i);
    }
    if InFifoOrder(box) {
      forall i, j | 0 <= i < j < |r| ensures !FifoLt(r[j], r[i]) {
        assert !FifoLt(box[j], box[i]);
      }
    }
  }

  /** Sorting what is left after a removal. */
  lemma {:induction false} DropSorted(box: seq<Letter>, kept: seq<Letter>, id: string)
    requires DistinctIds(box) && DistinctIds(kept)
    requires forall m :: m in kept <==> m in box && m.id != id
    ensures StrictFifoOrder(Fifo(kept)) && forall m :: m in Fifo(kept) <==> m in Fifo(box) && m.id != id
  {
    FifoSorts(box);
    FifoSorts(kept);
    FifoStrict(kept);
  }
}
