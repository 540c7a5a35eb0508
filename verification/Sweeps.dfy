/** One sweep of the whole store, and what successive sweeps do to a letter. */
module Sweeps {
  import opened Basics
  import opened Text
  import opened Lifecycle
  import opened Dispatch
  import opened Mailbox
  import opened MemoryStore
  import opened Sweeper

  // ---------- what a sweep does to one letter ----------

  /** How the push of one letter goes, should the sweep try it. */
  datatype Attempt = Attempt(claimedAt: nat, outcome: PushOutcome, reportedAt: nat)

  /** One sweep: the clock it reads, its minimum backoff, and how each push would go. */
  datatype Round = Round(now: nat, minBackoff: nat, tries: string -> Attempt)

  function Age(m: Letter, now: nat): nat {
    if m.createdAt <= now then now - m.createdAt else 0
  }

  function Decimal(n: nat): string {
    if n < 10 then [Digit(n)] else Decimal(n / 10) + [Digit(n % 10)]
  }

  function StaleNote(m: Letter, now: nat): string
    requires Stale(m, now)
  {
    "pushing stale " + Decimal((now - Since(m)) / NANOS_PER_SEC) + "s (dispatcher died mid-push)"
  }

  /** The first pass frees letters whose dispatcher died. */
  function Freed(m: Letter, now: nat): Letter {
    if Stale(m, now) then BackendOp(Memory, m, OpReclaim(StaleNote(m, now)), now) else m
  }

  predicate Due(m: Letter, round: Round) {
    m.status == Queued && !Gated(Age(m, round.now), round.minBackoff)
  }

  /** The second pass claims each letter that is due, tries to push it and reports. */
  function Tried(m: Letter, round: Round): Letter {
    if Due(m, round) then
      var t := round.tries(m.id);
      BackendOp(Memory, BackendOp(Memory, m, OpClaim, t.claimedAt), ReportOp(t.outcome), t.reportedAt)
    else m
  }

  function Swept(m: Letter, round: Round): Letter {
    Tried(Freed(m, round.now), round)
  }

  function FirstPass(now: nat): Letter -> Letter { (m: Letter) => Freed(m, now) }
  function SecondPass(round: Round): Letter -> Letter { (m: Letter) => Tried(m, round) }
  function BothPasses(round: Round): Letter -> Letter { (m: Letter) => Swept(m, round) }

  lemma {:induction false} PassesKeepEnvelope(m: Letter, round: Round)
    ensures SameEnvelope(m, Freed(m, round.now))
    ensures SameEnvelope(m, Tried(m, round))
  {
    if Stale(m, round.now) {
      OpKeepsEnvelope(Memory, m, OpReclaim(StaleNote(m, round.now)), round.now);
    }
    if Due(m, round) {
      var t := round.tries(m.id);
      OpKeepsEnvelope(Memory, m, OpClaim, t.claimedAt);
      OpKeepsEnvelope(Memory, BackendOp(Memory, m, OpClaim, t.claimedAt), ReportOp(t.outcome), t.reportedAt);
    }
  }

  // ---------- letterwise changes of a whole store ----------

  /** Every letter changed in place. */
  function Boxed(boxes: Boxes, g: Letter -> Letter): Boxes {
    map a | a in boxes :: Map(g, boxes[a])
  }

  /** The change, applied to the letters that have had their turn. */
  function Part(done: seq<Letter>, f: Letter -> Letter): Letter -> Letter {
    (x: Letter) => if x in done then f(x) else x
  }

  ghost predicate KeepsIds(g: Letter -> Letter) {
    forall x: Letter :: g(x).id == x.id && g(x).receiver == x.receiver
  }

  lemma {:induction false} BoxedSame(boxes: Boxes, g: Letter -> Letter, h: Letter -> Letter)
    requires forall x :: Stored(boxes, x) ==> g(x) == h(x)
    ensures Boxed(boxes, g) == Boxed(boxes, h)
  {
    forall a | a in boxes ensures Map(g, boxes[a]) == Map(h, boxes[a]) {
      forall k | 0 <= k < |boxes[a]| ensures g(boxes[a][k]) == h(boxes[a][k]) {
        assert boxes[a][k] in boxes[a];
        assert Stored(boxes, boxes[a][k]);
      }
    }
  }

  lemma {:induction false} BoxedNothing(boxes: Boxes, f: Letter -> Letter)
    ensures Boxed(boxes, Part([], f)) == boxes
  {
    forall a | a in boxes ensures Map(Part([], f), boxes[a]) == boxes[a] {}
  }

  lemma {:induction false} BoxedTwice(boxes: Boxes, g: Letter -> Letter, h: Letter -> Letter, gh: Letter -> Letter)
    requires forall x: Letter :: gh(x) == h(g(x))
    ensures Boxed(Boxed(boxes, g), h) == Boxed(boxes, gh)
  {
    forall a | a in boxes ensures Map(h, Map(g, boxes[a])) == Map(gh, boxes[a]) {}
  }

  lemma {:induction false} BoxedWellFormed(boxes: Boxes, g: Letter -> Letter)
    requires WellFormed(boxes) && KeepsIds(g)
    ensures WellFormed(Boxed(boxes, g))
  {
    var r: Boxes := Boxed(boxes, g);
    forall a, b, i, j | a in r && b in r && 0 <= i < |r[a]| && 0 <= j < |r[b]| && r[a][i].id == r[b][j].id
      ensures a == b && i == j
    {
      assert boxes[a][i].id == r[a][i].id && boxes[b][j].id == r[b][j].id;
    }
  }

  /** Where a letter of the original store is found after a letterwise change. */
  lemma {:induction false} FindBoxed(boxes: Boxes, g: Letter -> Letter, m: Letter) returns (k: nat)
    requires WellFormed(boxes) && KeepsIds(g) && Stored(boxes, m)
    ensures m.receiver in boxes && k < |boxes[m.receiver]| && boxes[m.receiver][k] == m
    ensures IndexOf(Boxed(boxes, g)[m.receiver], m.id) == k
    ensures Boxed(boxes, g)[m.receiver][k] == g(m)
  {
    var a :| a in boxes && m in boxes[a];
    k :| 0 <= k < |boxes[a]| && boxes[a][k] == m;
    var box := Boxed(boxes, g)[a];
    var i := IndexOf(box, m.id);
    assert box[k].id == m.id;
    assert boxes[a][i].id == box[i].id;
  }

  /** An operation on one letter, after a letterwise change, is a letterwise change. */
  lemma {:induction false} TouchBoxed(boxes: Boxes, g: Letter -> Letter, h: Letter -> Letter, m: Letter, op: LetterOp, now: nat)
    requires WellFormed(boxes) && KeepsIds(g) && Stored(boxes, m)
    requires forall x: Letter :: h(x) == if x == m then BackendOp(Memory, g(m), op, now) else g(x)
    ensures Touched(Boxed(boxes, g), m.receiver, m.id, op, now) == Boxed(boxes, h)
  {
    var k := FindBoxed(boxes, g, m);
    var l, r := Touched(Boxed(boxes, g), m.receiver, m.id, op, now), Boxed(boxes, h);
    forall a | a in boxes ensures l[a] == r[a] {
      forall j | 0 <= j < |boxes[a]| ensures l[a][j] == r[a][j] {
        if boxes[a][j] == m {
          assert boxes[a][j].receiver == a && boxes[m.receiver][k].id == boxes[a][j].id;
        }
      }
    }
  }

  // ---------- one turn of a pass ----------

  ghost predicate Lists(all: seq<Letter>, boxes: Boxes) {
    DistinctIds(all) && forall m :: m in all <==> Stored(boxes, m)
  }

  lemma {:induction false} PartKeepsIds(done: seq<Letter>, f: Letter -> Letter)
    requires KeepsIds(f)
    ensures KeepsIds(Part(done, f))
  {}

  lemma {:induction false} NotYet(all: seq<Letter>, i: nat)
    requires DistinctIds(all) && i < |all|
    ensures all[i] !in all[..i] && all[..i + 1] == all[..i] + [all[i]]
  {}

  lemma {:induction false} IdleTurn(boxes: Boxes, done: seq<Letter>, f: Letter -> Letter, m: Letter)
    requires f(m) == m
    ensures Boxed(boxes, Part(done + [m], f)) == Boxed(boxes, Part(done, f))
  {
    BoxedSame(boxes, Part(done + [m], f), Part(done, f));
  }

  lemma {:induction false} OneOpTurn(boxes: Boxes, done: seq<Letter>, f: Letter -> Letter, m: Letter, op: LetterOp, now: nat)
    requires WellFormed(boxes) && KeepsIds(f) && Stored(boxes, m) && m !in done
    requires f(m) == BackendOp(Memory, m, op, now)
    ensures Touched(Boxed(boxes, Part(done, f)), m.receiver, m.id, op, now) == Boxed(boxes, Part(done + [m], f))
  {
    PartKeepsIds(done, f);
    TouchBoxed(boxes, Part(done, f), Part(done + [m], f), m, op, now);
  }

  lemma {:induction false} TwoOpTurn(boxes: Boxes, done: seq<Letter>, f: Letter -> Letter, m: Letter,
                                     op: LetterOp, now: nat, op': LetterOp, now': nat)
    requires WellFormed(boxes) && KeepsIds(f) && Stored(boxes, m) && m !in done
    requires f(m) == BackendOp(Memory, BackendOp(Memory, m, op, now), op', now')
    ensures var claimed := Touched(Boxed(boxes, Part(done, f)), m.receiver, m.id, op, now);
            Touched(claimed, m.receiver, m.id, op', now') == Boxed(boxes, Part(done + [m], f))
  {
    var n := BackendOp(Memory, m, op, now);
    var g := Part(done, f);
    var h := (x: Letter) => if x == m then n else g(x);
    PartKeepsIds(done, f);
    OpKeepsEnvelope(Memory, m, op, now);
    TouchBoxed(boxes, g, h, m, op, now);
    TouchBoxed(boxes, h, Part(done + [m], f), m, op', now');
  }

  /** Before its turn a letter answers as it was listed. */
  lemma {:induction false} ClaimTurn(boxes: Boxes, done: seq<Letter>, f: Letter -> Letter, m: Letter)
    requires WellFormed(boxes) && KeepsIds(f) && Stored(boxes, m) && m !in done
    ensures ClaimReply(BoxOf(Boxed(boxes, Part(done, f)), m.receiver), m.id) == Ok(m.status == Queued)
  {
    PartKeepsIds(done, f);
    var k := FindBoxed(boxes, Part(done, f), m);
  }

  /** The reclaim pass, over a listing of the store. */
  method ReclaimPass(store: InMemoryStore, all: seq<Letter>, now: nat)
    requires WellFormed(store.mailboxes) && Lists(all, store.mailboxes)
    modifies store`mailboxes
    ensures store.mailboxes == Boxed(old(store.mailboxes), FirstPass(now))
  {
    ghost var before := store.mailboxes;
    ghost var f := FirstPass(now);
    assert KeepsIds(f) by { FirstPassKeepsIds(now); }
    BoxedNothing(before, f);
    assert all[..0] == [];
    for i := 0 to |all|
      invariant store.mailboxes == Boxed(before, Part(all[..i], f))
    {
      var m := all[i];
      NotYet(all, i);
      assert Stored(before, m);
      if m.status == Pushing && Stale(m, now) {
        var r := store.ReclaimStalePushing(m.receiver, m.id, StaleNote(m, now), now);
        OneOpTurn(before, all[..i], f, m, OpReclaim(StaleNote(m, now)), now);
      } else {
        IdleTurn(before, all[..i], f, m);
      }
    }
    assert all[..|all|] == all;
    BoxedSame(before, Part(all, f), f);
  }

  lemma {:induction false} FirstPassKeepsIds(now: nat)
    ensures KeepsIds(FirstPass(now))
  {
    forall m: Letter ensures Freed(m, now).id == m.id && Freed(m, now).receiver == m.receiver {
      PassesKeepEnvelope(m, Round(now, 0, _ => Attempt(0, PushOutcome.Pushed, 0)));
    }
  }

  lemma {:induction false} SecondPassKeepsIds(round: Round)
    ensures KeepsIds(SecondPass(round))
  {
    forall m: Letter ensures Tried(m, round).id == m.id && Tried(m, round).receiver == m.receiver {
      PassesKeepEnvelope(m, round);
    }
  }

  // ---------- counting deliveries ----------

  ghost function DeliveredIn(boxes: Boxes): set<string> {
    set a, k | a in boxes && 0 <= k < |boxes[a]| && boxes[a][k].status == Delivered :: boxes[a][k].id
  }

  lemma {:induction false} DeliveredBoxed(boxes: Boxes, g: Letter -> Letter, id: string)
    requires KeepsIds(g)
    ensures id in DeliveredIn(Boxed(boxes, g)) <==> exists x :: Stored(boxes, x) && g(x).status == Delivered && x.id == id
  {
    var r: Boxes := Boxed(boxes, g);
    if id in DeliveredIn(r) {
      var a, k :| a in r && 0 <= k < |r[a]| && r[a][k].status == Delivered && r[a][k].id == id;
      assert boxes[a][k] in boxes[a];
      assert Stored(boxes, boxes[a][k]);
    }
    if x :| Stored(boxes, x) && g(x).status == Delivered && x.id == id {
      var a :| a in boxes && x in boxes[a];
      var k :| 0 <= k < |boxes[a]| && boxes[a][k] == x;
      assert r[a][k] == g(x);
    }
  }

  lemma {:induction false} SameIdSameLetter(boxes: Boxes, x: Letter, y: Letter)
    requires WellFormed(boxes) && Stored(boxes, x) && Stored(boxes, y) && x.id == y.id
    ensures x == y
  {
    var a :| a in boxes && x in boxes[a];
    var b :| b in boxes && y in boxes[b];
    var i :| 0 <= i < |boxes[a]| && boxes[a][i] == x;
    var j :| 0 <= j < |boxes[b]| && boxes[b][j] == y;
  }

  lemma {:induction false} CountIds(ids: set<string>, ids': set<string>, id: string, added: bool)
    requires id !in ids
    requires forall x :: x in ids' <==> x in ids || (added && x == id)
    ensures |ids'| == |ids| + if added then 1 else 0
  {
    if added {
      assert ids' == ids + {id};
    } else {
      assert ids' == ids;
    }
  }

  /** A queued letter adds to the delivered ones exactly when its turn delivers it. */
  lemma {:induction false} CountTurn(boxes: Boxes, done: seq<Letter>, f: Letter -> Letter, m: Letter)
    requires WellFormed(boxes) && KeepsIds(f) && Stored(boxes, m) && m !in done && m.status == Queued
    ensures |DeliveredIn(Boxed(boxes, Part(done + [m], f)))| ==
            |DeliveredIn(Boxed(boxes, Part(done, f)))| + if f(m).status == Delivered then 1 else 0
  {
    var g, h := Part(done, f), Part(done + [m], f);
    var ids, ids' := DeliveredIn(Boxed(boxes, g)), DeliveredIn(Boxed(boxes, h));
    PartKeepsIds(done, f);
    PartKeepsIds(done + [m], f);
    forall id ensures id in ids' <==> id in ids || (f(m).status == Delivered && id == m.id) {
      DeliveredBoxed(boxes, g, id);
      DeliveredBoxed(boxes, h, id);
      DeliveredTurn(boxes, done, f, m, id);
    }
    assert m.id !in ids by {
      DeliveredBoxed(boxes, g, m.id);
      NotDeliveredYet(boxes, done, f, m);
    }
    CountIds(ids, ids', m.id, f(m).status == Delivered);
  }

  lemma {:induction false} NotDeliveredYet(boxes: Boxes, done: seq<Letter>, f: Letter -> Letter, m: Letter)
    requires WellFormed(boxes) && Stored(boxes, m) && m !in done && m.status == Queued
    ensures forall x :: Stored(boxes, x) && x.id == m.id ==> Part(done, f)(x).status != Delivered
  {
    forall x | Stored(boxes, x) && x.id == m.id ensures Part(done, f)(x).status != Delivered {
      SameIdSameLetter(boxes, x, m);
    }
  }

  lemma {:induction false} DeliveredTurn(boxes: Boxes, done: seq<Letter>, f: Letter -> Letter, m: Letter, id: string)
    requires WellFormed(boxes) && Stored(boxes, m) && m !in done && m.status == Queued
    ensures (exists x :: Stored(boxes, x) && Part(done + [m], f)(x).status == Delivered && x.id == id) <==>
            (exists x :: Stored(boxes, x) && Part(done, f)(x).status == Delivered && x.id == id)
            || (f(m).status == Delivered && id == m.id)
  {
    forall x ensures Part(done + [m], f)(x) == if x == m then f(m) else Part(done, f)(x) {}
    assert Part(done, f)(m) == m;
  }

  /** Whether a letter can be claimed under its receiver. */
  predicate Claimable(boxes: Boxes, m: Letter) {
    ClaimReply(BoxOf(boxes, m.receiver), m.id) == Ok(true)
  }

  lemma {:induction false} StillThere(boxes: Boxes, m: Letter, now: nat)
    requires Claimable(boxes, m)
    ensures HasId(BoxOf(Touched(boxes, m.receiver, m.id, OpClaim, now), m.receiver), m.id)
  {
    var box := boxes[m.receiver];
    var i := IndexOf(box, m.id);
    OpKeepsEnvelope(Memory, box[i], OpClaim, now);
    var r := Touched(boxes, m.receiver, m.id, OpClaim, now)[m.receiver];
    assert r[i].id == m.id;
  }

  /** Claim a letter, and only if the claim is won push it and report. */
  method PushOne(store: InMemoryStore, m: Letter, t: Attempt) returns (counted: bool)
    modifies store`mailboxes
    ensures var claimed := Touched(old(store.mailboxes), m.receiver, m.id, OpClaim, t.claimedAt);
            store.mailboxes == if Claimable(old(store.mailboxes), m)
                               then Touched(claimed, m.receiver, m.id, ReportOp(t.outcome), t.reportedAt)
                               else claimed
    ensures counted <==> Claimable(old(store.mailboxes), m) && t.outcome.Pushed?
  {
    counted := false;
    ghost var before := store.mailboxes;
    var won := store.MarkPushing(m.receiver, m.id, t.claimedAt);
    if won == Ok(true) {
      StillThere(before, m, t.claimedAt);
      counted := Report(store, m, t);
    }
  }

  /** The push pass, over a listing of the store: each letter that is due is claimed, handed to
      its transport, and its outcome reported. */
  method PushPass(store: InMemoryStore, all: seq<Letter>, round: Round) returns (pushed: nat)
    requires WellFormed(store.mailboxes) && Lists(all, store.mailboxes)
    modifies store`mailboxes
    ensures store.mailboxes == Boxed(old(store.mailboxes), SecondPass(round))
    ensures |DeliveredIn(store.mailboxes)| == |DeliveredIn(old(store.mailboxes))| + pushed
  {
    ghost var before := store.mailboxes;
    ghost var f := SecondPass(round);
    SecondPassKeepsIds(round);
    BoxedNothing(before, f);
    assert all[..0] == [];
    pushed := 0;
    for i := 0 to |all|
      invariant store.mailboxes == Boxed(before, Part(all[..i], f))
      invariant |DeliveredIn(store.mailboxes)| == |DeliveredIn(before)| + pushed
    {
      var m := all[i];
      NotYet(all, i);
      assert Stored(before, m);
      if m.status == Queued && !(0 < round.minBackoff && Age(m, round.now) < RetryWindow(Age(m, round.now), round.minBackoff)) {
        var t := round.tries(m.id);
        ClaimTurn(before, all[..i], f, m);
        TwoOpTurn(before, all[..i], f, m, OpClaim, t.claimedAt, ReportOp(t.outcome), t.reportedAt);
        CountTurn(before, all[..i], f, m);
        TriedDelivers(m, round);
        var counted := PushOne(store, m, t);
        pushed := pushed + if counted then 1 else 0;
      } else {
        IdleTurn(before, all[..i], f, m);
      }
    }
    assert all[..|all|] == all;
    BoxedSame(before, Part(all, f), f);
  }

  lemma {:induction false} TriedDelivers(m: Letter, round: Round)
    requires Due(m, round)
    ensures Tried(m, round).status == Delivered <==> round.tries(m.id).outcome.Pushed?
  {
    assert BackendOp(Memory, m, OpClaim, round.tries(m.id).claimedAt).status == Pushing;
  }

  /** Report the outcome of a push that was claimed; a push that succeeded counts when the
      store takes the receipt. */
  method Report(store: InMemoryStore, m: Letter, t: Attempt) returns (counted: bool)
    modifies store`mailboxes
    ensures store.mailboxes == Touched(old(store.mailboxes), m.receiver, m.id, ReportOp(t.outcome), t.reportedAt)
    ensures counted <==> t.outcome.Pushed? && HasId(BoxOf(old(store.mailboxes), m.receiver), m.id)
  {
    counted := false;
    match t.outcome {
      case Pushed =>
        var r := store.MarkPushOk(m.receiver, m.id, t.reportedAt);
        counted := r.Ok?;
      case Failed(error) =>
        var r := store.MarkPushFailed(m.receiver, m.id, error, t.reportedAt);
      case Skipped(reason) =>
        var r := store.ReclaimStalePushing(m.receiver, m.id, reason, t.reportedAt);
    }
  }

  // ---------- the sweep ----------

  lemma {:induction false} FreedDelivers(boxes: Boxes, now: nat)
    ensures DeliveredIn(Boxed(boxes, FirstPass(now))) == DeliveredIn(boxes)
  {
    var f := FirstPass(now);
    var same := (x: Letter) => x;
    FirstPassKeepsIds(now);
    forall x: Letter ensures f(x).status == Delivered <==> same(x).status == Delivered {
      FreedIsNoDelivery(x, now);
    }
    assert Boxed(boxes, same) == boxes by {
      forall a | a in boxes ensures Map(same, boxes[a]) == boxes[a] {}
    }
    forall id ensures id in DeliveredIn(Boxed(boxes, f)) <==> id in DeliveredIn(Boxed(boxes, same)) {
      DeliveredBoxed(boxes, f, id);
      DeliveredBoxed(boxes, same, id);
    }
  }

  lemma {:induction false} FreedIsNoDelivery(x: Letter, now: nat)
    ensures Freed(x, now).status == Delivered <==> x.status == Delivered
  {}

  /** One sweep that nobody interrupts changes each letter as `Swept` says and returns exactly
      the rise in delivered letters. */
  method SweepOnce(store: InMemoryStore, round: Round) returns (pushed: nat)
    requires WellFormed(store.mailboxes)
    modifies store`mailboxes
    ensures store.mailboxes == Boxed(old(store.mailboxes), BothPasses(round))
    ensures |DeliveredIn(store.mailboxes)| == |DeliveredIn(old(store.mailboxes))| + pushed
  {
    ghost var before := store.mailboxes;
    var all := store.ListAll();
    ReclaimPass(store, all, round.now);
    FirstPassKeepsIds(round.now);
    BoxedWellFormed(before, FirstPass(round.now));
    FreedDelivers(before, round.now);
    all := store.ListAll();
    pushed := PushPass(store, all, round);
    BoxedTwice(before, FirstPass(round.now), SecondPass(round), BothPasses(round));
  }

  /** A sweep changes only letters that are due and letters left in flight. */
  lemma {:induction false} SweepTouchesOnly(m: Letter, round: Round)
    ensures Swept(m, round) != m ==> Due(m, round) || Stale(m, round.now)
    ensures m.status in {Delivered, Read, Acked, Dead} ==> Swept(m, round) == m
  {}

  // ---------- successive sweeps ----------

  function AfterRounds(boxes: Boxes, rounds: seq<Round>): Boxes
    decreases |rounds|
  {
    if rounds == [] then boxes else AfterRounds(Boxed(boxes, BothPasses(rounds[0])), rounds[1..])
  }

  function LetterAfter(m: Letter, rounds: seq<Round>): Letter
    decreases |rounds|
  {
    if rounds == [] then m else LetterAfter(Swept(m, rounds[0]), rounds[1..])
  }

  function AllRounds(rounds: seq<Round>): Letter -> Letter { (m: Letter) => LetterAfter(m, rounds) }

  /** Successive sweeps treat each letter on its own. */
  lemma {:induction false} RoundsActLetterwise(boxes: Boxes, rounds: seq<Round>)
    ensures AfterRounds(boxes, rounds) == Boxed(boxes, AllRounds(rounds))
  {
    if rounds == [] {
      forall a | a in boxes ensures Map(AllRounds([]), boxes[a]) == boxes[a] {}
    } else {
      RoundsActLetterwise(Boxed(boxes, BothPasses(rounds[0])), rounds[1..]);
      BoxedTwice(boxes, BothPasses(rounds[0]), AllRounds(rounds[1..]), AllRounds(rounds));
    }
  }

  /** The letter's backoff has elapsed when the round looks at it. */
  predicate Open(m: Letter, round: Round) {
    !Gated(Age(m, round.now), round.minBackoff)
  }

  /** How many rounds find the letter's backoff elapsed. */
  function Tries(m: Letter, rounds: seq<Round>): nat {
    if rounds == [] then 0 else One(Open(m, rounds[0])) + Tries(m, rounds[1..])
  }

  function Outcome(m: Letter, round: Round): PushOutcome { round.tries(m.id).outcome }

  /** Round j fails the push for a reason that is no credential problem, after the attempts
      have been used up, skipped pushes and credential problems included. */
  predicate Lethal(m: Letter, rounds: seq<Round>, j: nat)
    requires j < |rounds|
  {
    && Open(m, rounds[j])
    && Outcome(m, rounds[j]).Failed? && !IsAuth(Outcome(m, rounds[j]).error)
    && 8 <= m.attempts + Tries(m, rounds[..j + 1])
  }

  predicate NeverPushed(m: Letter, rounds: seq<Round>) {
    forall j :: 0 <= j < |rounds| && Open(m, rounds[j]) ==> !Outcome(m, rounds[j]).Pushed?
  }

  /** One round, for a queued letter whose push does not succeed. */
  lemma {:induction false} FailingRound(m: Letter, round: Round)
    requires m.status == Queued && (Open(m, round) ==> !Outcome(m, round).Pushed?)
    ensures var n := Swept(m, round);
            && SameEnvelope(m, n)
            && n.attempts == m.attempts + One(Open(m, round))
            && n.status == if Lethal(m, [round], 0) then Dead else Queued
  {
    PassesKeepEnvelope(m, round);
    assert Tries(m, [round]) == One(Open(m, round)) + Tries(m, [round][1..]);
    assert [round][..1] == [round];
    if Open(m, round) {
      var t := round.tries(m.id);
      var claimed := BackendOp(Memory, m, OpClaim, t.claimedAt);
      assert claimed == m.(status := Pushing, attempts := m.attempts + 1, lastPushAt := Some(t.claimedAt));
    }
  }

  lemma {:induction false} SameTries(m: Letter, n: Letter, rounds: seq<Round>)
    requires SameEnvelope(m, n)
    ensures Tries(m, rounds) == Tries(n, rounds)
  {
    if rounds != [] {
      SameTries(m, n, rounds[1..]);
    }
  }

  lemma {:induction false} LethalShifts(m: Letter, n: Letter, rounds: seq<Round>, j: nat)
    requires 0 < j < |rounds| && SameEnvelope(m, n)
    requires n.attempts == m.attempts + One(Open(m, rounds[0]))
    ensures Lethal(m, rounds, j) <==> Lethal(n, rounds[1..], j - 1)
  {
    assert rounds[1..][j - 1] == rounds[j];
    TriesOnward(m, n, rounds, j);
  }

  lemma {:induction false} DeadStays(m: Letter, rounds: seq<Round>)
    requires m.status == Dead
    ensures LetterAfter(m, rounds) == m
  {
    if rounds != [] {
      SweepTouchesOnly(m, rounds[0]);
      DeadStays(m, rounds[1..]);
    }
  }

  lemma {:induction false} StillNeverPushed(m: Letter, n: Letter, rounds: seq<Round>)
    requires rounds != [] && SameEnvelope(m, n) && NeverPushed(m, rounds)
    ensures NeverPushed(n, rounds[1..])
  {
    forall j | 0 <= j < |rounds| - 1 && Open(n, rounds[1..][j]) ensures !Outcome(n, rounds[1..][j]).Pushed? {
      assert rounds[1..][j] == rounds[j + 1];
    }
  }

  /** The poison policy, for every mixture of failures, skips and gated rounds: the letter dies
      in the first lethal round, with the attempts it then has; until one comes it stays queued,
      and every round that tried it has cost it an attempt. */
  lemma {:induction false} DiesInFirstLethalRound(m: Letter, rounds: seq<Round>, j: nat)
    requires m.status == Queued && NeverPushed(m, rounds)
    requires j <= |rounds| && forall i :: 0 <= i < j ==> !Lethal(m, rounds, i)
    requires j < |rounds| ==> Lethal(m, rounds, j)
    ensures var n := LetterAfter(m, rounds);
            if j < |rounds| then n.status == Dead && n.attempts == m.attempts + Tries(m, rounds[..j + 1])
            else n.status == Queued && n.attempts == m.attempts + Tries(m, rounds)
    decreases |rounds|
  {
    if rounds != [] {
      var n := Swept(m, rounds[0]);
      FirstRound(m, rounds);
      if j == 0 {
        DeadStays(n, rounds[1..]);
      } else {
        forall i | 0 <= i < |rounds| - 1 ensures Lethal(n, rounds[1..], i) <==> Lethal(m, rounds, i + 1) {
          LethalShifts(m, n, rounds, i + 1);
        }
        StillNeverPushed(m, n, rounds);
        DiesInFirstLethalRound(n, rounds[1..], j - 1);
        if j < |rounds| {
          TriesOnward(m, n, rounds, j);
        } else {
          SameTries(m, n, rounds[1..]);
        }
      }
    }
  }

  /** The first of some rounds, for a queued letter whose push does not succeed in it. */
  lemma {:induction false} FirstRound(m: Letter, rounds: seq<Round>)
    requires m.status == Queued && rounds != [] && NeverPushed(m, rounds)
    ensures var n := Swept(m, rounds[0]);
            && SameEnvelope(m, n)
            && n.attempts == m.attempts + One(Open(m, rounds[0]))
            && n.status == (if Lethal(m, rounds, 0) then Dead else Queued)
    ensures Tries(m, rounds[..1]) == One(Open(m, rounds[0]))
  {
    FailingRound(m, rounds[0]);
    assert [rounds[0]][..1] == rounds[..1];
    assert rounds[..1][1..] == [];
  }

  /** The tries of the first rounds, counted from the second on. */
  lemma {:induction false} TriesOnward(m: Letter, n: Letter, rounds: seq<Round>, j: nat)
    requires j < |rounds| && SameEnvelope(m, n)
    ensures Tries(m, rounds[..j + 1]) == One(Open(m, rounds[0])) + Tries(n, rounds[1..][..j])
  {
    assert rounds[..j + 1][1..] == rounds[1..][..j];
    SameTries(m, n, rounds[1..][..j]);
  }

  lemma {:induction false} TriesAll(m: Letter, rounds: seq<Round>)
    requires forall i :: 0 <= i < |rounds| ==> Open(m, rounds[i])
    ensures Tries(m, rounds) == |rounds|
  {
    if rounds != [] {
      TriesAll(m, rounds[1..]);
    }
  }

  /** Sweeps that are all due and all fail for other reasons than credentials: the letter goes
      dead in exactly the sweep number max(1, 8 - a), with max(8, a + 1) attempts. */
  lemma {:induction false} PoisonPolicy(m: Letter, rounds: seq<Round>)
    requires m.status == Queued
    requires forall i :: 0 <= i < |rounds| ==>
               Open(m, rounds[i]) && Outcome(m, rounds[i]).Failed? && !IsAuth(Outcome(m, rounds[i]).error)
    ensures var n, last := LetterAfter(m, rounds), if m.attempts < 7 then 8 - m.attempts else 1;
            if |rounds| < last then n.status == Queued && n.attempts == m.attempts + |rounds|
            else n.status == Dead && n.attempts == Max(8, m.attempts + 1)
  {
    var last := if m.attempts < 7 then 8 - m.attempts else 1;
    TriesAll(m, rounds);
    forall i | 0 <= i < |rounds| ensures Lethal(m, rounds, i) <==> 8 <= m.attempts + i + 1 {
      TriesAll(m, rounds[..i + 1]);
    }
    var j := Min(last - 1, |rounds|);
    if j < |rounds| {
      TriesAll(m, rounds[..j + 1]);
    }
    DiesInFirstLethalRound(m, rounds, j);
  }

  /** Credential problems never kill: whatever the number of sweeps, and however many were
      skipped, the letter is still queued. */
  lemma {:induction false} AuthNeverKills(m: Letter, rounds: seq<Round>)
    requires m.status == Queued
    requires forall i :: 0 <= i < |rounds| && Open(m, rounds[i]) ==>
               Outcome(m, rounds[i]).Skipped? || (Outcome(m, rounds[i]).Failed? && IsAuth(Outcome(m, rounds[i]).error))
    ensures var n := LetterAfter(m, rounds); n.status == Queued && n.attempts == m.attempts + Tries(m, rounds)
  {
    DiesInFirstLethalRound(m, rounds, |rounds|);
  }

  // ---------- what a sweep does, field by field ----------

  /** The number that some digits stand for. */
  function Value(digits: string): nat {
    if digits == "" then 0
    else
      var last := digits[|digits| - 1];
      10 * Value(digits[..|digits| - 1]) + if '0' <= last <= '9' then (last - '0') as nat else 0
  }

  lemma {:induction false} DecimalIs(n: nat)
    ensures Value(Decimal(n)) == n
  {
    if n < 10 {
      assert Decimal(n)[..0] == "";
    } else {
      var front := Decimal(n / 10);
      DecimalIs(n / 10);
      assert Decimal(n)[..|Decimal(n)| - 1] == front;
    }
  }

  /** The first pass re-queues a letter in flight whose last claim is 151 seconds old, with its
      attempts, and says how old in whole seconds; it leaves every other letter alone. */
  lemma {:induction false} FirstPassFrees(m: Letter, now: nat)
    ensures var since := if m.lastPushAt.Some? then m.lastPushAt.value else m.createdAt;
            var n := FirstPass(now)(m);
            if m.status == Pushing && since + 151_000_000_000 <= now then
              n.status == Queued && n.attempts == m.attempts
              && n.lastError == Some("pushing stale " + Decimal((now - since) / 1_000_000_000) + "s (dispatcher died mid-push)")
              && n == m.(status := Queued, lastError := n.lastError)
            else n == m
  {
    StaleAfter(m, now);
    if Stale(m, now) {
      ReclaimDoes(Memory, m, StaleNote(m, now), now);
    }
  }

  /** A letter is due exactly when it is queued and there is no minimum backoff, or at least one
      step of it has passed since the letter was created. */
  lemma {:induction false} DueExactly(m: Letter, round: Round)
    requires round.now / NANOS_PER_SEC < U64 && round.minBackoff / NANOS_PER_SEC < U64
    ensures Due(m, round) <==>
            m.status == Queued
            && (round.minBackoff == 0
                || (m.createdAt <= round.now
                    && Max(1, round.minBackoff / 1_000_000_000) <= (round.now - m.createdAt) / 1_000_000_000))
  {
    GateIsOneStep(Age(m, round.now), round.minBackoff);
  }

  /** What the second pass makes of a letter that is due: one attempt more, and then delivered if
      it was pushed; queued again if it was skipped; and if it failed, dead from the eighth attempt
      on unless credentials failed, and queued again otherwise. */
  lemma {:induction false} SecondPassTries(m: Letter, round: Round)
    ensures var t, n := round.tries(m.id), SecondPass(round)(m);
            if !Due(m, round) then n == m
            else
              var tried := m.(attempts := m.attempts + 1, lastPushAt := Some(t.claimedAt));
              match t.outcome
              case Pushed => n == tried.(status := Delivered, deliveredAt := Some(t.reportedAt))
              case Skipped(reason) => n == tried.(lastError := Some(reason))
              case Failed(error) =>
                n == if m.attempts + 1 >= 8 && !IsAuth(error) then tried.(status := Dead, deadReason := Some(error))
                     else tried.(lastError := Some(error))
  {
    if Due(m, round) {
      var t := round.tries(m.id);
      var claimed := BackendOp(Memory, m, OpClaim, t.claimedAt);
      ClaimDoes(Memory, m, t.claimedAt);
      match t.outcome
      case Pushed => PushOkDoes(Memory, claimed, t.reportedAt);
      case Skipped(reason) => ReclaimDoes(Memory, claimed, reason, t.reportedAt);
      case Failed(error) => FailDoesInMemory(claimed, error, t.reportedAt);
    }
  }

  /** A stale letter is tried again in the same sweep if its backoff has elapsed: it has one
      attempt more, and is delivered exactly if the push succeeds; otherwise it waits, queued. */
  lemma {:induction false} StaleIsTriedAgain(m: Letter, round: Round)
    requires m.status == Pushing
    requires (if m.lastPushAt.Some? then m.lastPushAt.value else m.createdAt) + 151_000_000_000 <= round.now
    ensures var n := BothPasses(round)(m);
            if Open(m, round) then
              && n.attempts == m.attempts + 1
              && (n.status == Delivered <==> Outcome(m, round).Pushed?)
            else n.status == Queued && n.attempts == m.attempts
  {
    FirstPassFrees(m, round.now);
    SecondPassTries(FirstPass(round.now)(m), round);
  }
}
