/** Polling until the mailbox is empty: with no other writer, successive batches hand out the
    waiting letters in FIFO order, each exactly once, and nothing else moves. */
module Drains {
  import opened Basics
  import opened Lifecycle
  import opened Mailbox
  import opened MemoryStore
  import opened Simulation

  // ---------- any queue served k at a time ----------

  function StateAfter<S>(step: (S, nat) -> S, s: S, times: seq<nat>): S {
    if times == [] then s else StateAfter(step, step(s, times[0]), times[1..])
  }

  function Answers<S, U>(step: (S, nat) -> S, out: (S, nat) -> U, s: S, times: seq<nat>): (r: seq<U>)
    ensures |r| == |times|
  {
    if times == [] then [] else [out(s, times[0])] + Answers(step, out, step(s, times[0]), times[1..])
  }

  /** How many of n waiting entries the first j servings have handed out. */
  function Served(j: nat, k: nat, n: nat): (c: nat)
    ensures c <= n
  {
    if j == 0 then 0 else Min(k, n) + Served(j - 1, k, n - Min(k, n))
  }

  /** What one serving takes, and what it leaves. */
  function Front<T>(w: seq<T>, k: nat): seq<T> { w[..Min(k, |w|)] }
  function Rest<T>(w: seq<T>, k: nat): seq<T> { w[Min(k, |w|)..] }

  /** What waits after j servings. */
  function Left<T>(w: seq<T>, k: nat, j: nat): seq<T> { w[Served(j, k, |w|)..] }

  lemma {:induction false} DropTwice<T>(w: seq<T>, c: nat, x: nat)
    requires c <= |w| && x <= |w| - c
    ensures w[c..][x..] == w[c + x..]
  {}

  /** One serving more, from the front or from the back. */
  lemma {:induction false} LeftShifts<T>(w: seq<T>, v: seq<T>, k: nat, j: nat)
    requires v == Rest(w, k)
    ensures Left(w, k, j + 1) == Left(v, k, j)
  {
    DropTwice(w, Min(k, |w|), Served(j, k, |w| - Min(k, |w|)));
  }

  lemma {:induction false} ServedGrows(j: nat, k: nat, n: nat)
    ensures Served(j + 1, k, n) == Served(j, k, n) + Min(k, n - Served(j, k, n))
  {
    if 0 < j {
      ServedGrows(j - 1, k, n - Min(k, n));
    }
  }

  lemma {:induction false} FrontOfLeft<T>(w: seq<T>, k: nat, j: nat)
    ensures var from, to := Served(j, k, |w|), Served(j + 1, k, |w|);
            from <= to && Front(Left(w, k, j), k) == w[from..to]
  {
    ServedGrows(j, k, |w|);
    TakeOfDrop(w, Served(j, k, |w|), Min(k, |w| - Served(j, k, |w|)));
  }

  lemma {:induction false} TakeOfDrop<T>(w: seq<T>, c: nat, x: nat)
    requires c <= |w| && x <= |w| - c
    ensures w[c..][..x] == w[c..c + x]
  {}

  /** A step takes the first k entries that wait, and answers with what it took. */
  ghost predicate ServesFront<S(!new), T, U>(step: (S, nat) -> S, out: (S, nat) -> U, queue: S -> seq<T>,
                                             show: (seq<T>, nat) -> U, k: nat) {
    forall s: S, now: nat ::
      queue(step(s, now)) == Rest(queue(s), k) && out(s, now) == show(Front(queue(s), k), now)
  }

  lemma {:induction false} ServingLeaves<S(!new), T, U>(step: (S, nat) -> S, out: (S, nat) -> U, queue: S -> seq<T>,
                                                  show: (seq<T>, nat) -> U, k: nat, s: S, times: seq<nat>)
    requires ServesFront(step, out, queue, show, k)
    ensures queue(StateAfter(step, s, times)) == Left(queue(s), k, |times|)
  {
    if times != [] {
      var s' := step(s, times[0]);
      ServingLeaves(step, out, queue, show, k, s', times[1..]);
      LeftShifts(queue(s), queue(s'), k, |times| - 1);
    } else {
      assert Served(0, k, |queue(s)|) == 0;
    }
  }

  lemma {:induction false} AnswerAt<S, U>(step: (S, nat) -> S, out: (S, nat) -> U, s: S, times: seq<nat>, j: nat)
    requires j < |times|
    ensures Answers(step, out, s, times)[j] == out(StateAfter(step, s, times[..j]), times[j])
  {
    if 0 < j {
      AnswerAt(step, out, step(s, times[0]), times[1..], j - 1);
      assert times[..j][1..] == times[1..][..j - 1];
    }
  }

  lemma {:induction false} ServingAnswers<S(!new), T, U>(step: (S, nat) -> S, out: (S, nat) -> U, queue: S -> seq<T>,
                                                   show: (seq<T>, nat) -> U, k: nat, s: S, times: seq<nat>, j: nat)
    requires ServesFront(step, out, queue, show, k) && j < |times|
    ensures Answers(step, out, s, times)[j] == show(Front(Left(queue(s), k, j), k), times[j])
  {
    AnswerAt(step, out, s, times, j);
    ServingLeaves(step, out, queue, show, k, s, times[..j]);
  }

  /** How many servings it takes until nothing waits. */
  function Rounds(n: nat, k: nat): nat
    requires 0 < k
  {
    if n == 0 then 0 else 1 + Rounds(n - Min(k, n), k)
  }

  lemma {:induction false} ServedCovers(n: nat, k: nat, j: nat)
    requires 0 < k
    ensures Served(j, k, n) < n <==> j < Rounds(n, k)
  {
    if 0 < j && 0 < n {
      ServedCovers(n - Min(k, n), k, j - 1);
    }
  }

  /** The number of servings is n / k, rounded up. */
  lemma {:induction false} RoundsIsCeiling(n: nat, k: nat)
    requires 0 < k
    ensures var r := Rounds(n, k); n <= r * k < n + k
  {
    if 0 < n {
      var r := Rounds(n, k);
      RoundsIsCeiling(n - Min(k, n), k);
      assert r * k == (r - 1) * k + k;
    }
  }

  // ---------- a mailbox is such a queue ----------

  /** The letters an agent has waiting, in the order in which they will be handed out. */
  function Waiting(boxes: Boxes, a: string): seq<Letter> {
    QueuedOf(Fifo(BoxOf(boxes, a)))
  }

  function Poller(a: string, k: nat): (Boxes, nat) -> Boxes {
    (boxes: Boxes, now: nat) => Polled(boxes, a, k, now)
  }

  function PollAnswer(a: string, k: nat): (Boxes, nat) -> seq<Letter> {
    (boxes: Boxes, now: nat) => Drain(Fifo(BoxOf(boxes, a)), k, now).out
  }

  function Queue(a: string): Boxes -> seq<Letter> {
    (boxes: Boxes) => Waiting(boxes, a)
  }

  /** Letters as a poll shows them: delivered at the time of the poll. */
  function Shown(): (seq<Letter>, nat) -> seq<Letter> {
    (letters: seq<Letter>, now: nat) => Map(Deliver(now), letters)
  }

  /** The store after successive polls of one agent. */
  function AfterPolls(boxes: Boxes, a: string, k: nat, times: seq<nat>): Boxes {
    StateAfter(Poller(a, k), boxes, times)
  }

  /** The answers to successive polls of one agent. */
  function Batches(boxes: Boxes, a: string, k: nat, times: seq<nat>): (r: seq<seq<Letter>>)
    ensures |r| == |times|
  {
    Answers(Poller(a, k), PollAnswer(a, k), boxes, times)
  }

  lemma {:induction false} PollServes(boxes: Boxes, a: string, k: nat, now: nat)
    requires 0 < k
    ensures var w := Waiting(boxes, a); var c := Min(k, |w|);
            && Drain(Fifo(BoxOf(boxes, a)), k, now).out == Map(Deliver(now), w[..c])
            && Waiting(Polled(boxes, a, k, now), a) == w[c..]
  {
    var s := Fifo(BoxOf(boxes, a));
    DrainHandsOut(s, k, now);
    FifoSorts(BoxOf(boxes, a));
    DrainKeepsOrder(s, k, now);
    FifoOfSorted(Drain(s, k, now).box);
  }

  lemma {:induction false} PollsServeFront(a: string, k: nat)
    requires 0 < k
    ensures ServesFront(Poller(a, k), PollAnswer(a, k), Queue(a), Shown(), k)
  {
    forall boxes: Boxes, now: nat
      ensures var w := Queue(a)(boxes);
              && Queue(a)(Poller(a, k)(boxes, now)) == Rest(w, k)
              && PollAnswer(a, k)(boxes, now) == Shown()(Front(w, k), now)
    {
      PollServes(boxes, a, k, now);
    }
  }

  /** The j-th batch is the j-th slice of the waiting letters, delivered. */
  lemma {:induction false} BatchIsSlice(boxes: Boxes, a: string, k: nat, times: seq<nat>, j: nat)
    requires 0 < k && j < |times|
    ensures var w := Waiting(boxes, a); var from, to := Served(j, k, |w|), Served(j + 1, k, |w|);
            from <= to && Batches(boxes, a, k, times)[j] == Map(Deliver(times[j]), w[from..to])
  {
    PollsServeFront(a, k);
    ServingAnswers(Poller(a, k), PollAnswer(a, k), Queue(a), Shown(), k, boxes, times, j);
    FrontOfLeft(Queue(a)(boxes), k, j);
  }

  lemma {:induction false} StillWaiting(boxes: Boxes, a: string, k: nat, times: seq<nat>)
    requires 0 < k
    ensures var w := Waiting(boxes, a); Waiting(AfterPolls(boxes, a, k, times), a) == w[Served(|times|, k, |w|)..]
  {
    var w := Queue(a)(boxes);
    PollsServeFront(a, k);
    ServingLeaves(Poller(a, k), PollAnswer(a, k), Queue(a), Shown(), k, boxes, times);
    assert Queue(a)(AfterPolls(boxes, a, k, times)) == Left(w, k, |times|);
  }

  // ---------- the batches joined ----------

  function Joined<T>(batches: seq<seq<T>>): seq<T> {
    if batches == [] then [] else batches[0] + Joined(batches[1..])
  }

  lemma {:induction false} JoinedLast<T>(batches: seq<seq<T>>, last: seq<T>)
    ensures Joined(batches + [last]) == Joined(batches) + last
  {
    if batches == [] {
      assert batches + [last] == [last];
      assert Joined([last]) == last + Joined([last][1..]);
    } else {
      JoinedLast(batches[1..], last);
      assert (batches + [last])[1..] == batches[1..] + [last];
    }
  }

  function Ids(s: seq<Letter>): (r: seq<string>)
    ensures |r| == |s|
  {
    seq(|s|, i requires 0 <= i < |s| => s[i].id)
  }

  lemma {:induction false} IdsJoin(s: seq<Letter>, t: seq<Letter>)
    ensures Ids(s + t) == Ids(s) + Ids(t)
  {}

  lemma {:induction false} IdsDelivered(s: seq<Letter>, now: nat)
    ensures Ids(Map(Deliver(now), s)) == Ids(s)
  {
    forall i | 0 <= i < |s| ensures Deliver(now)(s[i]).id == s[i].id {
      OpKeepsEnvelope(Memory, s[i], OpDeliver, now);
    }
  }

  /** Batches that are consecutive slices of a sequence join into a prefix of it. */
  lemma {:induction false} SlicesJoin(w: seq<Letter>, bs: seq<seq<Letter>>, times: seq<nat>, k: nat)
    requires |bs| == |times|
    requires forall j :: 0 <= j < |bs| ==>
               Served(j, k, |w|) <= Served(j + 1, k, |w|)
               && bs[j] == Map(Deliver(times[j]), w[Served(j, k, |w|)..Served(j + 1, k, |w|)])
    ensures Ids(Joined(bs)) == Ids(w[..Served(|bs|, k, |w|)])
  {
    if bs != [] {
      var n := |bs| - 1;
      var x, y := Served(n, k, |w|), Served(n + 1, k, |w|);
      SlicesJoin(w, bs[..n], times[..n], k);
      assert bs == bs[..n] + [bs[n]];
      JoinedLast(bs[..n], bs[n]);
      IdsJoin(Joined(bs[..n]), bs[n]);
      IdsDelivered(w[x..y], times[n]);
      IdsJoin(w[..x], w[x..y]);
      assert w[..y] == w[..x] + w[x..y];
    }
  }

  /** The joined batches are the first letters waiting, by id and in order. */
  lemma {:induction false} BatchesJoin(boxes: Boxes, a: string, k: nat, times: seq<nat>)
    requires 0 < k
    ensures var w := Waiting(boxes, a);
            Ids(Joined(Batches(boxes, a, k, times))) == Ids(w[..Served(|times|, k, |w|)])
  {
    var w := Waiting(boxes, a);
    var bs := Batches(boxes, a, k, times);
    forall j | 0 <= j < |bs|
      ensures Served(j, k, |w|) <= Served(j + 1, k, |w|)
              && bs[j] == Map(Deliver(times[j]), w[Served(j, k, |w|)..Served(j + 1, k, |w|)])
    {
      BatchIsSlice(boxes, a, k, times, j);
    }
    SlicesJoin(w, bs, times, k);
  }

  // ---------- polling drains ----------

  lemma {:induction false} AllQueued(s: seq<Letter>)
    ensures forall m :: m in QueuedOf(s) <==> m in s && m.status == Queued
  {
    if s != [] {
      AllQueued(s[1..]);
      assert forall m :: m in s <==> m == s[0] || m in s[1..];
    }
  }

  lemma {:induction false} QueuedInOrder(s: seq<Letter>)
    requires StrictFifoOrder(s)
    ensures StrictFifoOrder(QueuedOf(s))
  {
    if s != [] {
      var rest := s[1..];
      QueuedInOrder(rest);
      AllQueued(rest);
      forall m | m in QueuedOf(rest) ensures FifoLt(s[0], m) {
        var k :| 0 <= k < |rest| && rest[k] == m;
        assert s[k + 1] == m;
      }
    }
  }

  /** What waits is exactly what is queued, in FIFO order. */
  lemma {:induction false} WaitingIsQueued(boxes: Boxes, a: string)
    requires WellFormed(boxes)
    ensures StrictFifoOrder(Waiting(boxes, a))
    ensures forall m :: m in Waiting(boxes, a) <==> m in BoxOf(boxes, a) && m.status == Queued
  {
    var s := Fifo(BoxOf(boxes, a));
    BoxDistinct(boxes, a);
    FifoSorts(BoxOf(boxes, a));
    FifoStrict(BoxOf(boxes, a));
    AllQueued(s);
    QueuedInOrder(s);
  }

  lemma {:induction false} NonEmptyBatches(boxes: Boxes, a: string, k: nat, times: seq<nat>, j: nat)
    requires 0 < k && j < |times|
    ensures Batches(boxes, a, k, times)[j] != [] <==> j < Rounds(|Waiting(boxes, a)|, k)
  {
    var n := |Waiting(boxes, a)|;
    BatchIsSlice(boxes, a, k, times, j);
    ServedGrows(j, k, n);
    ServedCovers(n, k, j);
  }

  /** Polling drains a mailbox: the first ceil(q / k) batches are the non-empty ones, and once
      there were that many, every waiting letter has been handed out exactly once, in FIFO
      order, and none waits. */
  lemma {:induction false} PollingDrains(boxes: Boxes, a: string, k: nat, times: seq<nat>)
    requires 0 < k
    ensures var w := Waiting(boxes, a); var rounds := Rounds(|w|, k);
            && |w| <= rounds * k < |w| + k
            && (forall j :: 0 <= j < |times| ==> (Batches(boxes, a, k, times)[j] != [] <==> j < rounds))
            && (rounds <= |times| ==>
                  Ids(Joined(Batches(boxes, a, k, times))) == Ids(w) && Waiting(AfterPolls(boxes, a, k, times), a) == [])
  {
    var w := Waiting(boxes, a);
    forall j | 0 <= j < |times| ensures Batches(boxes, a, k, times)[j] != [] <==> j < Rounds(|w|, k) {
      NonEmptyBatches(boxes, a, k, times, j);
    }
    RoundsIsCeiling(|w|, k);
    if Rounds(|w|, k) <= |times| {
      BatchesJoin(boxes, a, k, times);
      StillWaiting(boxes, a, k, times);
      ServedCovers(|w|, k, |times|);
      assert w[..|w|] == w;
    }
  }

  /** Polls of one agent leave every other mailbox alone, and in its own every letter that was
      not waiting. */
  lemma {:induction false} PollsTouchNothingElse(boxes: Boxes, a: string, k: nat, times: seq<nat>)
    ensures AfterPolls(boxes, a, k, times).Keys == boxes.Keys
    ensures forall b :: b in boxes && b != a ==> AfterPolls(boxes, a, k, times)[b] == boxes[b]
    ensures forall m :: m in BoxOf(boxes, a) && m.status != Queued ==> m in BoxOf(AfterPolls(boxes, a, k, times), a)
    decreases |times|
  {
    if times != [] {
      var next := Polled(boxes, a, k, times[0]);
      forall m | m in BoxOf(boxes, a) && m.status != Queued ensures m in BoxOf(next, a) {
        var s := Fifo(boxes[a]);
        FifoSorts(boxes[a]);
        var i :| 0 <= i < |s| && s[i] == m;
        DrainChanges(s, k, times[0], i);
        assert next[a][i] == m;
      }
      PollsTouchNothingElse(next, a, k, times[1..]);
    }
  }

  // ---------- the bus's limit ----------

  const USIZE_MAX: nat := 0xFFFF_FFFF_FFFF_FFFF

  /** A caller's limit of zero means no limit. */
  function BusLimit(limit: nat): nat { if limit == 0 then USIZE_MAX else limit }

  /** With a limit of zero the bus hands out everything that waits in one batch, where the
      store itself would hand out a single letter. */
  lemma {:induction false} ZeroMeansAll(boxes: Boxes, a: string, now: nat)
    requires |BoxOf(boxes, a)| <= USIZE_MAX
    ensures var w := Waiting(boxes, a);
            && Ids(Drain(Fifo(BoxOf(boxes, a)), BusLimit(0), now).out) == Ids(w)
            && Waiting(Polled(boxes, a, BusLimit(0), now), a) == []
            && Ids(Drain(Fifo(BoxOf(boxes, a)), 0, now).out) == Ids(w[..Min(1, |w|)])
  {
    var w := Waiting(boxes, a);
    var s := Fifo(BoxOf(boxes, a));
    PollServes(boxes, a, USIZE_MAX, now);
    QueuedFewer(s);
    assert w[..|w|] == w;
    IdsDelivered(w, now);
    DrainHandsOut(s, 0, now);
    IdsDelivered(w[..Min(1, |w|)], now);
  }

  lemma {:induction false} QueuedFewer(s: seq<Letter>)
    ensures |QueuedOf(s)| <= |s|
  {
    if s != [] {
      QueuedFewer(s[1..]);
    }
  }

  /** Any other limit is the store's limit: the first that many of the waiting letters. */
  lemma {:induction false} OtherLimitsHold(boxes: Boxes, a: string, limit: nat, now: nat)
    requires 0 < limit
    ensures var w := Waiting(boxes, a); var out := Drain(Fifo(BoxOf(boxes, a)), BusLimit(limit), now).out;
            |out| == Min(limit, |w|) && Ids(out) == Ids(w[..Min(limit, |w|)])
  {
    var w := Waiting(boxes, a);
    PollServes(boxes, a, limit, now);
    IdsDelivered(w[..Min(limit, |w|)], now);
  }
}
