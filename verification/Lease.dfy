/** When can two pushes of one letter overlap? The push protocol of one letter, over time:
    dispatchers that claim, push and report or die, others that push a letter they have seen
    queued and claim it afterwards or never, sweepers that reclaim stale claims from a snapshot,
    and everybody else who may touch the letter. Every store method is one step. The answer is
    exact: two live pushes never overlap precisely when the configuration is `Sound`. */
module Lease {
  import opened Basics
  import opened Lifecycle
  import opened Dispatch
  import opened Mailbox
  import opened MemoryStore
  import opened Histories
  import opened Likeness
  import Ledger

  /** Who takes part. Times are in nanoseconds: a live dispatcher reports within `deadline` of
      its claim, and a sweeper reads the clock within `gap` of its snapshot. `arrivals` push a
      letter that they saw queued and report without a claim; `repushes` push it so and claim
      before they report. `strays` report failures for pushes they never made; `kills` and
      `revives` come from operators. */
  datatype Config = Config(deadline: nat, gap: nat, sweepers: nat, arrivals: bool, repushes: bool,
                           strays: bool, kills: bool, revives: bool)

  datatype Sweeper = Idle | Snapped(copy: Letter, at: nat) | Doomed

  /** `holders` are the claim times of the dispatchers that claimed first and are still pushing.
      Of those that push first, `peeked` have seen the letter queued, `early` are pushing it,
      and `late` have pushed it, claimed it and not yet reported. */
  datatype State = State(letter: Letter, clock: nat, holders: seq<nat>, peeked: nat, early: nat, late: nat,
                         sweepers: seq<Sweeper>)

  datatype Step =
    | Tick(to: nat)
    | Claim
    | Report(i: nat, outcome: PushOutcome)
    | Die(i: nat)
    | Peek
    | Begin
    | EndUnclaimed(outcome: PushOutcome)
    | EndThenClaim
    | ReportLate(outcome: PushOutcome)
    | DieEarly
    | Act(op: LetterOp)
    | Snapshot(i: nat)
    | ReadClock(i: nat)
    | Reclaim(i: nat, reason: string)
    | Abandon(i: nat)

  // ---------- the protocol ----------

  function Start(cfg: Config, m: Letter, clock: nat): State {
    State(m, clock, [], 0, 0, 0, seq(cfg.sweepers, _ => Idle))
  }

  /** What parties without a claim may do to the letter. */
  predicate Allowed(cfg: Config, op: LetterOp) {
    match op
    case OpClaim => false
    case OpPushFailed(_) => cfg.strays
    case OpReclaim(_) => cfg.strays
    case OpKill(_) => cfg.kills
    case OpRevive => cfg.revives
    case _ => true
  }

  predicate Enabled(cfg: Config, s: State, step: Step) {
    match step
    case Tick(to) =>
      && s.clock <= to
      && (forall i :: 0 <= i < |s.holders| ==> to <= s.holders[i] + cfg.deadline)
      && (forall i :: 0 <= i < |s.sweepers| && s.sweepers[i].Snapped? ==> to <= s.sweepers[i].at + cfg.gap)
    case Claim => true
    case Report(i, _) => i < |s.holders|
    case Die(i) => i < |s.holders|
    case Peek => (cfg.arrivals || cfg.repushes) && s.letter.status == Queued
    case Begin => 0 < s.peeked
    case EndUnclaimed(_) => cfg.arrivals && 0 < s.early
    case EndThenClaim => cfg.repushes && 0 < s.early
    case ReportLate(_) => 0 < s.late
    case DieEarly => 0 < s.early
    case Act(op) => Allowed(cfg, op)
    case Snapshot(i) => i < |s.sweepers|
    case ReadClock(i) => i < |s.sweepers| && s.sweepers[i].Snapped?
    case Reclaim(i, _) => i < |s.sweepers| && s.sweepers[i].Doomed?
    case Abandon(i) => i < |s.sweepers|
  }

  function Applied(s: State, op: LetterOp): State {
    s.(letter := BackendOp(Memory, s.letter, op, s.clock))
  }

  function Next(cfg: Config, s: State, step: Step): State
    requires Enabled(cfg, s, step)
  {
    match step
    case Tick(to) => s.(clock := to)
    case Claim => if s.letter.status == Queued then Applied(s, OpClaim).(holders := s.holders + [s.clock]) else s
    case Report(i, outcome) => Applied(s, ReportOp(outcome)).(holders := Without(s.holders, i))
    case Die(i) => s.(holders := Without(s.holders, i))
    case Peek => s.(peeked := s.peeked + 1)
    case Begin => s.(peeked := s.peeked - 1, early := s.early + 1)
    case EndUnclaimed(outcome) => Applied(s, ReportOp(outcome)).(early := s.early - 1)
    case EndThenClaim =>
      var ended := s.(early := s.early - 1);
      if s.letter.status == Queued then Applied(ended, OpClaim).(late := s.late + 1) else ended
    case ReportLate(outcome) => Applied(s, ReportOp(outcome)).(late := s.late - 1)
    case DieEarly => s.(early := s.early - 1)
    case Act(op) => Applied(s, op)
    case Snapshot(i) => s.(sweepers := s.sweepers[i := Snapped(s.letter, s.clock)])
    case ReadClock(i) => s.(sweepers := s.sweepers[i := if Stale(s.sweepers[i].copy, s.clock) then Doomed else Idle])
    case Reclaim(i, reason) => Applied(s, OpReclaim(reason)).(sweepers := s.sweepers[i := Idle])
    case Abandon(i) => s.(sweepers := s.sweepers[i := Idle])
  }

  /** The protocol does to its letter what the store does: an operation that reaches the letter
      has the effect of `Applied`, and a claim is won exactly when the letter is queued. */
  lemma {:induction false} StoreActs(boxes: Boxes, s: State, op: LetterOp)
    requires WellFormed(boxes) && LetterOf(boxes, s.letter.id) == Some(s.letter)
    ensures var m := s.letter;
            && LetterOf(Touched(boxes, m.receiver, m.id, op, s.clock), m.id) == Some(Applied(s, op).letter)
            && (ClaimReply(BoxOf(boxes, m.receiver), m.id) == Ok(true) <==> m.status == Queued)
  {
    HomeOf(boxes, s.letter.id);
    TouchStep(boxes, s.letter.receiver, s.letter.id, op, s.clock, s.letter);
    Ledger.WonMeansQueued(boxes, s.letter.receiver, s.letter.id);
  }

  predicate Legal(cfg: Config, s: State, run: seq<Step>)
    decreases |run|
  {
    run != [] ==> Enabled(cfg, s, run[0]) && Legal(cfg, Next(cfg, s, run[0]), run[1..])
  }

  function After(cfg: Config, s: State, run: seq<Step>): State
    requires Legal(cfg, s, run)
    decreases |run|
  {
    if run == [] then s else After(cfg, Next(cfg, s, run[0]), run[1..])
  }

  /** At most one dispatcher is pushing the letter, with a claim or without. */
  predicate Exclusive(s: State) { |s.holders| + s.early <= 1 }

  ghost predicate AlwaysExclusive(cfg: Config, m: Letter, clock: nat) {
    forall run :: Legal(cfg, Start(cfg, m, clock), run) ==> Exclusive(After(cfg, Start(cfg, m, clock), run))
  }

  predicate Sound(cfg: Config) {
    && !cfg.arrivals && !cfg.repushes
    && !cfg.strays
    && !(cfg.kills && cfg.revives)
    && (cfg.sweepers == 0 || (cfg.sweepers == 1 && cfg.deadline + cfg.gap < 151_000_000_000))
  }

  // ---------- safety ----------

  /** The letter cannot be claimed, and nobody who lives is pushing it. */
  predicate Orphan(s: State) {
    s.holders == [] && s.letter.status != Queued
  }

  /** What a sweeper knows of a letter it saw in flight: its claim was young enough to be out
      still, or it had been left behind for good. */
  predicate Informed(cfg: Config, s: State, sweeper: Sweeper) {
    match sweeper
    case Idle => true
    case Doomed => Orphan(s)
    case Snapped(copy, at) =>
      && at <= s.clock <= at + cfg.gap
      && (copy.status == Pushing ==>
            copy.lastPushAt.Some? && (at <= copy.lastPushAt.value + cfg.deadline || Orphan(s)))
  }

  predicate Inv(cfg: Config, s: State) {
    && |s.holders| <= 1 && s.peeked == s.early == s.late == 0
    && |s.sweepers| == cfg.sweepers
    && (s.holders != [] ==> s.letter.status != Queued && s.holders[0] <= s.clock <= s.holders[0] + cfg.deadline)
    && (s.letter.status == Pushing ==> s.letter.lastPushAt.Some?)
    && (s.letter.status == Pushing && s.holders != [] ==> s.letter.lastPushAt == Some(s.holders[0]))
    && (!cfg.kills && s.letter.status == Dead ==> !DiedOnAuth(s.letter))
    && (forall i :: 0 <= i < |s.sweepers| ==> Informed(cfg, s, s.sweepers[i]))
  }

  /** Without a claim nothing brings the letter back to Queued or takes it in flight. */
  lemma {:induction false} ActKeeps(cfg: Config, m: Letter, op: LetterOp, now: nat)
    requires Sound(cfg) && Allowed(cfg, op) && (!cfg.kills && m.status == Dead ==> !DiedOnAuth(m))
    ensures var n := BackendOp(Memory, m, op, now);
            && (n.status == Queued ==> m.status == Queued)
            && (n.status == Pushing ==> m.status == Pushing && n.lastPushAt == m.lastPushAt)
            && (!cfg.kills && n.status == Dead ==> !DiedOnAuth(n))
  {
    if m.status == Dead {
      ActOnDead(cfg, m, op, now);
    } else if HandedOver(m.status) {
      FireKeepsHandedOver(EarlyWrites(m, EventFor(m, op)), EventFor(m, op), now);
    } else {
      ActOnWaiting(cfg, m, op, now);
    }
  }

  lemma {:induction false} ActOnDead(cfg: Config, m: Letter, op: LetterOp, now: nat)
    requires Sound(cfg) && Allowed(cfg, op) && m.status == Dead && (!cfg.kills ==> !DiedOnAuth(m))
    ensures var n := BackendOp(Memory, m, op, now);
            n.status == Dead && (!cfg.kills ==> !DiedOnAuth(n))
  {
    if !op.OpRevive? {
      DeadIgnores(m, op, now);
    }
  }

  lemma {:induction false} ActOnWaiting(cfg: Config, m: Letter, op: LetterOp, now: nat)
    requires Sound(cfg) && Allowed(cfg, op) && (m.status == Queued || m.status == Pushing)
    ensures var n := BackendOp(Memory, m, op, now);
            && (n.status == Queued ==> m.status == Queued)
            && (n.status == Pushing ==> m.status == Pushing && n.lastPushAt == m.lastPushAt)
            && (n.status == Dead ==> cfg.kills)
  {
    match m.status
    case Queued =>
    case Pushing =>
  }

  /** A report ends a push; it never puts a letter in flight, and never kills on a credential
      problem. */
  lemma {:induction false} ReportKeeps(m: Letter, outcome: PushOutcome, now: nat)
    ensures var n := BackendOp(Memory, m, ReportOp(outcome), now);
            && n.status != Pushing
            && (n.status == Dead && !(m.status == Dead && DiedOnAuth(m)) ==> !DiedOnAuth(n))
  {
    var e := EventFor(m, ReportOp(outcome));
    if m.status == Dead {
      DeadIgnores(m, ReportOp(outcome), now);
    } else if HandedOver(m.status) {
      FireKeepsHandedOver(EarlyWrites(m, e), e, now);
    }
  }

  lemma {:induction false} ReclaimKeeps(m: Letter, reason: string, now: nat)
    ensures var n := BackendOp(Memory, m, OpReclaim(reason), now);
            n.status == if m.status == Pushing then Queued else m.status
    ensures m.status == Dead ==> BackendOp(Memory, m, OpReclaim(reason), now).deadReason == m.deadReason
  {}

  lemma {:induction false} InvStart(cfg: Config, m: Letter, clock: nat)
    requires IsNew(m)
    ensures Inv(cfg, Start(cfg, m, clock))
  {}

  lemma {:induction false} InvWhenActing(cfg: Config, s: State, op: LetterOp)
    requires Sound(cfg) && Inv(cfg, s) && Allowed(cfg, op)
    ensures Inv(cfg, Applied(s, op))
  {
    ActKeeps(cfg, s.letter, op, s.clock);
  }

  lemma {:induction false} InvWhenReporting(cfg: Config, s: State, i: nat, outcome: PushOutcome)
    requires Sound(cfg) && Inv(cfg, s) && i < |s.holders|
    ensures Inv(cfg, Next(cfg, s, Report(i, outcome)))
  {
    ReportKeeps(s.letter, outcome, s.clock);
  }

  lemma {:induction false} InvWhenReclaiming(cfg: Config, s: State, i: nat, reason: string)
    requires Sound(cfg) && Inv(cfg, s) && Enabled(cfg, s, Reclaim(i, reason))
    ensures Inv(cfg, Next(cfg, s, Reclaim(i, reason)))
  {
    ReclaimKeeps(s.letter, reason, s.clock);
  }

  lemma {:induction false} InvWhenLooking(cfg: Config, s: State, i: nat)
    requires Sound(cfg) && Inv(cfg, s) && Enabled(cfg, s, ReadClock(i))
    ensures Inv(cfg, Next(cfg, s, ReadClock(i)))
  {
    assert Informed(cfg, s, s.sweepers[i]);
    if s.sweepers[i].copy.status == Pushing {
      StaleIs(s.sweepers[i].copy, s.clock);
    }
  }

  lemma {:induction false} InvStep(cfg: Config, s: State, step: Step)
    requires Sound(cfg) && Inv(cfg, s) && Enabled(cfg, s, step)
    ensures Inv(cfg, Next(cfg, s, step))
  {
    match step
    case Report(i, outcome) => InvWhenReporting(cfg, s, i, outcome);
    case Act(op) => InvWhenActing(cfg, s, op);
    case ReadClock(i) => InvWhenLooking(cfg, s, i);
    case Reclaim(i, reason) => InvWhenReclaiming(cfg, s, i, reason);
    case _ =>
  }

  lemma {:induction false} InvAlways(cfg: Config, s: State, run: seq<Step>)
    requires Sound(cfg) && Inv(cfg, s) && Legal(cfg, s, run)
    ensures Inv(cfg, After(cfg, s, run))
    decreases |run|
  {
    if run != [] {
      InvStep(cfg, s, run[0]);
      InvAlways(cfg, Next(cfg, s, run[0]), run[1..]);
    }
  }

  /** In a sound configuration, a sweeper that is about to reclaim takes the claim of a holder
      that died, or nothing. */
  lemma {:induction false} ReclaimTakesOnlyOrphans(cfg: Config, m: Letter, clock: nat, run: seq<Step>, i: nat, reason: string)
    requires Sound(cfg) && IsNew(m) && Legal(cfg, Start(cfg, m, clock), run)
    requires Enabled(cfg, After(cfg, Start(cfg, m, clock), run), Reclaim(i, reason))
    ensures After(cfg, Start(cfg, m, clock), run).holders == []
  {
    InvStart(cfg, m, clock);
    InvAlways(cfg, Start(cfg, m, clock), run);
  }

  // ---------- what goes wrong otherwise ----------

  lemma {:induction false} OneMore(cfg: Config, s: State, run: seq<Step>, step: Step)
    requires Legal(cfg, s, run) && Enabled(cfg, After(cfg, s, run), step)
    ensures Legal(cfg, s, run + [step])
    ensures After(cfg, s, run + [step]) == Next(cfg, After(cfg, s, run), step)
    decreases |run|
  {
    if run == [] {
      assert run + [step] == [step];
      assert Legal(cfg, Next(cfg, s, step), []);
      assert [step][1..] == [];
    } else {
      OneMore(cfg, Next(cfg, s, run[0]), run[1..], step);
      assert (run + [step])[1..] == run[1..] + [step];
    }
  }

  /** A run that has come from the start to a certain state. */
  ghost predicate Reaches(cfg: Config, from: State, run: seq<Step>, to: State) {
    Legal(cfg, from, run) && After(cfg, from, run) == to
  }

  lemma {:induction false} Then(cfg: Config, from: State, run: seq<Step>, at: State, step: Step) returns (run': seq<Step>, to: State)
    requires Reaches(cfg, from, run, at) && Enabled(cfg, at, step)
    ensures to == Next(cfg, at, step) && Reaches(cfg, from, run', to)
  {
    OneMore(cfg, from, run, step);
    run', to := run + [step], Next(cfg, at, step);
  }

  /** The first claim of a new letter. */
  lemma {:induction false} FirstClaim(cfg: Config, m: Letter, clock: nat) returns (run: seq<Step>, s: State)
    requires IsNew(m)
    ensures Reaches(cfg, Start(cfg, m, clock), run, s)
    ensures s.letter.status == Pushing && s.letter.lastPushAt == Some(clock) && s.letter.attempts == 1
    ensures s.clock == clock && s.holders == [clock] && s.sweepers == Start(cfg, m, clock).sweepers
    ensures s.peeked == s.early == s.late == 0
  {
    run, s := Then(cfg, Start(cfg, m, clock), [], Start(cfg, m, clock), Claim);
  }

  /** Once a letter is queued while someone is pushing it, the next claim overlaps. */
  lemma {:induction false} ClaimAgain(cfg: Config, m: Letter, clock: nat, run: seq<Step>, s: State)
    requires Reaches(cfg, Start(cfg, m, clock), run, s) && s.letter.status == Queued && s.holders != []
    ensures !AlwaysExclusive(cfg, m, clock)
  {
    var run', s' := Then(cfg, Start(cfg, m, clock), run, s, Claim);
    assert !Exclusive(s');
  }

  /** A sweeper that has made up its mind takes whatever claim comes next. */
  lemma {:induction false} ClaimBeforeReclaim(cfg: Config, m: Letter, clock: nat, run: seq<Step>, s: State, i: nat)
    requires Reaches(cfg, Start(cfg, m, clock), run, s) && s.letter.status == Queued
    requires i < |s.sweepers| && s.sweepers[i] == Doomed
    ensures !AlwaysExclusive(cfg, m, clock)
  {
    var run, s := Then(cfg, Start(cfg, m, clock), run, s, Claim);
    assert s.letter.status == Pushing && s.holders != [] && s.sweepers[i] == Doomed;
    ReclaimKeeps(s.letter, "", s.clock);
    run, s := Then(cfg, Start(cfg, m, clock), run, s, Reclaim(i, ""));
    assert s.letter.status == Queued && s.holders != [];
    ClaimAgain(cfg, m, clock, run, s);
  }

  /** Whoever has seen the letter queued pushes it, claimed by somebody else in the meantime or
      not. */
  lemma {:induction false} PushFirst(cfg: Config, m: Letter, clock: nat)
    requires IsNew(m) && (cfg.arrivals || cfg.repushes)
    ensures !AlwaysExclusive(cfg, m, clock)
  {
    var s0 := Start(cfg, m, clock);
    var run, s := Then(cfg, s0, [], s0, Peek);
    run, s := Then(cfg, s0, run, s, Claim);
    run, s := Then(cfg, s0, run, s, Begin);
    assert !Exclusive(s);
  }

  /** Somebody has seen a new letter queued and is pushing it. */
  lemma {:induction false} PushBegins(cfg: Config, m: Letter, clock: nat) returns (run: seq<Step>, s: State)
    requires IsNew(m) && (cfg.arrivals || cfg.repushes)
    ensures run == [Peek, Begin] && Reaches(cfg, Start(cfg, m, clock), run, s) && s == Start(cfg, m, clock).(early := 1)
  {
    var s0 := Start(cfg, m, clock);
    run, s := Then(cfg, s0, [], s0, Peek);
    run, s := Then(cfg, s0, run, s, Begin);
    run := [Peek, Begin];
  }

  /** What the report of a push without a claim comes to: success delivers the letter exactly if
      somebody else has claimed it, and is forgotten otherwise; anything else takes that claim away
      or leaves the letter waiting, with a note, unless the attempts have been used up. */
  lemma {:induction false} UnclaimedReport(cfg: Config, s: State, outcome: PushOutcome)
    requires Enabled(cfg, s, EndUnclaimed(outcome))
    ensures var m, n := s.letter, Next(cfg, s, EndUnclaimed(outcome)).letter;
            match outcome
            case Pushed => n == if m.status == Pushing then m.(status := Delivered, deliveredAt := Some(s.clock)) else m
            case Failed(e) =>
              n == if m.attempts >= 8 && !IsAuth(e)
                   then m.(status := if m.status == Queued || m.status == Pushing then Dead else m.status, deadReason := Some(e))
                   else m.(status := if m.status == Pushing then Queued else m.status, lastError := Some(e))
            case Skipped(e) => n == m.(status := if m.status == Pushing then Queued else m.status, lastError := Some(e))
  {
    match outcome
    case Pushed => PushOkDoes(Memory, s.letter, s.clock);
    case Failed(e) => FailDoesInMemory(s.letter, e, s.clock);
    case Skipped(e) => ReclaimDoes(Memory, s.letter, e, s.clock);
  }

  /** A push on arrival that succeeds, alone with its letter, leaves it as if it had never been
      pushed: queued, to be pushed again. */
  lemma {:induction false} ArrivalIsForgotten(cfg: Config, m: Letter, clock: nat)
    requires IsNew(m) && cfg.arrivals
    ensures Reaches(cfg, Start(cfg, m, clock), [Peek, Begin, EndUnclaimed(Pushed)], Start(cfg, m, clock))
  {
    var s0 := Start(cfg, m, clock);
    var run, s := PushBegins(cfg, m, clock);
    UnclaimedReport(cfg, s, Pushed);
    OneMore(cfg, s0, run, EndUnclaimed(Pushed));
    assert run + [EndUnclaimed(Pushed)] == [Peek, Begin, EndUnclaimed(Pushed)];
  }

  /** A push on arrival that fails gives away the claim of whoever is pushing the letter meanwhile. */
  lemma {:induction false} ArrivalGivesAway(cfg: Config, m: Letter, clock: nat) returns (run: seq<Step>, s: State)
    requires IsNew(m) && cfg.arrivals
    ensures Reaches(cfg, Start(cfg, m, clock), run, s) && s.letter.status == Queued && s.letter.attempts == 1 && s.holders == [clock]
  {
    run, s := PushBegins(cfg, m, clock);
    run, s := Then(cfg, Start(cfg, m, clock), run, s, Claim);
    ClaimDoes(Memory, m, clock);
    UnclaimedReport(cfg, s, Failed(""));
    run, s := Then(cfg, Start(cfg, m, clock), run, s, EndUnclaimed(Failed("")));
  }

  /** A re-push that claims after it has pushed counts as one attempt, and delivers the letter if
      nobody else has claimed it. */
  lemma {:induction false} RepushReports(cfg: Config, m: Letter, clock: nat) returns (run: seq<Step>, s: State)
    requires IsNew(m) && cfg.repushes
    ensures Reaches(cfg, Start(cfg, m, clock), run, s)
    ensures s.letter.status == Delivered && s.letter.attempts == 1 && s.holders == [] && s.early == s.late == 0
  {
    run, s := PushBegins(cfg, m, clock);
    run, s := Then(cfg, Start(cfg, m, clock), run, s, EndThenClaim);
    ClaimDoes(Memory, m, clock);
    PushOkDoes(Memory, s.letter, clock);
    run, s := Then(cfg, Start(cfg, m, clock), run, s, ReportLate(Pushed));
  }

  /** A report just before the deadline, and a clock read just within the gap: the sweeper
      takes the claim of the next dispatcher. */
  lemma {:induction false} SlowSweeper(cfg: Config, m: Letter, clock: nat)
    requires IsNew(m) && 1 <= cfg.sweepers && STALE_NANOS <= cfg.deadline + cfg.gap
    ensures !AlwaysExclusive(cfg, m, clock)
  {
    var s0 := Start(cfg, m, clock);
    var run, s := SeenAndGivenBack(cfg, m, clock);
    run, s := Then(cfg, s0, run, s, Tick(clock + STALE_NANOS));
    run, s := Then(cfg, s0, run, s, ReadClock(0));
    ClaimBeforeReclaim(cfg, m, clock, run, s, 0);
  }

  /** The sweeper takes its snapshot of a claimed letter just before the deadline, and then the
      dispatcher reports a failure. */
  lemma {:induction false} SeenAndGivenBack(cfg: Config, m: Letter, clock: nat) returns (run: seq<Step>, s: State)
    requires IsNew(m) && 1 <= cfg.sweepers
    ensures Reaches(cfg, Start(cfg, m, clock), run, s) && s.letter.status == Queued && s.holders == []
    ensures |s.sweepers| == cfg.sweepers && s.clock == clock + Min(cfg.deadline, STALE_NANOS)
    ensures s.sweepers[0].Snapped? && s.sweepers[0].at == s.clock && Stale(s.sweepers[0].copy, clock + STALE_NANOS)
    ensures forall i :: 0 < i < |s.sweepers| ==> !s.sweepers[i].Snapped?
  {
    var s0 := Start(cfg, m, clock);
    run, s := FirstClaim(cfg, m, clock);
    StaleIs(s.letter, clock + STALE_NANOS);
    run, s := Then(cfg, s0, run, s, Tick(clock + Min(cfg.deadline, STALE_NANOS)));
    run, s := Then(cfg, s0, run, s, Snapshot(0));
    run, s := Then(cfg, s0, run, s, Report(0, Failed("")));
  }

  /** A sweeper that finds an old claim makes up its mind to reclaim it. */
  lemma {:induction false} Condemn(cfg: Config, from: State, run: seq<Step>, s: State, i: nat) returns (run': seq<Step>, s': State)
    requires Reaches(cfg, from, run, s) && i < |s.sweepers|
    requires s.letter.status == Pushing && s.letter.lastPushAt.Some? && s.letter.lastPushAt.value + STALE_NANOS <= s.clock
    ensures Reaches(cfg, from, run', s') && s' == s.(sweepers := s.sweepers[i := Doomed])
  {
    StaleIs(s.letter, s.clock);
    run', s' := Then(cfg, from, run, s, Snapshot(i));
    run', s' := Then(cfg, from, run', s', ReadClock(i));
  }

  /** Two sweepers condemn the same dead claim; the slower one takes a live claim instead. */
  lemma {:induction false} TwoSweepers(cfg: Config, m: Letter, clock: nat)
    requires IsNew(m) && 2 <= cfg.sweepers
    ensures !AlwaysExclusive(cfg, m, clock)
  {
    var s0 := Start(cfg, m, clock);
    var run, s := FirstClaim(cfg, m, clock);
    run, s := Then(cfg, s0, run, s, Die(0));
    run, s := Then(cfg, s0, run, s, Tick(clock + STALE_NANOS));
    run, s := Condemn(cfg, s0, run, s, 0);
    run, s := Condemn(cfg, s0, run, s, 1);
    ReclaimKeeps(s.letter, "", s.clock);
    run, s := Then(cfg, s0, run, s, Reclaim(0, ""));
    ClaimBeforeReclaim(cfg, m, clock, run, s, 1);
  }

  /** A failure reported by someone who never claimed gives a live claim away. */
  lemma {:induction false} StrayFailure(cfg: Config, m: Letter, clock: nat)
    requires IsNew(m) && cfg.strays
    ensures !AlwaysExclusive(cfg, m, clock)
  {
    var run, s := FirstClaim(cfg, m, clock);
    run, s := Then(cfg, Start(cfg, m, clock), run, s, Act(OpPushFailed("")));
    ClaimAgain(cfg, m, clock, run, s);
  }

  lemma {:induction false} KillThenRevive(m: Letter, now: nat)
    requires m.status == Pushing
    ensures BackendOp(Memory, BackendOp(Memory, m, OpKill("401"), now), OpRevive, now).status == Queued
  {
    KillWorks(m, now);
    ReviveWorks(BackendOp(Memory, m, OpKill("401"), now), now);
  }

  lemma {:induction false} KillWorks(m: Letter, now: nat)
    requires m.status == Pushing
    ensures var n := BackendOp(Memory, m, OpKill("401"), now); n.status == Dead && n.deadReason == Some("401")
  {}

  lemma {:induction false} ReviveWorks(m: Letter, now: nat)
    requires m.status == Dead && m.deadReason == Some("401")
    ensures BackendOp(Memory, m, OpRevive, now).status == Queued
  {
    assert IsAuth("401");
  }

  /** Killing a letter in flight with an auth reason and reviving it does the same. */
  lemma {:induction false} KilledAndRevived(cfg: Config, m: Letter, clock: nat)
    requires IsNew(m) && cfg.kills && cfg.revives
    ensures !AlwaysExclusive(cfg, m, clock)
  {
    var run, s := FirstClaim(cfg, m, clock);
    KillThenRevive(s.letter, clock);
    run, s := Then(cfg, Start(cfg, m, clock), run, s, Act(OpKill("401")));
    run, s := Then(cfg, Start(cfg, m, clock), run, s, Act(OpRevive));
    ClaimAgain(cfg, m, clock, run, s);
  }

  /** Two live pushes of one letter never overlap, whatever the interleaving, exactly when
      everybody claims before pushing, nobody reports failures without a claim, nobody both
      kills and revives, and there is at most one sweeper, which takes its snapshot and its
      clock so close together that a live claim cannot look 151 seconds old. */
  lemma {:induction false} LeaseIsExact(cfg: Config, m: Letter, clock: nat)
    requires IsNew(m)
    ensures AlwaysExclusive(cfg, m, clock) <==> Sound(cfg)
  {
    if Sound(cfg) {
      InvStart(cfg, m, clock);
      forall run | Legal(cfg, Start(cfg, m, clock), run) ensures Exclusive(After(cfg, Start(cfg, m, clock), run)) {
        InvAlways(cfg, Start(cfg, m, clock), run);
      }
    } else if cfg.arrivals || cfg.repushes {
      PushFirst(cfg, m, clock);
    } else if cfg.strays {
      StrayFailure(cfg, m, clock);
    } else if cfg.kills && cfg.revives {
      KilledAndRevived(cfg, m, clock);
    } else if cfg.sweepers == 1 {
      SlowSweeper(cfg, m, clock);
    } else {
      TwoSweepers(cfg, m, clock);
    }
  }
}
