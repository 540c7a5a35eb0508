/** Handing letters over: what a dispatcher learns and reports, and when its claim counts as
    abandoned. */
module Dispatch {
  import opened Lifecycle

  datatype PushOutcome = Pushed | Failed(error: string) | Skipped(reason: string)

  /** A skipped push only gives the claim back. */
  function ReportOp(outcome: PushOutcome): LetterOp {
    match outcome
    case Pushed => OpPushOk
    case Failed(error) => OpPushFailed(error)
    case Skipped(reason) => OpReclaim(reason)
  }

  /** When the letter was last claimed, or else when it was created. */
  function Since(m: Letter): nat {
    if m.lastPushAt.Some? then m.lastPushAt.value else m.createdAt
  }

  /** A listing shows the letter in flight since more than 150 whole seconds. */
  predicate Stale(m: Letter, now: nat) {
    m.status == Pushing && Since(m) <= now && (now - Since(m)) / NANOS_PER_SEC > PUSHING_TIMEOUT_SECS
  }

  /** One second past the timeout, since the age of a claim is compared in whole seconds. */
  const STALE_NANOS: nat := (PUSHING_TIMEOUT_SECS + 1) * NANOS_PER_SEC

  lemma {:induction false} StaleIs(m: Letter, now: nat)
    requires m.status == Pushing
    ensures Stale(m, now) <==> Since(m) + STALE_NANOS <= now
  {}

  /** The same with the numbers written out: a letter in flight is stale 151 seconds after its
      last claim, or after its creation if it was never claimed. */
  lemma {:induction false} StaleAfter(m: Letter, now: nat)
    ensures Stale(m, now) <==>
            m.status == Pushing
            && (if m.lastPushAt.Some? then m.lastPushAt.value else m.createdAt) + 151_000_000_000 <= now
  {}
}
