/** Pending invites: a list that is pruned as it grows, against the plain record of what was
    issued and used. */
module Invites {
  import opened Lifecycle

  const INVITE_NANOS: nat := 600 * NANOS_PER_SEC

  datatype Invite = Invite(code: string, createdAt: nat, expiresAt: nat, used: bool)

  function NewInvite(code: string, at: nat): Invite {
    Invite(code, at, at + INVITE_NANOS, false)
  }

  predicate Usable(inv: Invite, now: nat) { !inv.used && now < inv.expiresAt }

  // ---------- the list ----------

  function Retained(invites: seq<Invite>, now: nat): seq<Invite> {
    if invites == [] then []
    else if Usable(invites[0], now) then [invites[0]] + Retained(invites[1..], now)
    else Retained(invites[1..], now)
  }

  /** The first usable invite with the code, or |invites|. */
  function FindUsable(invites: seq<Invite>, code: string, now: nat): (i: nat)
    ensures i <= |invites|
    ensures i < |invites| ==> invites[i].code == code && Usable(invites[i], now)
    ensures forall j :: 0 <= j < i ==> !(invites[j].code == code && Usable(invites[j], now))
  {
    if invites == [] || (invites[0].code == code && Usable(invites[0], now)) then 0
    else 1 + FindUsable(invites[1..], code, now)
  }

  function Created(invites: seq<Invite>, code: string, at: nat, now: nat): seq<Invite> {
    Retained(invites, now) + [NewInvite(code, at)]
  }

  function Accepts(invites: seq<Invite>, code: string, now: nat): bool {
    FindUsable(invites, code, now) < |invites|
  }

  function Consumed(invites: seq<Invite>, code: string, now: nat): seq<Invite> {
    var i := FindUsable(invites, code, now);
    if i < |invites| then invites[i := invites[i].(used := true)] else invites
  }

  class InviteStore {
    var invites: seq<Invite>

    constructor ()
      ensures invites == []
    {
      invites := [];
    }

    method CreateInvite(code: string, at: nat, now: nat) returns (inv: Invite)
      modifies this
      ensures invites == Created(old(invites), code, at, now)
      ensures inv == NewInvite(code, at)
    {
      inv := Invite(code, at, at + INVITE_NANOS, false);
      var kept := [];
      assert kept + Retained(invites[0..], now) == Retained(invites, now);
      for i := 0 to |invites|
        invariant invites == old(invites)
        invariant kept + Retained(invites[i..], now) == Retained(invites, now)
      {
        if Usable(invites[i], now) {
          assert kept + ([invites[i]] + Retained(invites[i + 1..], now)) == kept + [invites[i]] + Retained(invites[i + 1..], now);
          kept := kept + [invites[i]];
        }
      }
      assert kept == Retained(invites, now);
      invites := kept + [inv];
    }

    method ConsumeInvite(code: string, now: nat) returns (accepted: bool)
      modifies this
      ensures accepted == Accepts(old(invites), code, now)
      ensures invites == Consumed(old(invites), code, now)
    {
      var i := 0;
      while i < |invites|
        invariant 0 <= i <= FindUsable(invites, code, now)
        invariant invites == old(invites)
      {
        if invites[i].code == code && Usable(invites[i], now) {
          invites := invites[i := invites[i].(used := true)];
          return true;
        }
        i := i + 1;
      }
      return false;
    }
  }

  // ---------- the record, never pruned ----------

  datatype Entry = Entry(expiresAt: nat, used: bool)

  type Record = map<string, Entry>

  datatype InviteOp = Issue(code: string, issuedAt: nat) | Present(code: string)
  datatype Event = Event(op: InviteOp, at: nat)

  predicate Valid(record: Record, code: string, now: nat) {
    code in record && !record[code].used && now < record[code].expiresAt
  }

  function RecordNext(record: Record, e: Event): Record {
    match e.op
    case Issue(code, issuedAt) => record[code := Entry(issuedAt + INVITE_NANOS, false)]
    case Present(code) =>
      if Valid(record, code, e.at) then record[code := record[code].(used := true)] else record
  }

  function ListNext(invites: seq<Invite>, e: Event): seq<Invite> {
    match e.op
    case Issue(code, issuedAt) => Created(invites, code, issuedAt, e.at)
    case Present(code) => Consumed(invites, code, e.at)
  }

  ghost predicate DistinctCodes(invites: seq<Invite>) {
    forall i, j :: 0 <= i < j < |invites| ==> invites[i].code != invites[j].code
  }

  /** The list holds part of the record, and all of it that is still valid. */
  ghost predicate Mirrors(invites: seq<Invite>, record: Record, now: nat) {
    && (forall i :: 0 <= i < |invites| ==>
          invites[i].code in record && record[invites[i].code] == Entry(invites[i].expiresAt, invites[i].used))
    && DistinctCodes(invites)
    && (forall code :: Valid(record, code, now) ==> exists i :: 0 <= i < |invites| && invites[i].code == code)
  }

  lemma {:induction false} RetainedIs(invites: seq<Invite>, now: nat)
    ensures forall inv :: inv in Retained(invites, now) <==> inv in invites && Usable(inv, now)
  {
    if invites != [] {
      RetainedIs(invites[1..], now);
      assert forall inv :: inv in invites <==> inv == invites[0] || inv in invites[1..];
    }
  }

  lemma {:induction false} RetainedDistinct(invites: seq<Invite>, now: nat)
    requires DistinctCodes(invites)
    ensures DistinctCodes(Retained(invites, now))
  {
    if invites != [] {
      var rest := Retained(invites[1..], now);
      RetainedIs(invites[1..], now);
      RetainedDistinct(invites[1..], now);
      forall j | 0 <= j < |rest| ensures rest[j].code != invites[0].code {
        assert rest[j] in invites[1..];
        var k :| 0 <= k < |invites[1..]| && invites[1..][k] == rest[j];
        assert invites[k + 1] == rest[j];
      }
    }
  }

  /** The list answers as the record does. */
  lemma {:induction false} AnswersAlike(invites: seq<Invite>, record: Record, code: string, now: nat, clock: nat)
    requires Mirrors(invites, record, clock) && clock <= now
    ensures Accepts(invites, code, now) <==> Valid(record, code, now)
  {
    if Valid(record, code, now) {
      assert Valid(record, code, clock);
      var i :| 0 <= i < |invites| && invites[i].code == code;
    }
  }

  lemma {:induction false} IssueMirrors(invites: seq<Invite>, record: Record, e: Event, clock: nat)
    requires Mirrors(invites, record, clock) && clock <= e.at
    requires e.op.Issue? && e.op.code !in record
    ensures Mirrors(ListNext(invites, e), RecordNext(record, e), e.at)
  {
    var kept := Retained(invites, e.at);
    var invites', record' := ListNext(invites, e), RecordNext(record, e);
    RetainedIs(invites, e.at);
    RetainedDistinct(invites, e.at);
    forall i | 0 <= i < |kept| ensures kept[i].code in record && record[kept[i].code] == Entry(kept[i].expiresAt, kept[i].used) {
      assert kept[i] in invites;
    }
    forall code | Valid(record', code, e.at) ensures exists i :: 0 <= i < |invites'| && invites'[i].code == code {
      if code == e.op.code {
        assert invites'[|kept|].code == code;
      } else {
        assert Valid(record, code, clock);
        var i :| 0 <= i < |invites| && invites[i].code == code;
        assert invites[i] in kept;
        var j :| 0 <= j < |kept| && kept[j] == invites[i];
        assert invites'[j] == invites[i];
      }
    }
  }

  lemma {:induction false} PresentMirrors(invites: seq<Invite>, record: Record, e: Event, clock: nat)
    requires Mirrors(invites, record, clock) && clock <= e.at && e.op.Present?
    ensures Mirrors(ListNext(invites, e), RecordNext(record, e), e.at)
  {
    var code := e.op.code;
    var invites', record' := ListNext(invites, e), RecordNext(record, e);
    AnswersAlike(invites, record, code, e.at, clock);
    forall c | Valid(record', c, e.at) ensures exists i :: 0 <= i < |invites'| && invites'[i].code == c {
      assert Valid(record, c, clock);
      var i :| 0 <= i < |invites| && invites[i].code == c;
      assert invites'[i].code == c;
    }
  }

  // ---------- runs ----------

  function RecordAfter(run: seq<Event>): Record
    decreases |run|
  {
    if run == [] then map[] else RecordNext(RecordAfter(run[..|run| - 1]), run[|run| - 1])
  }

  function ListAfter(run: seq<Event>): seq<Invite>
    decreases |run|
  {
    if run == [] then [] else ListNext(ListAfter(run[..|run| - 1]), run[|run| - 1])
  }

  /** Codes are fresh and the clock does not go back. */
  ghost predicate Orderly(run: seq<Event>) {
    && (forall i, j :: 0 <= i < j < |run| && run[i].op.Issue? && run[j].op.Issue? ==> run[i].op.code != run[j].op.code)
    && (forall i, j :: 0 <= i < j < |run| ==> run[i].at <= run[j].at)
  }

  predicate Issued(run: seq<Event>, j: nat, code: string) {
    j < |run| && run[j].op.Issue? && run[j].op.code == code
  }

  /** Event number i presents the code and the store accepts it. */
  predicate Accepted(run: seq<Event>, i: nat, code: string) {
    i < |run| && run[i].op == Present(code) && Accepts(ListAfter(run[..i]), code, run[i].at)
  }

  function Clock(run: seq<Event>): nat { if run == [] then 0 else run[|run| - 1].at }

  lemma {:induction false} Cut(run: seq<Event>, n: nat, i: nat, code: string)
    requires i < n <= |run|
    ensures Accepted(run[..n], i, code) <==> Accepted(run, i, code)
    ensures Issued(run[..n], i, code) <==> Issued(run, i, code)
  {
    assert run[..n][..i] == run[..i];
  }

  /** What the record says about a code, in terms of what happened. */
  ghost predicate Tells(run: seq<Event>, code: string) {
    var record := RecordAfter(run);
    if code in record then
      && (exists j: nat :: Issued(run, j, code) && record[code].expiresAt == run[j].op.issuedAt + INVITE_NANOS)
      && (record[code].used <==> exists i: nat :: Accepted(run, i, code))
    else
      forall i: nat :: !Issued(run, i, code) && !Accepted(run, i, code)
  }

  lemma {:induction false} RunMirrors(run: seq<Event>)
    requires Orderly(run)
    ensures Mirrors(ListAfter(run), RecordAfter(run), Clock(run))
    ensures forall code :: Tells(run, code)
    decreases |run|
  {
    if run != [] {
      var n := |run| - 1;
      var front, e := run[..n], run[n];
      RunMirrors(front);
      if e.op.Issue? {
        assert Tells(front, e.op.code);
        forall j: nat ensures !Issued(front, j, e.op.code) {
          assert j < n ==> front[j] == run[j];
        }
        IssueMirrors(ListAfter(front), RecordAfter(front), e, Clock(front));
      } else {
        PresentMirrors(ListAfter(front), RecordAfter(front), e, Clock(front));
      }
      forall code ensures Tells(run, code) {
        TellsNext(run, code);
      }
    }
  }

  /** How the history of a code grows by one event. */
  lemma {:induction false} HistoryGrows(run: seq<Event>, code: string, i: nat)
    requires Orderly(run) && run != []
    requires var front := run[..|run| - 1]; Mirrors(ListAfter(front), RecordAfter(front), Clock(front))
    ensures var n := |run| - 1; var front, e := run[..n], run[n];
            && (Issued(run, i, code) <==> Issued(front, i, code) || (i == n && e.op.Issue? && e.op.code == code))
            && (Accepted(run, i, code) <==>
                  Accepted(front, i, code) || (i == n && e.op == Present(code) && Valid(RecordAfter(front), code, e.at)))
  {
    var n := |run| - 1;
    var front, e := run[..n], run[n];
    if i < n {
      Cut(run, n, i, code);
    } else if i == n && e.op == Present(code) {
      AnswersAlike(ListAfter(front), RecordAfter(front), code, e.at, Clock(front));
    }
  }

  lemma {:induction false} TellsNext(run: seq<Event>, code: string)
    requires Orderly(run) && run != []
    requires var front := run[..|run| - 1];
             Tells(front, code) && Mirrors(ListAfter(front), RecordAfter(front), Clock(front))
    ensures Tells(run, code)
  {
    var n := |run| - 1;
    var front, e := run[..n], run[n];
    if e.op.Issue? && e.op.code == code {
      TellsWhenIssued(run, code);
    } else if code in RecordAfter(front) {
      TellsWhenKnown(run, code);
    } else {
      forall i: nat ensures !Issued(run, i, code) && !Accepted(run, i, code) {
        HistoryGrows(run, code, i);
      }
    }
  }

  lemma {:induction false} TellsWhenIssued(run: seq<Event>, code: string)
    requires Orderly(run) && run != [] && Issued(run, |run| - 1, code)
    requires var front := run[..|run| - 1];
             Tells(front, code) && Mirrors(ListAfter(front), RecordAfter(front), Clock(front))
    ensures Tells(run, code)
  {
    var n := |run| - 1;
    var front := run[..n];
    assert code !in RecordAfter(front) by {
      forall j: nat ensures !Issued(front, j, code) {
        assert j < n ==> front[j] == run[j];
      }
    }
    forall i: nat ensures !Accepted(run, i, code) {
      HistoryGrows(run, code, i);
    }
  }

  lemma {:induction false} TellsWhenKnown(run: seq<Event>, code: string)
    requires Orderly(run) && run != [] && !Issued(run, |run| - 1, code)
    requires var front := run[..|run| - 1];
             Tells(front, code) && Mirrors(ListAfter(front), RecordAfter(front), Clock(front)) && code in RecordAfter(front)
    ensures Tells(run, code)
  {
    var n := |run| - 1;
    var front, e := run[..n], run[n];
    var before, after := RecordAfter(front), RecordAfter(run);
    var j: nat :| Issued(front, j, code) && before[code].expiresAt == front[j].op.issuedAt + INVITE_NANOS;
    assert Issued(run, j, code) && run[j] == front[j] && after[code].expiresAt == before[code].expiresAt;
    if i: nat :| Accepted(front, i, code) {
      HistoryGrows(run, code, i);
    }
    if e.op == Present(code) && Valid(before, code, e.at) {
      HistoryGrows(run, code, n);
    }
    forall i: nat | Accepted(run, i, code) ensures after[code].used {
      HistoryGrows(run, code, i);
    }
  }

  lemma {:induction false} IssuedOnce(run: seq<Event>, i: nat, j: nat, code: string)
    requires Orderly(run) && Issued(run, i, code) && Issued(run, j, code)
    ensures i == j
  {}

  /** An invite is accepted exactly when its code was issued before, less than ten minutes ago,
      and has not been accepted since: pruning never changes an answer. */
  lemma {:induction false} AcceptedExactlyWhen(run: seq<Event>, k: nat, code: string)
    requires Orderly(run) && k < |run| && run[k].op == Present(code)
    ensures Accepted(run, k, code) <==>
            && (exists j: nat :: j < k && Issued(run, j, code) && run[k].at < run[j].op.issuedAt + 600_000_000_000)
            && (forall i: nat :: i < k ==> !Accepted(run, i, code))
  {
    var front := run[..k];
    var record := RecordAfter(front);
    RunMirrors(front);
    assert Tells(front, code);
    AnswersAlike(ListAfter(front), record, code, run[k].at, Clock(front));
    forall i: nat | i < k
      ensures Accepted(front, i, code) <==> Accepted(run, i, code)
      ensures Issued(front, i, code) <==> Issued(run, i, code)
    {
      Cut(run, k, i, code);
    }
    if code in record {
      var j: nat :| Issued(front, j, code) && record[code].expiresAt == front[j].op.issuedAt + INVITE_NANOS;
      assert Issued(run, j, code);
      forall i: nat | i < k && Issued(run, i, code) ensures i == j {
        IssuedOnce(run, i, j, code);
      }
    }
  }

  /** No code is accepted twice. */
  lemma {:induction false} AcceptedOnce(run: seq<Event>, i: nat, k: nat, code: string)
    requires Orderly(run) && Accepted(run, i, code) && Accepted(run, k, code)
    ensures i == k
  {
    if i < k {
      AcceptedExactlyWhen(run, k, code);
    } else if k < i {
      AcceptedExactlyWhen(run, i, code);
    }
  }
}
