/** Safety over whole runs of the persistent store, for every run of operations one after the
    other and for names of any shape: a letter is known by its key. */
module SledLives {
  import opened Basics
  import opened Text
  import opened Lifecycle
  import opened Mailbox
  import opened SledTree
  import opened SledStore
  import opened Simulation
  import opened Agreement
  import opened Lives

  // ---------- the letter under a key ----------

  function LetterAt(db: Db, key: string): Option<Letter> {
    if db == [] then None
    else if db[0].key == key then (match db[0].value case Held(m) => Some(m) case Marker => None)
    else LetterAt(db[1..], key)
  }

  lemma {:induction false} LetterAtIs(db: Db, key: string, m: Letter)
    requires KeySorted(db)
    ensures LetterAt(db, key) == Some(m) <==> Entry(key, Held(m)) in db
  {
    if db != [] {
      LetterAtIs(db[1..], key, m);
      assert forall e :: e in db <==> e == db[0] || e in db[1..];
      if db[0].key == key && Entry(key, Held(m)) in db[1..] {
        var k :| 0 <= k < |db[1..]| && db[1..][k] == Entry(key, Held(m));
        assert StrLt(db[0].key, db[k + 1].key);
        StrLtIrreflexive(key);
      }
    }
  }

  /** New letters are sent new, not in the future, and under new keys. */
  ghost predicate SledSendable(db: Db, op: Op, now: nat) {
    op.DoPush? ==>
      (forall e :: e in db ==> e.key != Key(op.letter)) && IsNew(op.letter) && op.letter.createdAt <= now
  }

  // ---------- what a step may leave behind ----------

  ghost predicate From(db: Db, op: Op, now: nat, e: Entry)
    requires e.value.Held?
  {
    exists m :: Entry(e.key, Held(m)) in db && MayBecome(Sled, m, op, now, e.value.letter)
  }

  /** Every letter after a step was there before it, as the step may have changed it, or was
      pushed by it. */
  ghost predicate Descends(db: Db, op: Op, now: nat, db': Db) {
    forall e :: e in db' && e.value.Held? ==> From(db, op, now, e) || op == DoPush(e.value.letter)
  }

  lemma {:induction false} Unchanged(db: Db, op: Op, now: nat, e: Entry)
    requires e in db && e.value.Held?
    ensures From(db, op, now, e)
  {
    assert e == Entry(e.key, Held(e.value.letter));
    assert MayBecome(Sled, e.value.letter, op, now, e.value.letter);
  }

  lemma {:induction false} SubsetDescends(db: Db, op: Op, now: nat, db': Db)
    requires forall e :: e in db' && e.value.Held? ==> e in db
    ensures Descends(db, op, now, db')
  {
    forall e | e in db' && e.value.Held? ensures From(db, op, now, e) {
      Unchanged(db, op, now, e);
    }
  }

  /** Writing a found letter back under its own key. */
  lemma {:induction false} RewriteDescends(db: Db, i: nat, n: Letter, op: Op, now: nat)
    requires Valid(db) && i < |db| && db[i].value.Held? && SameEnvelope(db[i].value.letter, n)
    requires MayBecome(Sled, db[i].value.letter, op, now, n)
    ensures Insert(db, Key(n), Held(n)) == db[i := Entry(db[i].key, Held(n))]
    ensures Valid(db[i := Entry(db[i].key, Held(n))]) && Descends(db, op, now, db[i := Entry(db[i].key, Held(n))])
  {
    var db' := db[i := Entry(db[i].key, Held(n))];
    assert db[i] in db && Key(n) == db[i].key;
    InsertReplaces(db, i, Held(n));
    ReplaceKeepsValid(db, i, n);
    forall e | e in db' && e.value.Held? ensures From(db, op, now, e) {
      var k :| 0 <= k < |db'| && db'[k] == e;
      if k == i {
        assert db[i] == Entry(e.key, Held(db[i].value.letter));
      } else {
        assert db[k] in db;
        Unchanged(db, op, now, e);
      }
    }
  }

  lemma {:induction false} TouchDescends(db: Db, a: string, id: string, lop: LetterOp, now: nat)
    requires Valid(db)
    ensures var db' := EditedDb(db, a, id, OpEdit(lop, now)); Valid(db') && Descends(db, DoTouch(a, id, lop), now, db')
  {
    var h := Search(db, a, id, 0);
    SubsetDescends(db, DoTouch(a, id, lop), now, db);
    if h.Found? && EditAnswer(db, a, id, OpEdit(lop, now)).Edited? {
      var m := db[h.at].value.letter;
      OpKeepsEnvelope(Sled, m, lop, now);
      RewriteDescends(db, h.at, BackendOp(Sled, m, lop, now), DoTouch(a, id, lop), now);
    }
  }

  // ---------- polls ----------

  /** A polling scan from position i on leaves earlier entries alone and hands out later ones. */
  ghost predicate PollLeaves(db: Db, i: nat, db': Db, now: nat) {
    && |db'| == |db|
    && forall j :: 0 <= j < |db| ==>
         db'[j] == db[j]
         || (i <= j && db[j].value.Held? && db[j].value.letter.status == Queued
             && db'[j] == Entry(db[j].key, Held(HandOver(db[j].value.letter, now))))
  }

  lemma {:induction false} PollLeavesOn(db: Db, i: nat, m: Letter, db': Db, now: nat)
    requires i < |db| && db[i].value.Held? && db[i].value.letter.status == Queued
    requires m == HandOver(db[i].value.letter, now)
    requires PollLeaves(db[i := Entry(db[i].key, Held(m))], i + 1, db', now)
    ensures PollLeaves(db, i, db', now)
  {
    var mid := db[i := Entry(db[i].key, Held(m))];
    forall j | 0 <= j < |db|
      ensures db'[j] == db[j]
              || (i <= j && db[j].value.Held? && db[j].value.letter.status == Queued
                  && db'[j] == Entry(db[j].key, Held(HandOver(db[j].value.letter, now))))
    {
      assert j != i ==> mid[j] == db[j];
    }
  }

  lemma {:induction false} PollScan(db: Db, a: string, i: nat, out: seq<Letter>, limit: nat, now: nat)
    requires i <= |db|
    ensures PollLeaves(db, i, PollFrom(db, a, i, out, limit, now).db, now)
    decreases |db| - i
  {
    if i < |db| && Scanned(db[i], a) && db[i].value.Held? && db[i].value.letter.status == Queued {
      var m := HandOver(db[i].value.letter, now);
      var db' := db[i := Entry(db[i].key, Held(m))];
      if |out| + 1 < limit {
        PollScan(db', a, i + 1, out + [m], limit, now);
        PollLeavesOn(db, i, m, PollFrom(db', a, i + 1, out + [m], limit, now).db, now);
      }
    } else if i < |db| && !(Scanned(db[i], a) && db[i].value.Marker?) {
      PollScan(db, a, i + 1, out, limit, now);
    }
  }

  lemma {:induction false} LeavesDescends(db: Db, a: string, limit: nat, now: nat, db': Db)
    requires Valid(db) && PollLeaves(db, 0, db', now)
    ensures Valid(db') && Descends(db, DoPoll(a, limit), now, db')
  {
    forall e | e in db' && e.value.Held? ensures e.key == Key(e.value.letter) && From(db, DoPoll(a, limit), now, e) {
      var j :| 0 <= j < |db'| && db'[j] == e;
      assert db[j] in db;
      if db'[j] == db[j] {
        Unchanged(db, DoPoll(a, limit), now, e);
      } else {
        HandOverIsDelivery(db[j].value.letter, now);
        assert db[j] == Entry(e.key, Held(db[j].value.letter));
      }
    }
    assert forall j :: 0 <= j < |db| ==> db'[j].key == db[j].key;
    forall e | e in db' && e.value.Marker? ensures Prefix(AGENT_MARK) <= e.key {
      var j :| 0 <= j < |db'| && db'[j] == e;
      assert db[j] in db;
    }
  }

  lemma {:induction false} PollDescends(db: Db, a: string, limit: nat, now: nat)
    requires Valid(db)
    ensures var db' := PollFrom(db, a, 0, [], limit, now).db; Valid(db') && Descends(db, DoPoll(a, limit), now, db')
  {
    PollScan(db, a, 0, [], limit, now);
    LeavesDescends(db, a, limit, now, PollFrom(db, a, 0, [], limit, now).db);
  }

  // ---------- revivals ----------

  /** Reviving twice is reviving once. */
  lemma {:induction false} RevivedTwice(m: Letter, n: Letter, p: Letter, a: string, now: nat)
    requires MayBecome(Sled, m, DoRevive(a), now, n) && MayBecome(Sled, n, DoRevive(a), now, p)
    ensures MayBecome(Sled, m, DoRevive(a), now, p)
  {
    match m.status
    case Dead =>
    case _ => assert Apply(m.status, ReviveAuth).Illegal?;
  }

  lemma {:induction false} ReviveEditIs(m: Letter, now: nat)
    ensures ReviveEdit()(m) == Edited(Fire(m, ReviveAuth, now), false)
    ensures SameEnvelope(m, Fire(m, ReviveAuth, now))
  {
    FireKeepsEnvelope(m, ReviveAuth, now);
  }

  lemma {:induction false} ReviveOne(db: Db, a: string, id: string, now: nat)
    requires Valid(db)
    ensures var db' := EditedDb(db, a, id, ReviveEdit()); Valid(db') && Descends(db, DoRevive(a), now, db')
  {
    var h := Search(db, a, id, 0);
    SubsetDescends(db, DoRevive(a), now, db);
    if h.Found? {
      var m := db[h.at].value.letter;
      ReviveEditIs(m, now);
      RewriteDescends(db, h.at, Fire(m, ReviveAuth, now), DoRevive(a), now);
    }
  }

  lemma {:induction false} RevivalsCompose(db: Db, mid: Db, db': Db, a: string, now: nat)
    requires Descends(db, DoRevive(a), now, mid) && Descends(mid, DoRevive(a), now, db')
    ensures Descends(db, DoRevive(a), now, db')
  {
    forall e | e in db' && e.value.Held? ensures From(db, DoRevive(a), now, e) {
      var n :| Entry(e.key, Held(n)) in mid && MayBecome(Sled, n, DoRevive(a), now, e.value.letter);
      var f := Entry(e.key, Held(n));
      assert From(db, DoRevive(a), now, f);
      var m :| Entry(f.key, Held(m)) in db && MayBecome(Sled, m, DoRevive(a), now, f.value.letter);
      RevivedTwice(m, n, e.value.letter, a, now);
    }
  }

  lemma {:induction false} ReviveDescends(db: Db, a: string, candidates: seq<Letter>, i: nat, revived: seq<Letter>, now: nat)
    requires Valid(db) && i <= |candidates|
    ensures var db' := ReviveAll(db, a, candidates, i, revived).db; Valid(db') && Descends(db, DoRevive(a), now, db')
    decreases |candidates| - i
  {
    if i == |candidates| {
      SubsetDescends(db, DoRevive(a), now, db);
    } else {
      var mid := EditedDb(db, a, candidates[i].id, ReviveEdit());
      var next := Appended(revived, EditAnswer(db, a, candidates[i].id, ReviveEdit()));
      ReviveOne(db, a, candidates[i].id, now);
      ReviveDescends(mid, a, candidates, i + 1, next, now);
      RevivalsCompose(db, mid, ReviveAll(mid, a, candidates, i + 1, next).db, a, now);
    }
  }

  // ---------- the other steps ----------

  lemma {:induction false} InsertDescends(db: Db, key: string, v: Value, op: Op, now: nat)
    requires Valid(db)
    requires match v case Held(m) => op == DoPush(m) && key == Key(m) case Marker => Prefix(AGENT_MARK) <= key
    ensures Valid(Insert(db, key, v)) && Descends(db, op, now, Insert(db, key, v))
  {
    InsertKeepsOrder(db, key, v);
    InsertKeys(db, key, v);
    forall e | e in Insert(db, key, v) && e.value.Held? && e in db ensures From(db, op, now, e) {
      Unchanged(db, op, now, e);
    }
  }

  lemma {:induction false} KeptAre(db: Db)
    requires KeySorted(db)
    ensures forall e :: e in Unremovable(db) ==> e in db
    ensures KeySorted(Unremovable(db))
  {
    if db != [] {
      KeptAre(db[1..]);
      var r := Unremovable(db[1..]);
      forall j | 0 <= j < |r| ensures StrLt(db[0].key, r[j].key) {
        assert r[j] in db[1..];
      }
    }
  }

  lemma {:induction false} PartDescends(db: Db, db': Db, op: Op, now: nat)
    requires Valid(db) && KeySorted(db') && forall e :: e in db' ==> e in db
    ensures Valid(db') && Descends(db, op, now, db')
  {
    SubsetDescends(db, op, now, db');
  }

  lemma {:induction false} DeleteDescends(db: Db, id: string, now: nat)
    requires Valid(db)
    ensures var db' := SledNext(db, DoDelete(id), now); Valid(db') && Descends(db, DoDelete(id), now, db')
  {
    var i := Locate(db, id);
    if i < |db| {
      CutKeepsOrder(db, i);
      PartDescends(db, Without(db, i), DoDelete(id), now);
    } else {
      SubsetDescends(db, DoDelete(id), now, db);
    }
  }

  lemma {:induction false} SledNextDescends(db: Db, op: Op, now: nat)
    requires Valid(db)
    ensures Valid(SledNext(db, op, now)) && Descends(db, op, now, SledNext(db, op, now))
  {
    match op
    case DoPush(m) =>
      SubsetDescends(db, op, now, db);
      InsertDescends(db, Key(m), Held(m), op, now);
    case DoPoll(a, limit) => PollDescends(db, a, limit, now);
    case DoTouch(a, id, lop) => TouchDescends(db, a, id, lop, now);
    case DoRevive(a) => ReviveDescends(db, a, Fifo(Select(db, IsCandidate(a))), 0, [], now);
    case DoDelete(id) => DeleteDescends(db, id, now);
    case DoDeleteAll =>
      KeptAre(db);
      PartDescends(db, Unremovable(db), op, now);
    case DoRegister(a) => InsertDescends(db, MarkerKey(a), Marker, op, now);
    case DoUnregister(a) =>
      RemoveKeepsOrder(db, MarkerKey(a));
      PartDescends(db, Remove(db, MarkerKey(a)), op, now);
  }

  // ---------- lives ----------

  lemma {:induction false} SledTurn(db: Db, op: Op, now: nat, key: string)
    requires Valid(db) && SledSendable(db, op, now)
    ensures Turn(Sled, LetterAt(db, key), Timed(op, now), LetterAt(SledNext(db, op, now), key))
    ensures Valid(SledNext(db, op, now))
  {
    var db' := SledNext(db, op, now);
    SledNextDescends(db, op, now);
    if LetterAt(db', key).Some? {
      var n := LetterAt(db', key).value;
      var e := Entry(key, Held(n));
      LetterAtIs(db', key, n);
      assert e.key == Key(n);
      if From(db, op, now, e) {
        var m :| Entry(key, Held(m)) in db && MayBecome(Sled, m, op, now, n);
        LetterAtIs(db, key, m);
      } else if LetterAt(db, key).Some? {
        LetterAtIs(db, key, LetterAt(db, key).value);
      }
    }
  }

  ghost predicate SledRunSendable(db: Db, run: seq<Timed>)
    decreases |run|
  {
    run != [] ==>
      SledSendable(db, run[0].op, run[0].at) && SledRunSendable(SledNext(db, run[0].op, run[0].at), run[1..])
  }

  /** What became of the letter under a key, step by step. */
  ghost function SledLife(db: Db, run: seq<Timed>, key: string): (life: Life)
    ensures |life| == |run| + 1
    decreases |run|
  {
    [LetterAt(db, key)] + if run == [] then [] else SledLife(SledNext(db, run[0].op, run[0].at), run[1..], key)
  }

  lemma {:induction false} SledLifeEnds(db: Db, run: seq<Timed>, key: string)
    requires Valid(db) && SledRunSendable(db, run)
    ensures |SledLife(db, run, key)| == |run| + 1 && SledLife(db, run, key)[0] == LetterAt(db, key)
    ensures SledLife(db, run, key)[|run|] == LetterAt(SledAfter(db, run), key)
    decreases |run|
  {
    if run != [] {
      SledTurn(db, run[0].op, run[0].at, key);
      SledLifeEnds(SledNext(db, run[0].op, run[0].at), run[1..], key);
    }
  }

  /** In the persistent store every letter lives by the table. */
  lemma {:induction false} SledLived(db: Db, run: seq<Timed>, key: string)
    requires Valid(db) && SledRunSendable(db, run)
    ensures Lived(Sled, SledLife(db, run, key), run)
    ensures SledLife(db, run, key)[0] == LetterAt(db, key)
    ensures SledLife(db, run, key)[|run|] == LetterAt(SledAfter(db, run), key)
    decreases |run|
  {
    SledLifeEnds(db, run, key);
    if run != [] {
      var next := SledNext(db, run[0].op, run[0].at);
      SledTurn(db, run[0].op, run[0].at, key);
      SledLived(next, run[1..], key);
      LivedFrom(Sled, LetterAt(db, key), run[0], SledLife(next, run[1..], key), run[1..]);
      assert [run[0]] + run[1..] == run;
    }
  }

  // ---------- what follows ----------

  /** Whatever a step of the persistent store does to a letter's status is a row of the table. */
  lemma {:induction false} SledEveryMoveIsRow(db: Db, op: Op, now: nat, key: string)
    requires Valid(db) && SledSendable(db, op, now)
    ensures var before, after := LetterAt(db, key), LetterAt(SledNext(db, op, now), key);
            before.Some? && after.Some? ==> IsRow(before.value.status, after.value.status)
  {
    var before, after := LetterAt(db, key), LetterAt(SledNext(db, op, now), key);
    SledTurn(db, op, now, key);
    if before.Some? && after.Some? {
      TurnIsRow(Sled, before.value, op, now, after.value);
    }
  }

  /** Filing a result with two readings of the clock follows the table too. */
  lemma {:induction false} SledAckIsRow(m: Letter, note: string, now: nat, later: nat)
    ensures var answer := AckEdit(note, now, later)(m); answer.Edited? ==> IsRow(m.status, answer.letter.status)
  {
    TableVerdicts(m.status, Ack(Some(note)));
    assert m.status == Delivered || m.status == Read ==> Row(m.status, Ack(Some(note)), Acked);
  }

  /** Over any run a letter enters Delivered at most once while it is stored. */
  lemma {:induction false} SledDeliversOnce(db: Db, run: seq<Timed>, key: string)
    requires Valid(db) && SledRunSendable(db, run) && Stays(SledLife(db, run, key))
    ensures Arrivals(SledLife(db, run, key)) + One(HandedOver(SledLife(db, run, key)[0].value.status)) <= 1
  {
    SledLived(db, run, key);
    LifeDeliversOnce(Sled, SledLife(db, run, key), run);
  }

  /** Over any run, once filed, a letter keeps its status, its note and all its times. */
  lemma {:induction false} SledAckedIsFinal(db: Db, run: seq<Timed>, key: string)
    requires Valid(db) && SledRunSendable(db, run) && Stays(SledLife(db, run, key))
    requires LetterAt(db, key).Some? && LetterAt(db, key).value.status == Acked
    ensures var after := LetterAt(SledAfter(db, run), key);
            after.Some? && Core(after.value) == Core(LetterAt(db, key).value)
  {
    SledLived(db, run, key);
    LifeEndsAcked(Sled, SledLife(db, run, key), run);
  }

  /** Over any run only a revival takes a letter out of Dead. */
  lemma {:induction false} SledDeadStaysDead(db: Db, run: seq<Timed>, key: string)
    requires Valid(db) && SledRunSendable(db, run) && Stays(SledLife(db, run, key))
    requires LetterAt(db, key).Some? && LetterAt(db, key).value.status == Dead
    requires forall k :: 0 <= k < |run| ==> !IsRevival(run[k].op)
    ensures var after := LetterAt(SledAfter(db, run), key); after.Some? && after.value.status == Dead
  {
    SledLived(db, run, key);
    LifeStaysDead(Sled, SledLife(db, run, key), run);
  }

  /** On every state a run reaches under a clock that does not go back, the times of every
      letter form the chain of its status. */
  lemma {:induction false} SledTimestampChain(db: Db, run: seq<Timed>, clock: nat, key: string)
    requires Valid(db) && SledRunSendable(db, run) && ClockRuns(run, clock)
    requires LetterAt(db, key).Some? ==> Chained(LetterAt(db, key).value, clock)
    ensures var after := LetterAt(SledAfter(db, run), key); after.Some? ==> Chained(after.value, ClockAfter(run, clock))
  {
    SledLived(db, run, key);
    LifeIsChained(Sled, SledLife(db, run, key), run, clock);
  }

  /** While a letter is stored, a time once set is the one it ends with. */
  lemma {:induction false} SledStampsArePermanent(db: Db, run: seq<Timed>, clock: nat, key: string)
    requires Valid(db) && SledRunSendable(db, run) && ClockRuns(run, clock) && Stays(SledLife(db, run, key))
    requires LetterAt(db, key).Some? && Chained(LetterAt(db, key).value, clock)
    ensures var after := LetterAt(SledAfter(db, run), key);
            after.Some? && StampsKept(LetterAt(db, key).value, after.value)
  {
    SledLived(db, run, key);
    LifeKeepsStamps(Sled, SledLife(db, run, key), run, clock);
  }
}
