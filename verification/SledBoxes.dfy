/** The mailboxes inside the tree: what each operation of the persistent backend does to the
    letters of one receiver, for receivers with well-behaved names. */
module SledBoxes {
  import opened Basics
  import opened Text
  import opened Lifecycle
  import opened Mailbox
  import opened SledTree
  import opened SledStore
  import MemoryStore

  /** Names whose prefix scan is exact. */
  predicate GoodName(a: string) { ColonFree(a) && a != AGENT_MARK }

  ghost predicate Clean(db: Db) {
    Valid(db) && forall e :: e in db && e.value.Held? ==> GoodName(e.value.letter.receiver)
  }

  predicate Belongs(e: Entry, a: string) { e.value.Held? && e.value.letter.receiver == a }

  /** The letters of one receiver, in key order. */
  function BoxIn(db: Db, a: string): seq<Letter> {
    if db == [] then []
    else if Belongs(db[0], a) then [db[0].value.letter] + BoxIn(db[1..], a)
    else BoxIn(db[1..], a)
  }

  // ---------- scans are exact ----------

  lemma {:induction false} ScannedBelongs(db: Db, e: Entry, a: string)
    requires Clean(db) && e in db && GoodName(a)
    ensures Scanned(e, a) <==> Belongs(e, a)
  {
    match e.value
    case Held(m) => ScanExact(a, m);
    case Marker =>
      var known := e.key[|Prefix(AGENT_MARK)|..];
      assert e.key == MarkerKey(known);
      ScanMeetsMarker(a, known);
  }

  lemma {:induction false} CountIsBox(db: Db, a: string)
    requires Clean(db) && GoodName(a)
    ensures CountScanned(db, a) == |BoxIn(db, a)|
  {
    if db != [] {
      ScannedBelongs(db, db[0], a);
      CountIsBox(db[1..], a);
    }
  }

  lemma {:induction false} BoxInConcat(x: Db, y: Db, a: string)
    ensures BoxIn(x + y, a) == BoxIn(x, a) + BoxIn(y, a)
  {
    if x == [] {
      assert x + y == y;
    } else {
      var p, q := BoxIn(x[1..], a), BoxIn(y, a);
      BoxInConcat(x[1..], y, a);
      assert (x + y)[0] == x[0] && (x + y)[1..] == x[1..] + y;
      if Belongs(x[0], a) {
        assert [x[0].value.letter] + (p + q) == [x[0].value.letter] + p + q;
      }
    }
  }

  lemma {:induction false} BoxInMembers(db: Db, a: string, m: Letter)
    ensures m in BoxIn(db, a) <==> m.receiver == a && exists e :: e in db && e.value == Held(m)
  {
    if db != [] {
      BoxInMembers(db[1..], a, m);
      assert db == [db[0]] + db[1..];
      if m in BoxIn(db[1..], a) {
        var e :| e in db[1..] && e.value == Held(m);
        assert e in db;
      }
      if exists e :: e in db && e.value == Held(m) {
        var e :| e in db && e.value == Held(m);
        assert e == db[0] || e in db[1..];
      }
    }
  }

  lemma {:induction false} BoxAround(db: Db, i: nat, a: string)
    requires i < |db|
    ensures BoxIn(db, a) == BoxIn(db[..i], a) + (if Belongs(db[i], a) then [db[i].value.letter] else []) + BoxIn(db[i + 1..], a)
  {
    assert db == db[..i] + ([db[i]] + db[i + 1..]);
    BoxInConcat(db[..i], [db[i]] + db[i + 1..], a);
    var rest := [db[i]] + db[i + 1..];
    assert rest[1..] == db[i + 1..];
    if Belongs(db[i], a) {
      assert BoxIn(rest, a) == [db[i].value.letter] + BoxIn(db[i + 1..], a);
    }
  }

  /** Rewriting one letter in place rewrites it in its own mailbox only. */
  lemma {:induction false} ReplaceInBox(db: Db, i: nat, m: Letter, a: string)
    requires i < |db| && db[i].value.Held? && db[i].value.letter.receiver == m.receiver
    ensures var r := db[i := Entry(db[i].key, Held(m))];
            var k := |BoxIn(db[..i], a)|;
            if m.receiver == a
            then k < |BoxIn(db, a)| && BoxIn(db, a)[k] == db[i].value.letter && BoxIn(r, a) == BoxIn(db, a)[k := m]
            else BoxIn(r, a) == BoxIn(db, a)
  {
    var r := db[i := Entry(db[i].key, Held(m))];
    BoxAround(db, i, a);
    BoxAround(r, i, a);
    assert r[..i] == db[..i] && r[i + 1..] == db[i + 1..];
  }

  lemma {:induction false} CleanReplace(db: Db, i: nat, m: Letter)
    requires Clean(db) && i < |db| && db[i].value.Held? && SameEnvelope(db[i].value.letter, m)
    ensures Clean(db[i := Entry(db[i].key, Held(m))])
    ensures Insert(db, Key(m), Held(m)) == db[i := Entry(db[i].key, Held(m))]
  {
    ReplaceKeepsValid(db, i, m);
    InsertReplaces(db, i, Held(m));
    assert db[i] in db && Key(m) == db[i].key;
  }

  // ---------- updates ----------

  /** The scan for an id finds the same letter as a lookup in the mailbox, and never breaks. */
  lemma {:induction false} SearchInBox(db: Db, a: string, id: string, i: nat)
    requires Clean(db) && GoodName(a) && i <= |db|
    ensures var h := Search(db, a, id, i); var rest := BoxIn(db[i..], a);
            match h
            case Found(j) => Belongs(db[j], a) && |BoxIn(db[i..j], a)| == IndexOf(rest, id) < |rest|
            case Missing => IndexOf(rest, id) == |rest|
            case Broken => false
    decreases |db| - i
  {
    if i < |db| {
      ScannedBelongs(db, db[i], a);
      BoxStep(db, i, |db|, a);
      assert db[i..|db|] == db[i..] && db[i + 1..|db|] == db[i + 1..];
      if Belongs(db[i], a) && db[i].value.letter.id == id {
        assert db[i..i] == [];
      } else {
        SearchInBox(db, a, id, i + 1);
        var h := Search(db, a, id, i + 1);
        assert Search(db, a, id, i) == h;
        if h.Found? {
          BoxStep(db, i, h.at, a);
        }
      }
    }
  }

  lemma {:induction false} BoxStep(db: Db, i: nat, j: nat, a: string)
    requires i < j <= |db|
    ensures BoxIn(db[i..j], a) == (if Belongs(db[i], a) then [db[i].value.letter] else []) + BoxIn(db[i + 1..j], a)
  {
    assert db[i..j][1..] == db[i + 1..j];
  }

  lemma {:induction false} RefusedUnchanged(m: Letter, op: LetterOp, now: nat)
    requires Refused(m, op)
    ensures BackendOp(Sled, m, op, now) == m
  {}

  /** A letter that was found is the one the mailbox lookup gives, and writing its update
      back changes exactly that letter of that mailbox. */
  lemma {:induction false} WriteBack(db: Db, a: string, i: nat, k: nat, m: Letter)
    requires Clean(db) && i < |db| && Belongs(db[i], a) && SameEnvelope(db[i].value.letter, m)
    requires k == |BoxIn(db[..i], a)|
    ensures var r := Insert(db, Key(m), Held(m));
            && Clean(r) && |r| == |db|
            && (forall j :: 0 <= j < |db| ==> r[j].key == db[j].key)
            && k < |BoxIn(db, a)| && BoxIn(db, a)[k] == db[i].value.letter
            && forall b :: BoxIn(r, b) == if b == a then BoxIn(db, a)[k := m] else BoxIn(db, b)
  {
    CleanReplace(db, i, m);
    ReplaceInBox(db, i, m, a);
    var r := db[i := Entry(db[i].key, Held(m))];
    forall b ensures BoxIn(r, b) == if b == a then BoxIn(db, a)[k := m] else BoxIn(db, b) {
      ReplaceInBox(db, i, m, b);
    }
  }

  /** The scan and the mailbox lookup find the same letter. */
  lemma {:induction false} FoundIsLookup(db: Db, a: string, id: string)
    requires Clean(db) && GoodName(a)
    ensures var box, h := BoxIn(db, a), Search(db, a, id, 0);
            match h
            case Found(i) => Belongs(db[i], a) && |BoxIn(db[..i], a)| == IndexOf(box, id) < |box|
                             && box[IndexOf(box, id)] == db[i].value.letter
            case Missing => IndexOf(box, id) == |box|
            case Broken => false
  {
    SearchInBox(db, a, id, 0);
    assert db[0..] == db;
    var h := Search(db, a, id, 0);
    if h.Found? {
      assert db[0..h.at] == db[..h.at];
      ReplaceInBox(db, h.at, db[h.at].value.letter, a);
    }
  }

  lemma {:induction false} UpdateAnswer(db: Db, a: string, id: string, op: LetterOp, now: nat)
    requires Clean(db) && GoodName(a)
    ensures AsResult(EditAnswer(db, a, id, OpEdit(op, now))) == UpdateReply(Sled, BoxIn(db, a), id, op, now)
  {
    FoundIsLookup(db, a, id);
  }

  /** One update in the tree is one update in the mailbox, keys and order untouched. */
  lemma {:induction false} UpdateInBox(db: Db, a: string, id: string, op: LetterOp, now: nat)
    requires Clean(db) && GoodName(a)
    ensures var r := EditedDb(db, a, id, OpEdit(op, now));
            && Clean(r) && |r| == |db|
            && (forall i :: 0 <= i < |db| ==> r[i].key == db[i].key)
            && forall b :: BoxIn(r, b) == if b == a then UpdateBox(Sled, BoxIn(db, a), id, op, now) else BoxIn(db, b)
  {
    FoundIsLookup(db, a, id);
    var box, h := BoxIn(db, a), Search(db, a, id, 0);
    if h.Found? {
      var m := db[h.at].value.letter;
      var n := BackendOp(Sled, m, op, now);
      OpKeepsEnvelope(Sled, m, op, now);
      WriteBack(db, a, h.at, IndexOf(box, id), n);
      if Refused(m, op) {
        RefusedUnchanged(m, op, now);
        assert UpdateBox(Sled, box, id, op, now) == box;
      } else {
        assert EditAnswer(db, a, id, OpEdit(op, now)).letter == n;
      }
    }
  }

  // ---------- pushes ----------

  /** Insertion by the order of the keys. */
  function InsertMilli(s: seq<Letter>, m: Letter): seq<Letter> {
    if s == [] then [m]
    else if MilliLt(m, s[0]) then [m] + s
    else [s[0]] + InsertMilli(s[1..], m)
  }

  /** A letter under a new key joins its own mailbox at the place its key gives it. */
  lemma {:induction false} PushInBox(db: Db, m: Letter, a: string)
    requires Valid(db)
    requires forall e :: e in db ==> e.key != Key(m)
    ensures BoxIn(Insert(db, Key(m), Held(m)), a) ==
            if m.receiver == a then InsertMilli(BoxIn(db, a), m) else BoxIn(db, a)
  {
    if db == [] {
      assert BoxIn([Entry(Key(m), Held(m))], a) == if m.receiver == a then [m] else [];
    } else if StrLt(Key(m), db[0].key) {
      if m.receiver == a && BoxIn(db, a) != [] {
        var x := BoxIn(db, a)[0];
        BoxInMembers(db, a, x);
        var e :| e in db && e.value == Held(x);
        var k :| 0 <= k < |db| && db[k] == e;
        if k > 0 {
          StrLtTransitive(Key(m), db[0].key, db[k].key);
        }
        KeyOrder(m, x);
      }
    } else {
      assert db[0] in db;
      PushInBox(db[1..], m, a);
      assert Insert(db, Key(m), Held(m))[1..] == Insert(db[1..], Key(m), Held(m));
      if Belongs(db[0], a) && m.receiver == a {
        KeyOrder(m, db[0].value.letter);
      }
    }
  }

  lemma {:induction false} PushKeepsClean(db: Db, m: Letter)
    requires Clean(db) && GoodName(m.receiver)
    ensures Clean(Insert(db, Key(m), Held(m)))
  {
    InsertKeepsOrder(db, Key(m), Held(m));
    InsertKeys(db, Key(m), Held(m));
  }

  /** Only a letter of the same receiver, instant and id can sit under a letter's key. */
  lemma {:induction false} KeyTaken(db: Db, m: Letter, e: Entry)
    requires Clean(db) && GoodName(m.receiver) && e in db && e.key == Key(m)
    ensures e.value.Held? && e.value.letter.id == m.id && e.value.letter in BoxIn(db, m.receiver)
  {
    ScannedBelongs(db, e, m.receiver);
    assert Prefix(m.receiver) <= Key(m);
    KeyInjective(e.value.letter, m);
    BoxInMembers(db, m.receiver, e.value.letter);
  }

  // ---------- polls ----------

  /** The mailbox seen so far and the mailbox still ahead of a scan at position i. */
  lemma {:induction false} SplitAt(db: Db, i: nat, a: string)
    requires i < |db|
    ensures var x := if Belongs(db[i], a) then [db[i].value.letter] else [];
            && BoxIn(db[..i + 1], a) == BoxIn(db[..i], a) + x
            && BoxIn(db[i..], a) == x + BoxIn(db[i + 1..], a)
  {
    assert db[..i + 1] == db[..i] + [db[i]];
    BoxInConcat(db[..i], [db[i]], a);
    assert BoxIn([db[i]], a) == if Belongs(db[i], a) then [db[i].value.letter] else [];
    assert db[i..][1..] == db[i + 1..];
  }

  /** Handing out one letter of the scan. */
  lemma {:induction false} HandOverAt(db: Db, a: string, i: nat, now: nat)
    requires Clean(db) && i < |db| && Belongs(db[i], a)
    ensures var m := HandOver(db[i].value.letter, now); var r := db[i := Entry(db[i].key, Held(m))];
            && Clean(r)
            && BoxIn(r[..i + 1], a) == BoxIn(db[..i], a) + [m]
            && r[i + 1..] == db[i + 1..]
            && BoxIn(r, a) == BoxIn(db[..i], a) + [m] + BoxIn(db[i + 1..], a)
            && forall b :: b != a ==> BoxIn(r, b) == BoxIn(db, b)
  {
    var m := HandOver(db[i].value.letter, now);
    var r := db[i := Entry(db[i].key, Held(m))];
    CleanReplace(db, i, m);
    SplitAt(r, i, a);
    assert r[..i] == db[..i] && r[i + 1..] == db[i + 1..];
    BoxAround(r, i, a);
    forall b | b != a ensures BoxIn(r, b) == BoxIn(db, b) {
      ReplaceInBox(db, i, m, b);
    }
  }

  /** What a poll of an agent's mailbox is meant to have done. */
  ghost predicate PollResult(before: Db, p: PolledDb, a: string, goal: Drained) {
    && p.readable && Clean(p.db)
    && Drained(BoxIn(p.db, a), p.out) == goal
    && forall b :: b != a ==> BoxIn(p.db, b) == BoxIn(before, b)
  }

  function PollGoal(db: Db, a: string, i: nat, out: seq<Letter>, limit: nat, now: nat): Drained
    requires i <= |db| && (|out| == 0 || |out| < limit)
  {
    MemoryStore.After(BoxIn(db[..i], a), out, Drain(BoxIn(db[i..], a), limit - |out|, now))
  }

  lemma {:induction false} PollSkips(db: Db, a: string, i: nat, out: seq<Letter>, limit: nat, now: nat)
    requires i < |db| && (|out| == 0 || |out| < limit)
    requires !Belongs(db[i], a) || db[i].value.letter.status != Queued
    ensures PollGoal(db, a, i, out, limit, now) == PollGoal(db, a, i + 1, out, limit, now)
  {
    SplitAt(db, i, a);
    var front, ahead := BoxIn(db[..i], a), BoxIn(db[i + 1..], a);
    if Belongs(db[i], a) {
      MemoryStore.DrainSkips(front, out, BoxIn(db[i..], a), limit - |out|, now);
    } else {
      assert front + [] == front && [] + ahead == ahead;
    }
  }

  lemma {:induction false} PollTakes(db: Db, a: string, i: nat, out: seq<Letter>, limit: nat, now: nat)
    requires Clean(db) && i < |db| && |out| + 1 < limit
    requires Belongs(db[i], a) && db[i].value.letter.status == Queued
    ensures var m := HandOver(db[i].value.letter, now);
            PollGoal(db, a, i, out, limit, now) == PollGoal(db[i := Entry(db[i].key, Held(m))], a, i + 1, out + [m], limit, now)
  {
    SplitAt(db, i, a);
    HandOverAt(db, a, i, now);
    MemoryStore.DrainTakes(BoxIn(db[..i], a), out, BoxIn(db[i..], a), limit - |out|, now, HandOver(db[i].value.letter, now));
  }

  lemma {:induction false} PollStops(db: Db, a: string, i: nat, out: seq<Letter>, limit: nat, now: nat)
    requires Clean(db) && i < |db| && (|out| == 0 || |out| < limit) && |out| + 1 >= limit
    requires Belongs(db[i], a) && db[i].value.letter.status == Queued
    ensures var m := HandOver(db[i].value.letter, now);
            PollGoal(db, a, i, out, limit, now) == Drained(BoxIn(db[i := Entry(db[i].key, Held(m))], a), out + [m])
  {
    SplitAt(db, i, a);
    HandOverAt(db, a, i, now);
    MemoryStore.DrainStops(BoxIn(db[..i], a), out, BoxIn(db[i..], a), limit - |out|, now, HandOver(db[i].value.letter, now));
  }

  /** Polling the tree drains the mailbox it holds, and leaves every other mailbox alone. */
  lemma {:induction false} PollInBox(db: Db, a: string, i: nat, out: seq<Letter>, limit: nat, now: nat)
    requires Clean(db) && GoodName(a) && i <= |db|
    requires |out| == 0 || |out| < limit
    ensures PollResult(db, PollFrom(db, a, i, out, limit, now), a, PollGoal(db, a, i, out, limit, now))
    decreases |db| - i
  {
    if i == |db| {
      assert db[..i] == db && BoxIn(db, a) + [] == BoxIn(db, a) && out + [] == out;
    } else {
      ScannedBelongs(db, db[i], a);
      if !Belongs(db[i], a) || db[i].value.letter.status != Queued {
        PollSkips(db, a, i, out, limit, now);
        PollInBox(db, a, i + 1, out, limit, now);
      } else {
        HandOverAt(db, a, i, now);
        var m := HandOver(db[i].value.letter, now);
        if |out| + 1 >= limit {
          PollStops(db, a, i, out, limit, now);
        } else {
          PollTakes(db, a, i, out, limit, now);
          PollInBox(db[i := Entry(db[i].key, Held(m))], a, i + 1, out + [m], limit, now);
        }
      }
    }
  }

  // ---------- revival ----------

  /** The letters of a mailbox among some ids, revived. */
  function ReviveIn(ids: set<string>): Letter -> Letter {
    (m: Letter) => if m.id in ids then MemoryStore.ReviveLetter(m) else m
  }

  function IdsOf(s: seq<Letter>): set<string> { set m | m in s :: m.id }

  lemma {:induction false} ReviveLookup(box: seq<Letter>, ids: set<string>, c: Letter)
    requires DistinctIds(box) && c in box && c.id !in ids
    ensures var cur := Map(ReviveIn(ids), box); var k := IndexOf(cur, c.id);
            k < |box| && box[k] == c && cur[k] == c
  {
    var cur := Map(ReviveIn(ids), box);
    var j :| 0 <= j < |box| && box[j] == c;
    IndexOfDistinct(box, j);
    IndexOfSameIds(cur, box, c.id);
    assert cur[j] == c;
  }

  lemma {:induction false} ReviveOneMore(box: seq<Letter>, ids: set<string>, k: nat)
    requires DistinctIds(box) && k < |box|
    ensures Map(ReviveIn(ids), box)[k := MemoryStore.ReviveLetter(box[k])] == Map(ReviveIn(ids + {box[k].id}), box)
  {
    var want := Map(ReviveIn(ids + {box[k].id}), box);
    forall x | 0 <= x < |box| ensures Map(ReviveIn(ids), box)[k := MemoryStore.ReviveLetter(box[k])][x] == want[x] {
      assert box[x].id == box[k].id ==> x == k;
    }
  }

  /** A candidate is found, in its original state, and the table revives it. */
  lemma {:induction false} ReviveFinds(db: Db, a: string, box: seq<Letter>, ids: set<string>, c: Letter)
    requires Clean(db) && GoodName(a) && DistinctIds(box)
    requires BoxIn(db, a) == Map(ReviveIn(ids), box)
    requires c in box && MemoryStore.Revivable(c) && c.id !in ids
    ensures var h := Search(db, a, c.id, 0);
            && h.Found? && db[h.at].value.letter == c && Belongs(db[h.at], a)
            && |BoxIn(db[..h.at], a)| == IndexOf(BoxIn(db, a), c.id)
    ensures EditAnswer(db, a, c.id, ReviveEdit()) == Edited(MemoryStore.ReviveLetter(c), false)
    ensures EditedDb(db, a, c.id, ReviveEdit()) == Insert(db, Key(c), Held(MemoryStore.ReviveLetter(c)))
  {
    ReviveLookup(box, ids, c);
    FoundIsLookup(db, a, c.id);
  }

  /** One candidate of the revival loop comes back revived, and nothing else moves. */
  lemma {:induction false} ReviveStep(db: Db, a: string, box: seq<Letter>, ids: set<string>, c: Letter)
    requires Clean(db) && GoodName(a) && DistinctIds(box)
    requires BoxIn(db, a) == Map(ReviveIn(ids), box)
    requires c in box && MemoryStore.Revivable(c) && c.id !in ids
    ensures var r := Insert(db, Key(c), Held(MemoryStore.ReviveLetter(c)));
            && Clean(r)
            && BoxIn(r, a) == Map(ReviveIn(ids + {c.id}), box)
            && (forall b :: b != a ==> BoxIn(r, b) == BoxIn(db, b))
  {
    ReviveFinds(db, a, box, ids, c);
    ReviveLookup(box, ids, c);
    var k, i := IndexOf(BoxIn(db, a), c.id), Search(db, a, c.id, 0).at;
    var m := MemoryStore.ReviveLetter(c);
    assert SameEnvelope(c, m) && Key(m) == Key(c);
    WriteBack(db, a, i, k, m);
    assert BoxIn(Insert(db, Key(c), Held(m)), a) == Map(ReviveIn(ids + {c.id}), box) by {
      ReviveOneMore(box, ids, k);
    }
  }

  lemma {:induction false} NextId(s: seq<Letter>, i: nat)
    requires i < |s| && DistinctIds(s)
    ensures s[i].id !in IdsOf(s[..i]) && IdsOf(s[..i + 1]) == IdsOf(s[..i]) + {s[i].id}
  {
    assert s[..i + 1] == s[..i] + [s[i]];
  }

  lemma {:induction false} NextRevived(s: seq<Letter>, i: nat, revived: seq<Letter>)
    requires i < |s|
    ensures revived + Map(MemoryStore.ReviveLetter, s[i..]) ==
            revived + [MemoryStore.ReviveLetter(s[i])] + Map(MemoryStore.ReviveLetter, s[i + 1..])
  {}

  lemma {:induction false} ReviveInBox(db: Db, a: string, box: seq<Letter>, candidates: seq<Letter>, i: nat, revived: seq<Letter>)
    requires Clean(db) && GoodName(a) && DistinctIds(box) && i <= |candidates|
    requires DistinctIds(candidates)
    requires forall c :: c in candidates ==> c in box && MemoryStore.Revivable(c)
    requires BoxIn(db, a) == Map(ReviveIn(IdsOf(candidates[..i])), box)
    ensures var r := ReviveAll(db, a, candidates, i, revived);
            && Clean(r.db)
            && BoxIn(r.db, a) == Map(ReviveIn(IdsOf(candidates)), box)
            && r.revived == revived + Map(MemoryStore.ReviveLetter, candidates[i..])
            && forall b :: b != a ==> BoxIn(r.db, b) == BoxIn(db, b)
    decreases |candidates| - i
  {
    if i == |candidates| {
      assert candidates[..i] == candidates;
      assert revived + Map(MemoryStore.ReviveLetter, candidates[i..]) == revived;
    } else {
      var c := candidates[i];
      assert c in candidates;
      ReviveFinds(db, a, box, IdsOf(candidates[..i]), c);
      ReviveStep(db, a, box, IdsOf(candidates[..i]), c);
      NextId(candidates, i);
      var m := MemoryStore.ReviveLetter(c);
      assert Appended(revived, Edited(m, false)) == revived + [m];
      ReviveInBox(EditedDb(db, a, c.id, ReviveEdit()), a, box, candidates, i + 1, revived + [m]);
      NextRevived(candidates, i, revived);
    }
  }

  /** Revival in the tree: exactly the mailbox's letters that died on a credential problem
      come back queued, and they are what is returned. */
  lemma {:induction false} RevivalInBox(db: Db, a: string)
    requires Clean(db) && GoodName(a) && DistinctIds(BoxIn(db, a))
    ensures var candidates := Fifo(Select(db, IsCandidate(a)));
            var r := ReviveAll(db, a, candidates, 0, []);
            && Clean(r.db)
            && BoxIn(r.db, a) == Map(MemoryStore.ReviveLetter, BoxIn(db, a))
            && r.revived == Map(MemoryStore.ReviveLetter, candidates)
            && (forall b :: b != a ==> BoxIn(r.db, b) == BoxIn(db, b))
            && forall c :: c in candidates <==> c in BoxIn(db, a) && MemoryStore.Revivable(c)
  {
    var box := BoxIn(db, a);
    var chosen := Select(db, IsCandidate(a));
    CandidatesOfBox(db, a);
    var candidates := Fifo(chosen);
    FifoSorts(chosen);
    FifoStrict(chosen);
    assert candidates[..0] == [] && candidates[0..] == candidates;
    assert Map(ReviveIn({}), box) == box;
    ReviveInBox(db, a, box, candidates, 0, []);
    assert [] + Map(MemoryStore.ReviveLetter, candidates) == Map(MemoryStore.ReviveLetter, candidates);
    forall k | 0 <= k < |box| ensures ReviveIn(IdsOf(candidates))(box[k]) == MemoryStore.ReviveLetter(box[k]) {
      if box[k].id in IdsOf(candidates) {
        var c :| c in candidates && c.id == box[k].id;
        assert c in box;
      }
      assert box[k] in box;
    }
    assert Map(ReviveIn(IdsOf(candidates)), box) == Map(MemoryStore.ReviveLetter, box);
  }

  lemma {:induction false} CandidatesOfBox(db: Db, a: string)
    requires DistinctIds(BoxIn(db, a))
    ensures forall c :: c in Select(db, IsCandidate(a)) <==> c in BoxIn(db, a) && MemoryStore.Revivable(c)
    ensures DistinctIds(Select(db, IsCandidate(a)))
  {
    if db != [] {
      assert Belongs(db[0], a) ==> BoxIn(db, a)[1..] == BoxIn(db[1..], a);
      CandidatesOfBox(db[1..], a);
      forall c | Belongs(db[0], a) && c in BoxIn(db[1..], a) 
        ensures c.id != db[0].value.letter.id
      {
        var k :| 0 <= k < |BoxIn(db[1..], a)| && BoxIn(db[1..], a)[k] == c;
        assert BoxIn(db, a)[k + 1] == c && BoxIn(db, a)[0] == db[0].value.letter;
      }
    }
  }

  // ---------- deletions and markers ----------

  /** Cutting one entry out drops its letter from its own mailbox only. */
  lemma {:induction false} CutInBox(db: Db, i: nat, a: string)
    requires i < |db|
    ensures var k := |BoxIn(db[..i], a)|;
            if Belongs(db[i], a)
            then k < |BoxIn(db, a)| && BoxIn(db, a)[k] == db[i].value.letter
                 && BoxIn(db[..i] + db[i + 1..], a) == Without(BoxIn(db, a), k)
            else BoxIn(db[..i] + db[i + 1..], a) == BoxIn(db, a)
  {
    BoxAround(db, i, a);
    BoxInConcat(db[..i], db[i + 1..], a);
  }

  lemma {:induction false} CleanUpInBox(db: Db, a: string)
    requires Clean(db)
    ensures BoxIn(Unremovable(db), a) == []
    ensures forall e :: e in Unremovable(db) ==> e in db
    ensures KeySorted(Unremovable(db))
  {
    if db != [] {
      CleanUpInBox(db[1..], a);
      assert db[0] in db;
      if db[0].value.Held? {
        ScannedBelongs(db, db[0], db[0].value.letter.receiver);
        NotReserved(db[0].value.letter);
      }
      var r := Unremovable(db[1..]);
      forall j | 0 <= j < |r| ensures StrLt(db[0].key, r[j].key) {
        assert r[j] in db[1..];
      }
    }
  }

  lemma {:induction false} NotReserved(m: Letter)
    requires GoodName(m.receiver)
    ensures !(Prefix(AGENT_MARK) <= Key(m))
  {
    ScanExact(AGENT_MARK, m);
  }

  /** Writing an agent marker disturbs no mailbox. */
  lemma {:induction false} MarkInBox(db: Db, known: string, a: string)
    requires Clean(db)
    ensures BoxIn(Insert(db, MarkerKey(known), Marker), a) == BoxIn(db, a)
  {
    if db != [] && !StrLt(MarkerKey(known), db[0].key) {
      assert db[0] in db;
      if db[0].value.Held? {
        NotReserved(db[0].value.letter);
      }
      MarkInBox(db[1..], known, a);
    }
  }

  lemma {:induction false} MarkKeepsClean(db: Db, known: string)
    requires Clean(db)
    ensures Clean(Insert(db, MarkerKey(known), Marker))
  {
    InsertKeepsOrder(db, MarkerKey(known), Marker);
    InsertKeys(db, MarkerKey(known), Marker);
  }

  /** Removing an agent marker disturbs no mailbox. */
  lemma {:induction false} UnmarkInBox(db: Db, known: string, a: string)
    requires Clean(db)
    ensures BoxIn(Remove(db, MarkerKey(known)), a) == BoxIn(db, a)
  {
    if db != [] {
      assert db[0] in db;
      if db[0].value.Held? {
        NotReserved(db[0].value.letter);
      }
      UnmarkInBox(db[1..], known, a);
    }
  }

  // ---------- what the scans meet ----------

  /** From position i to k the scan meets letters with other ids only. */
  ghost predicate PassedBy(db: Db, agent: string, id: string, i: nat, k: nat)
    requires k <= |db|
  {
    forall j :: i <= j < k && agent + "::" <= db[j].key ==> db[j].value.Held? && db[j].value.letter.id != id
  }

  /** The scan of an agent's prefix ends at the first entry that is a marker, which breaks it, or
      the letter. */
  lemma {:induction false} SearchExactly(db: Db, agent: string, id: string, i: nat)
    requires i <= |db|
    ensures match Search(db, agent, id, i)
            case Found(k) => agent + "::" <= db[k].key && PassedBy(db, agent, id, i, k)
            case Broken => exists k: nat :: i <= k < |db| && agent + "::" <= db[k].key && db[k].value.Marker? && PassedBy(db, agent, id, i, k)
            case Missing => PassedBy(db, agent, id, i, |db|)
    decreases |db| - i
  {
    if i < |db| && !(Scanned(db[i], agent) && (db[i].value.Marker? || db[i].value.letter.id == id)) {
      SearchExactly(db, agent, id, i + 1);
    }
  }

  /** How many queued letters the scan meets from position i to k. */
  function QueuedIn(db: Db, agent: string, i: nat, k: nat): nat
    requires i <= k <= |db|
    decreases k - i
  {
    if i == k then 0
    else One(agent + "::" <= db[i].key && db[i].value.Held? && db[i].value.letter.status == Queued) + QueuedIn(db, agent, i + 1, k)
  }

  lemma {:induction false} QueuedBehind(db: Db, e: Entry, agent: string, h: nat, i: nat, k: nat)
    requires h < i <= k <= |db|
    ensures QueuedIn(db[h := e], agent, i, k) == QueuedIn(db, agent, i, k)
    decreases k - i
  {
    if i < k {
      QueuedBehind(db, e, agent, h, i + 1, k);
    }
  }

  /** The poll is stopped by a marker that it meets while its limit is not reached. */
  ghost predicate Stops(db: Db, agent: string, i: nat, taken: nat, limit: nat, k: nat)
    requires i <= |db|
  {
    && i <= k < |db| && agent + "::" <= db[k].key && db[k].value.Marker?
    && (QueuedIn(db, agent, i, k) == 0 || taken + QueuedIn(db, agent, i, k) < limit)
  }

  /** An entry that the scan passes over: of another agent, or a letter that is not queued. */
  lemma {:induction false} StopsBehindOther(db: Db, agent: string, i: nat, taken: nat, limit: nat, k: nat)
    requires i < |db| && (!Scanned(db[i], agent) || (db[i].value.Held? && db[i].value.letter.status != Queued))
    ensures Stops(db, agent, i, taken, limit, k) <==> Stops(db, agent, i + 1, taken, limit, k)
  {
    if i < k < |db| {
      assert QueuedIn(db, agent, i, k) == QueuedIn(db, agent, i + 1, k);
    }
  }

  /** A letter that the scan hands out. */
  lemma {:induction false} StopsBehindQueued(db: Db, e: Entry, agent: string, i: nat, taken: nat, limit: nat, k: nat)
    requires i < |db| && Scanned(db[i], agent) && db[i].value.Held? && db[i].value.letter.status == Queued
    ensures Stops(db, agent, i, taken, limit, k) <==> taken + 1 < limit && Stops(db[i := e], agent, i + 1, taken + 1, limit, k)
  {
    if i < k < |db| {
      assert QueuedIn(db, agent, i, k) == 1 + QueuedIn(db, agent, i + 1, k);
      QueuedBehind(db, e, agent, i, i + 1, k);
    }
  }

  /** A poll cannot be read exactly when it meets a marker. */
  lemma {:induction false} PollReadable(db: Db, agent: string, i: nat, out: seq<Letter>, limit: nat, now: nat)
    requires i <= |db|
    ensures !PollFrom(db, agent, i, out, limit, now).readable <==> exists k: nat :: Stops(db, agent, i, |out|, limit, k)
    decreases |db| - i
  {
    if i < |db| {
      var e, h := db[i], i + 1;
      if !Scanned(e, agent) || (e.value.Held? && e.value.letter.status != Queued) {
        PollReadable(db, agent, h, out, limit, now);
        forall k: nat ensures Stops(db, agent, i, |out|, limit, k) <==> Stops(db, agent, h, |out|, limit, k) {
          StopsBehindOther(db, agent, i, |out|, limit, k);
        }
      } else if e.value.Marker? {
        assert Stops(db, agent, i, |out|, limit, i);
      } else {
        var m := HandOver(e.value.letter, now);
        var db' := db[i := Entry(e.key, Held(m))];
        var out' := out + [m];
        if |out'| < limit {
          PollReadable(db', agent, h, out', limit, now);
          assert PollFrom(db, agent, i, out, limit, now) == PollFrom(db', agent, h, out', limit, now);
        }
        forall k: nat ensures Stops(db, agent, i, |out|, limit, k) <==> |out'| < limit && Stops(db', agent, h, |out'|, limit, k) {
          StopsBehindQueued(db, db'[i], agent, i, |out|, limit, k);
        }
      }
    }
  }

  /** A clean-up leaves the markers and what lies under the reserved prefix, and nothing else. */
  lemma {:induction false} UnremovableAre(db: Db)
    ensures forall e :: e in Unremovable(db) <==> e in db && (e.value.Marker? || "__agent__::" <= e.key)
  {
    if db != [] {
      UnremovableAre(db[1..]);
      assert forall e :: e in db <==> e == db[0] || e in db[1..];
      assert Prefix(AGENT_MARK) == "__agent__::";
    }
  }
}
