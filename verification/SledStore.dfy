/** The persistent backend: letters in one ordered tree, found by scanning a receiver's
    prefix and written back under their own key. Sequential use only: a scan followed by
    an insert is not one atomic step. */
module SledStore {
  import opened Basics
  import opened Text
  import opened Lifecycle
  import opened Mailbox
  import opened SledTree
  import MemoryStore

  const CAPACITY: nat := 1024

  // ---------- scanning ----------

  /** Every letter is stored under its own key, and every marker under the reserved prefix. */
  ghost predicate Keyed(db: Db) {
    forall e :: e in db ==>
      if e.value.Held? then e.key == Key(e.value.letter) else Prefix(AGENT_MARK) <= e.key
  }

  ghost predicate Valid(db: Db) { KeySorted(db) && Keyed(db) }

  predicate Scanned(e: Entry, agent: string) { Prefix(agent) <= e.key }

  function CountScanned(db: Db, agent: string): nat {
    if db == [] then 0 else (if Scanned(db[0], agent) then 1 else 0) + CountScanned(db[1..], agent)
  }

  datatype Hit = Found(at: nat) | Missing | Broken

  /** First letter with the id in the scan of an agent's prefix, from position i on; a marker
      met on the way cannot be read as a letter and breaks the scan. */
  function Search(db: Db, agent: string, id: string, i: nat): (h: Hit)
    requires i <= |db|
    ensures h.Found? ==> i <= h.at < |db| && db[h.at].value.Held? && db[h.at].value.letter.id == id
    decreases |db| - i
  {
    if i == |db| then Missing
    else if !Scanned(db[i], agent) then Search(db, agent, id, i + 1)
    else if db[i].value.Marker? then Broken
    else if db[i].value.letter.id == id then Found(i)
    else Search(db, agent, id, i + 1)
  }

  // ---------- updating one letter ----------

  /** What an update closure answers: the new letter, and whether a claim was won, or an error. */
  datatype Edit = Edited(letter: Letter, won: bool) | Aborted(error: BusError)

  const UNREADABLE: BusError := Storage("serde")

  function EditAnswer(db: Db, agent: string, id: string, update: Letter -> Edit): Edit {
    match Search(db, agent, id, 0)
    case Missing => Aborted(NotFound(id))
    case Broken => Aborted(UNREADABLE)
    case Found(i) => update(db[i].value.letter)
  }

  function EditedDb(db: Db, agent: string, id: string, update: Letter -> Edit): Db {
    match EditAnswer(db, agent, id, update)
    case Aborted(_) => db
    case Edited(m, _) => Insert(db, Key(m), Held(m))
  }

  /** The update closure an operation stands for. */
  function OpEdit(op: LetterOp, now: nat): Letter -> Edit {
    (m: Letter) =>
      if Refused(m, op) then Aborted(NotDeliverable(m.id, StatusName(m.status)))
      else Edited(BackendOp(Sled, m, op, now), op.OpClaim? && m.status == Queued)
  }

  /** Filing a result reads the clock twice, for the read receipt and for the filing. */
  function AckEdit(note: string, now: nat, later: nat): Letter -> Edit {
    (m: Letter) =>
      if Refused(m, OpAck(note)) then Aborted(NotDeliverable(m.id, StatusName(m.status)))
      else if m.status == Acked then Edited(m, false)
      else Edited(m.(status := Acked, readAt := if m.readAt == None then Some(now) else m.readAt,
                     ackedAt := Some(later), ackNote := Some(Clip(note))), false)
  }

  /** Within one clock reading, filing a result is the table's `ack` row. */
  lemma {:induction false} AckFollowsTable(note: string, now: nat, m: Letter)
    ensures AckEdit(note, now, now)(m) == OpEdit(OpAck(note), now)(m)
  {}

  lemma {:induction false} KillEditIs(m: Letter, reason: string, now: nat)
    ensures OpEdit(OpKill(reason), now)(m) ==
            match Apply(m.status, GiveUp(reason))
            case To(to) => Edited(if to == Dead then m.(status := to, deadReason := Some(reason)) else m.(status := to), false)
            case _ => Edited(m, false)
  {
    KillDoes(Sled, m, reason, now);
  }

  /** The revival closure asks the table only, not the reason again. */
  function ReviveEdit(): Letter -> Edit {
    (m: Letter) =>
      match Apply(m.status, ReviveAuth)
      case To(to) => Edited(m.(status := to, deadReason := None, lastError := None, attempts := 0), false)
      case _ => Edited(m, false)
  }

  /** Closures that answer alike for every letter edit alike. */
  lemma {:induction false} EditsAgree(db: Db, agent: string, id: string, f: Letter -> Edit, g: Letter -> Edit)
    requires forall m: Letter :: f(m) == g(m)
    ensures EditAnswer(db, agent, id, f) == EditAnswer(db, agent, id, g)
    ensures EditedDb(db, agent, id, f) == EditedDb(db, agent, id, g)
  {}

  function AsResult(e: Edit): Result<Letter> {
    match e
    case Edited(m, _) => Ok(m)
    case Aborted(error) => Err(error)
  }

  // ---------- whole-mailbox operations ----------

  datatype PolledDb = PolledDb(db: Db, out: seq<Letter>, readable: bool)

  /** The rest of the polling scan, from position i on. */
  function PollFrom(db: Db, agent: string, i: nat, out: seq<Letter>, limit: nat, now: nat): PolledDb
    requires i <= |db|
    decreases |db| - i
  {
    if i == |db| then PolledDb(db, out, true)
    else if !Scanned(db[i], agent) then PollFrom(db, agent, i + 1, out, limit, now)
    else if db[i].value.Marker? then PolledDb(db, out, false)
    else if db[i].value.letter.status != Queued then PollFrom(db, agent, i + 1, out, limit, now)
    else
      var m := HandOver(db[i].value.letter, now);
      var db' := db[i := Entry(db[i].key, Held(m))];
      if |out| + 1 >= limit then PolledDb(db', out + [m], true)
      else PollFrom(db', agent, i + 1, out + [m], limit, now)
  }

  /** The letters of the tree that satisfy a test, in key order; markers are not letters. */
  function Select(db: Db, test: Letter -> bool): seq<Letter> {
    if db == [] then []
    else if db[0].value.Held? && test(db[0].value.letter) then [db[0].value.letter] + Select(db[1..], test)
    else Select(db[1..], test)
  }

  function IsCandidate(agent: string): Letter -> bool {
    (m: Letter) => m.receiver == agent && MemoryStore.Revivable(m)
  }

  datatype RevivedDb = RevivedDb(db: Db, revived: seq<Letter>)

  /** The rest of the revival loop over a snapshot of candidates, from position i on. */
  function ReviveAll(db: Db, agent: string, candidates: seq<Letter>, i: nat, revived: seq<Letter>): RevivedDb
    requires i <= |candidates|
    decreases |candidates| - i
  {
    if i == |candidates| then RevivedDb(db, revived)
    else
      var answer := EditAnswer(db, agent, candidates[i].id, ReviveEdit());
      ReviveAll(EditedDb(db, agent, candidates[i].id, ReviveEdit()), agent, candidates, i + 1, Appended(revived, answer))
  }

  /** A letter counts as revived when its update went through and left it queued. */
  function Appended(revived: seq<Letter>, answer: Edit): seq<Letter> {
    if answer.Edited? && answer.letter.status == Queued then revived + [answer.letter] else revived
  }

  /** Position of the first letter with the id in the whole tree. */
  function Locate(db: Db, id: string): (i: nat)
    ensures i <= |db|
    ensures i < |db| ==> db[i].value.Held? && db[i].value.letter.id == id
    ensures forall j :: 0 <= j < i ==> !(db[j].value.Held? && db[j].value.letter.id == id)
  {
    if db == [] || (db[0].value.Held? && db[0].value.letter.id == id) then 0 else 1 + Locate(db[1..], id)
  }

  /** What a full clean-up removes: letters, except under the reserved prefix. */
  predicate Removable(e: Entry) {
    !(Prefix(AGENT_MARK) <= e.key) && e.value.Held?
  }

  function Unremovable(db: Db): Db {
    if db == [] then []
    else if Removable(db[0]) then Unremovable(db[1..])
    else [db[0]] + Unremovable(db[1..])
  }

  function RemovableKeys(db: Db): seq<string> {
    if db == [] then []
    else if Removable(db[0]) then [db[0].key] + RemovableKeys(db[1..])
    else RemovableKeys(db[1..])
  }

  /** The search of a single deletion, over the whole tree. */
  method LocateByScan(db: Db, id: string) returns (i: nat)
    ensures i == Locate(db, id)
  {
    i := 0;
    while i < |db|
      invariant i <= |db|
      invariant Locate(db, id) == i + Locate(db[i..], id)
    {
      assert db[i..][1..] == db[i + 1..];
      if db[i].value.Held? && db[i].value.letter.id == id {
        break;
      }
      i := i + 1;
    }
  }

  /** The removal loop of a full clean-up. */
  method RemoveKeys(db: Db, keys: seq<string>) returns (kept: Db)
    requires KeySorted(db) && keys == RemovableKeys(db)
    ensures kept == Unremovable(db) && |kept| + |keys| == |db|
  {
    kept := db;
    var i := 0;
    while i < |keys|
      invariant 0 <= i <= |keys|
      invariant KeySorted(kept) && RemovableKeys(kept) == keys[i..]
      invariant Unremovable(kept) == Unremovable(db)
      invariant i + |kept| == |db|
    {
      RemoveFirstRemovable(kept);
      assert keys[i..][1..] == keys[i + 1..];
      kept := Remove(kept, keys[i]);
      i := i + 1;
    }
    NothingRemovable(kept);
  }

  class SledStore {
    var db: Db

    constructor ()
      ensures db == []
    {
      db := [];
    }

    /** Find one letter in a receiver's prefix, edit it and write it back under its key. */
    method UpdateOne(agent: string, id: string, update: Letter -> Edit) returns (answer: Edit)
      modifies this
      ensures db == EditedDb(old(db), agent, id, update)
      ensures answer == EditAnswer(old(db), agent, id, update)
    {
      var i := 0;
      while i < |db|
        invariant 0 <= i <= |db|
        invariant db == old(db)
        invariant Search(db, agent, id, i) == Search(db, agent, id, 0)
      {
        if Prefix(agent) <= db[i].key {
          if db[i].value.Marker? {
            return Aborted(UNREADABLE);
          }
          var m := db[i].value.letter;
          if m.id == id {
            answer := update(m);
            if answer.Edited? {
              db := Insert(db, Key(answer.letter), Held(answer.letter));
            }
            return;
          }
        }
        i := i + 1;
      }
      return Aborted(NotFound(id));
    }

    method Push(m: Letter) returns (r: Result<()>)
      modifies this
      ensures db == if CountScanned(old(db), m.receiver) >= CAPACITY then old(db) else Insert(old(db), Key(m), Held(m))
      ensures r == if CountScanned(old(db), m.receiver) >= CAPACITY
                   then Err(MailboxFull(m.receiver, CAPACITY)) else Ok(())
    {
      if CountScanned(db, m.receiver) >= CAPACITY {
        return Err(MailboxFull(m.receiver, CAPACITY));
      }
      db := Insert(db, Key(m), Held(m));
      return Ok(());
    }

    method Poll(agent: string, limit: nat, now: nat) returns (r: Result<seq<Letter>>)
      requires Valid(db)
      modifies this
      ensures var p := PollFrom(old(db), agent, 0, [], limit, now);
              db == p.db && r == if p.readable then Ok(p.out) else Err(UNREADABLE)
      ensures Valid(db)
    {
      var out := [];
      var i := 0;
      while i < |db|
        invariant 0 <= i <= |db| && Valid(db)
        invariant PollFrom(db, agent, i, out, limit, now) == PollFrom(old(db), agent, 0, [], limit, now)
      {
        if Prefix(agent) <= db[i].key {
          if db[i].value.Marker? {
            return Err(UNREADABLE);
          }
          var m := db[i].value.letter;
          if m.status == Queued {
            m := m.(status := Delivered, deliveredAt := Some(now));
            ReplaceKeepsValid(db, i, m);
            InsertReplaces(db, i, Held(m));
            db := Insert(db, db[i].key, Held(m));
            out := out + [m];
            if |out| >= limit {
              return Ok(out);
            }
          }
        }
        i := i + 1;
      }
      return Ok(out);
    }

    method MarkDelivered(agent: string, id: string, now: nat) returns (r: Result<Letter>)
      modifies this
      ensures db == EditedDb(old(db), agent, id, OpEdit(OpDeliver, now))
      ensures r == AsResult(EditAnswer(old(db), agent, id, OpEdit(OpDeliver, now)))
    {
      var update := (m: Letter) =>
        Edited(if m.status == Queued then m.(status := Delivered, deliveredAt := Some(now)) else m, false);
      forall m: Letter ensures update(m) == OpEdit(OpDeliver, now)(m) {
        DeliverDoes(Sled, m, now);
      }
      EditsAgree(db, agent, id, update, OpEdit(OpDeliver, now));
      var answer := UpdateOne(agent, id, update);
      return AsResult(answer);
    }

    method MarkPushing(agent: string, id: string, now: nat) returns (r: Result<bool>)
      modifies this
      ensures db == EditedDb(old(db), agent, id, OpEdit(OpClaim, now))
      ensures r == match EditAnswer(old(db), agent, id, OpEdit(OpClaim, now))
                   case Edited(_, won) => Ok(won)
                   case Aborted(error) => Err(error)
    {
      var update := (m: Letter) =>
        if Apply(m.status, PushStarted) == To(Pushing)
        then Edited(m.(attempts := m.attempts + 1, lastPushAt := Some(now), status := Pushing), true)
        else Edited(m, false);
      EditsAgree(db, agent, id, update, OpEdit(OpClaim, now));
      var answer := UpdateOne(agent, id, update);
      match answer {
        case Edited(_, won) => return Ok(won);
        case Aborted(error) => return Err(error);
      }
    }

    method MarkPushOk(agent: string, id: string, now: nat) returns (r: Result<Letter>)
      modifies this
      ensures db == EditedDb(old(db), agent, id, OpEdit(OpPushOk, now))
      ensures r == AsResult(EditAnswer(old(db), agent, id, OpEdit(OpPushOk, now)))
    {
      var update := (m: Letter) =>
        match Apply(m.status, PushOk)
        case To(to) => Edited(if to == Delivered then m.(status := to, deliveredAt := Some(now)) else m.(status := to), false)
        case _ => Edited(m, false);
      EditsAgree(db, agent, id, update, OpEdit(OpPushOk, now));
      var answer := UpdateOne(agent, id, update);
      return AsResult(answer);
    }

    method MarkPushFailed(agent: string, id: string, reason: string, now: nat) returns (r: Result<Letter>)
      modifies this
      ensures db == EditedDb(old(db), agent, id, OpEdit(OpPushFailed(reason), now))
      ensures r == AsResult(EditAnswer(old(db), agent, id, OpEdit(OpPushFailed(reason), now)))
    {
      var authErr := IsAuth(reason);
      var update := (m: Letter) =>
        var noted := m.(lastError := Some(reason));
        var e := if ShouldGiveUp(noted.attempts) && !authErr then GiveUp(reason) else PushRejected(reason);
        match Apply(noted.status, e)
        case To(to) =>
          Edited(if e.GiveUp? then noted.(status := to, deadReason := Some(reason)) else noted.(status := to), false)
        case _ => Edited(noted, false);
      EditsAgree(db, agent, id, update, OpEdit(OpPushFailed(reason), now));
      var answer := UpdateOne(agent, id, update);
      return AsResult(answer);
    }

    method ReclaimStalePushing(agent: string, id: string, reason: string, now: nat) returns (r: Result<Letter>)
      modifies this
      ensures db == EditedDb(old(db), agent, id, OpEdit(OpReclaim(reason), now))
      ensures r == AsResult(EditAnswer(old(db), agent, id, OpEdit(OpReclaim(reason), now)))
    {
      var update := (m: Letter) =>
        var noted := m.(lastError := Some(reason));
        match Apply(noted.status, PushRejected(reason))
        case To(to) => Edited(noted.(status := to), false)
        case _ => Edited(noted, false);
      EditsAgree(db, agent, id, update, OpEdit(OpReclaim(reason), now));
      var answer := UpdateOne(agent, id, update);
      return AsResult(answer);
    }

    method MarkDead(agent: string, id: string, reason: string, now: nat) returns (r: Result<Letter>)
      modifies this
      ensures db == EditedDb(old(db), agent, id, OpEdit(OpKill(reason), now))
      ensures r == AsResult(EditAnswer(old(db), agent, id, OpEdit(OpKill(reason), now)))
    {
      var update := (m: Letter) =>
        match Apply(m.status, GiveUp(reason))
        case To(to) => Edited(if to == Dead then m.(status := to, deadReason := Some(reason)) else m.(status := to), false)
        case _ => Edited(m, false);
      forall m: Letter ensures update(m) == OpEdit(OpKill(reason), now)(m) {
        KillEditIs(m, reason, now);
      }
      EditsAgree(db, agent, id, update, OpEdit(OpKill(reason), now));
      var answer := UpdateOne(agent, id, update);
      return AsResult(answer);
    }

    method MarkRead(agent: string, id: string, now: nat) returns (r: Result<Letter>)
      modifies this
      ensures db == EditedDb(old(db), agent, id, OpEdit(OpRead, now))
      ensures r == AsResult(EditAnswer(old(db), agent, id, OpEdit(OpRead, now)))
    {
      var update := (m: Letter) =>
        if m.status != Delivered then Aborted(NotDeliverable(m.id, StatusName(m.status)))
        else Edited(m.(status := Read, readAt := Some(now)), false);
      forall m: Letter ensures update(m) == OpEdit(OpRead, now)(m) {
        ReadDoes(Sled, m, now);
      }
      EditsAgree(db, agent, id, update, OpEdit(OpRead, now));
      var answer := UpdateOne(agent, id, update);
      return AsResult(answer);
    }

    method AckLetter(agent: string, id: string, note: string, now: nat, later: nat) returns (r: Result<Letter>)
      requires now <= later
      modifies this
      ensures db == EditedDb(old(db), agent, id, AckEdit(note, now, later))
      ensures r == AsResult(EditAnswer(old(db), agent, id, AckEdit(note, now, later)))
    {
      var update := (m: Letter) =>
        if m.status == Acked then Edited(m, false)
        else if m.status != Delivered && m.status != Read then Aborted(NotDeliverable(m.id, StatusName(m.status)))
        else
          var seen := if m.readAt == None then m.(readAt := Some(now)) else m;
          Edited(seen.(status := Acked, ackedAt := Some(later), ackNote := Some(Clip(note))), false);
      EditsAgree(db, agent, id, update, AckEdit(note, now, later));
      var answer := UpdateOne(agent, id, update);
      return AsResult(answer);
    }

    /** Letters that satisfy a test, FIFO ordered. */
    method Collect(test: Letter -> bool) returns (out: seq<Letter>)
      ensures out == Fifo(Select(db, test))
    {
      var found := [];
      var i := 0;
      while i < |db|
        invariant 0 <= i <= |db|
        invariant Select(db, test) == found + Select(db[i..], test)
      {
        assert db[i..][1..] == db[i + 1..];
        if db[i].value.Held? && test(db[i].value.letter) {
          Append3(found, db[i].value.letter, Select(db[i + 1..], test));
          found := found + [db[i].value.letter];
        }
        i := i + 1;
      }
      assert found + [] == found;
      return Fifo(found);
    }

    method ListAll() returns (out: seq<Letter>)
      ensures out == Fifo(Select(db, (m: Letter) => true))
    {
      out := Collect((m: Letter) => true);
    }

    method ReviveAuthDead(agent: string) returns (revived: seq<Letter>)
      modifies this
      ensures var r := ReviveAll(old(db), agent, Fifo(Select(old(db), IsCandidate(agent))), 0, []);
              db == r.db && revived == r.revived
    {
      var candidates := Collect(IsCandidate(agent));
      revived := [];
      ghost var goal := ReviveAll(db, agent, candidates, 0, []);
      var i := 0;
      while i < |candidates|
        invariant 0 <= i <= |candidates|
        invariant ReviveAll(db, agent, candidates, i, revived) == goal
      {
        var answer := UpdateOne(agent, candidates[i].id, ReviveEdit());
        if answer.Edited? && answer.letter.status == Queued {
          revived := revived + [answer.letter];
        }
        i := i + 1;
      }
    }

    method DeleteOne(id: string) returns (r: Result<Letter>)
      requires Valid(db)
      modifies this
      ensures Valid(db)
      ensures var i := Locate(old(db), id);
              if i == |old(db)| then db == old(db) && r == Err(NotFound(id))
              else db == old(db)[..i] + old(db)[i + 1..] && r == Ok(old(db)[i].value.letter)
    {
      var i := LocateByScan(db, id);
      if i == |db| {
        return Err(NotFound(id));
      }
      var m := db[i].value.letter;
      RemoveCuts(db, i);
      CutKeepsOrder(db, i);
      db := Remove(db, db[i].key);
      return Ok(m);
    }

    method DeleteAll() returns (removed: nat)
      requires Valid(db)
      modifies this
      ensures db == Unremovable(old(db)) && removed == |old(db)| - |db|
    {
      removed := 0;
      var keys := [];
      var i := 0;
      while i < |db|
        invariant 0 <= i <= |db| && db == old(db)
        invariant RemovableKeys(db) == keys + RemovableKeys(db[i..])
      {
        assert db[i..][1..] == db[i + 1..];
        if !(Prefix(AGENT_MARK) <= db[i].key) && db[i].value.Held? {
          Append3(keys, db[i].key, RemovableKeys(db[i + 1..]));
          keys := keys + [db[i].key];
        }
        i := i + 1;
      }
      assert keys + [] == keys;
      var kept := RemoveKeys(db, keys);
      db := kept;
      removed := |keys|;
    }

    method Register(agent: string)
      modifies this
      ensures db == Insert(old(db), MarkerKey(agent), Marker)
    {
      db := Insert(db, MarkerKey(agent), Marker);
    }

    method Unregister(agent: string)
      modifies this
      ensures db == Remove(old(db), MarkerKey(agent))
    {
      db := Remove(db, MarkerKey(agent));
    }
  }

  lemma {:induction false} ReplaceKeepsValid(db: Db, i: nat, m: Letter)
    requires Valid(db) && i < |db| && db[i].value.Held? && SameEnvelope(db[i].value.letter, m)
    ensures Valid(db[i := Entry(db[i].key, Held(m))])
  {}

  lemma {:induction false} RemoveFirstRemovable(db: Db)
    requires KeySorted(db) && RemovableKeys(db) != []
    ensures var r := Remove(db, RemovableKeys(db)[0]);
            && KeySorted(r) && |r| == |db| - 1
            && RemovableKeys(r) == RemovableKeys(db)[1..]
            && Unremovable(r) == Unremovable(db)
            && (forall e :: e in r ==> e in db)
  {
    if !Removable(db[0]) {
      RemoveFirstRemovable(db[1..]);
      KeyOfRest(db);
      var r := Remove(db[1..], RemovableKeys(db)[0]);
      forall j | 0 <= j < |r| ensures StrLt(db[0].key, r[j].key) {
        assert r[j] in r;
      }
    }
  }

  lemma {:induction false} KeyOfRest(db: Db)
    requires KeySorted(db) && db != [] && !Removable(db[0]) && RemovableKeys(db) != []
    ensures db[0].key != RemovableKeys(db)[0]
  {
    StrLtIrreflexive(db[0].key);
    RemovableKeyIn(db[1..]);
  }

  lemma {:induction false} RemovableKeyIn(db: Db)
    requires RemovableKeys(db) != []
    ensures exists e :: e in db && e.key == RemovableKeys(db)[0]
  {
    if Removable(db[0]) {
      assert db[0] in db;
    } else {
      RemovableKeyIn(db[1..]);
    }
  }

  lemma {:induction false} NothingRemovable(db: Db)
    requires RemovableKeys(db) == []
    ensures Unremovable(db) == db
  {
    if db != [] {
      NothingRemovable(db[1..]);
    }
  }

  // ---------- what the tree answers ----------

  /** Filing in the tree: the letter when it has reached its receiver, filed already or not, and
      a refusal with its status when it has not. */
  lemma {:induction false} AckEditIsAnswered(db: Db, agent: string, id: string, note: string, now: nat, later: nat)
    requires Search(db, agent, id, 0).Found?
    ensures var m, r := db[Search(db, agent, id, 0).at].value.letter, EditAnswer(db, agent, id, AckEdit(note, now, later));
            && (m.status == Acked ==> r == Edited(m, false))
            && (m.status == Delivered || m.status == Read ==>
                  r == Edited(m.(status := Acked, ackedAt := Some(later), readAt := if m.readAt.Some? then m.readAt else Some(now),
                                 ackNote := Some(if |note| <= 80 then note else note[..80])), false))
            && (m.status == Queued ==> r == Aborted(NotDeliverable(id, "Queued")))
            && (m.status == Pushing ==> r == Aborted(NotDeliverable(id, "Pushing")))
            && (m.status == Dead ==> r == Aborted(NotDeliverable(id, "Dead")))
  {}

  /** The same within one reading of the clock. */
  lemma {:induction false} AckOpIsAnswered(db: Db, agent: string, id: string, note: string, now: nat)
    requires Search(db, agent, id, 0).Found?
    ensures var m, r := db[Search(db, agent, id, 0).at].value.letter, EditAnswer(db, agent, id, OpEdit(OpAck(note), now));
            && (m.status == Acked ==> r == Edited(m, false))
            && (r.Edited? <==> m.status == Delivered || m.status == Read || m.status == Acked)
            && (r.Edited? ==> r.letter.status == Acked)
            && (m.status == Queued ==> r == Aborted(NotDeliverable(id, "Queued")))
            && (m.status == Pushing ==> r == Aborted(NotDeliverable(id, "Pushing")))
            && (m.status == Dead ==> r == Aborted(NotDeliverable(id, "Dead")))
  {
    AckDoes(Sled, db[Search(db, agent, id, 0).at].value.letter, note, now);
  }

  /** Reading in the tree: the letter exactly when it is delivered and not read yet. */
  lemma {:induction false} ReadOpIsAnswered(db: Db, agent: string, id: string, now: nat)
    requires Search(db, agent, id, 0).Found?
    ensures var m, r := db[Search(db, agent, id, 0).at].value.letter, EditAnswer(db, agent, id, OpEdit(OpRead, now));
            && (m.status == Delivered ==> r == Edited(m.(status := Read, readAt := Some(now)), false))
            && (m.status == Queued ==> r == Aborted(NotDeliverable(id, "Queued")))
            && (m.status == Pushing ==> r == Aborted(NotDeliverable(id, "Pushing")))
            && (m.status == Read ==> r == Aborted(NotDeliverable(id, "Read")))
            && (m.status == Acked ==> r == Aborted(NotDeliverable(id, "Acked")))
            && (m.status == Dead ==> r == Aborted(NotDeliverable(id, "Dead")))
  {
    ReadDoes(Sled, db[Search(db, agent, id, 0).at].value.letter, now);
  }

  /** A claim in the tree is won exactly on a queued letter, and leaves any other as it is. */
  lemma {:induction false} ClaimOpIsAnswered(db: Db, agent: string, id: string, now: nat)
    requires Search(db, agent, id, 0).Found?
    ensures var m, r := db[Search(db, agent, id, 0).at].value.letter, EditAnswer(db, agent, id, OpEdit(OpClaim, now));
            r == if m.status == Queued
                 then Edited(m.(status := Pushing, attempts := m.attempts + 1, lastPushAt := Some(now)), true)
                 else Edited(m, false)
  {
    ClaimDoes(Sled, db[Search(db, agent, id, 0).at].value.letter, now);
  }
}
