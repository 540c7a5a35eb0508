/** The ordered key-value tree under the persistent backend, and the keys it uses. */
module SledTree {
  import opened Text
  import opened Lifecycle

  /** A value is the empty marker of a known agent or a serialized letter. */
  datatype Value = Marker | Held(letter: Letter)
  datatype Entry = Entry(key: string, value: Value)

  /** The tree, as its entries in key order. */
  type Db = seq<Entry>

  ghost predicate KeySorted(db: Db) {
    forall i, j :: 0 <= i < j < |db| ==> StrLt(db[i].key, db[j].key)
  }

  function Insert(db: Db, key: string, value: Value): Db {
    if db == [] || StrLt(key, db[0].key) then [Entry(key, value)] + db
    else if key == db[0].key then [Entry(key, value)] + db[1..]
    else [db[0]] + Insert(db[1..], key, value)
  }

  function Remove(db: Db, key: string): Db {
    if db == [] then []
    else if db[0].key == key then db[1..]
    else [db[0]] + Remove(db[1..], key)
  }

  lemma {:induction false} InsertKeys(db: Db, key: string, value: Value)
    ensures Entry(key, value) in Insert(db, key, value)
    ensures forall e :: e in Insert(db, key, value) ==> e == Entry(key, value) || e in db
  {
    if db != [] && !StrLt(key, db[0].key) && key != db[0].key {
      InsertKeys(db[1..], key, value);
    }
  }

  lemma {:induction false} InsertKeepsOrder(db: Db, key: string, value: Value)
    requires KeySorted(db)
    ensures KeySorted(Insert(db, key, value))
  {
    var r := Insert(db, key, value);
    if db == [] {
    } else if StrLt(key, db[0].key) {
      forall j | 0 < j < |r| ensures StrLt(key, r[j].key) {
        if 1 < j {
          StrLtTransitive(key, db[0].key, db[j - 1].key);
        }
      }
    } else if key == db[0].key {
    } else {
      StrLtTotal(key, db[0].key);
      InsertKeepsOrder(db[1..], key, value);
      InsertKeys(db[1..], key, value);
      forall j | 0 < j < |r| ensures StrLt(db[0].key, r[j].key) {
        assert r[j] in Insert(db[1..], key, value);
      }
    }
  }

  /** Writing under a key that exists replaces that entry and nothing else. */
  lemma {:induction false} InsertReplaces(db: Db, i: nat, value: Value)
    requires KeySorted(db) && i < |db|
    ensures Insert(db, db[i].key, value) == db[i := Entry(db[i].key, value)]
  {
    if i == 0 {
      StrLtIrreflexive(db[0].key);
    } else {
      StrLtAsymmetric(db[0].key, db[i].key);
      StrLtIrreflexive(db[0].key);
      InsertReplaces(db[1..], i - 1, value);
      assert db[i := Entry(db[i].key, value)] == [db[0]] + db[1..][i - 1 := Entry(db[i].key, value)];
    }
  }

  lemma {:induction false} RemoveCuts(db: Db, i: nat)
    requires KeySorted(db) && i < |db|
    ensures Remove(db, db[i].key) == db[..i] + db[i + 1..]
  {
    if i > 0 {
      StrLtIrreflexive(db[i].key);
      RemoveCuts(db[1..], i - 1);
      assert db[..i] + db[i + 1..] == [db[0]] + (db[1..][..i - 1] + db[1..][i..]);
    }
  }

  lemma {:induction false} CutKeepsOrder(db: Db, i: nat)
    requires KeySorted(db) && i < |db|
    ensures KeySorted(db[..i] + db[i + 1..])
  {
    var r := db[..i] + db[i + 1..];
    forall j, k | 0 <= j < k < |r| ensures StrLt(r[j].key, r[k].key) {
      assert r[j] == db[if j < i then j else j + 1] && r[k] == db[if k < i then k else k + 1];
    }
  }

  lemma {:induction false} RemoveKeepsOrder(db: Db, key: string)
    requires KeySorted(db)
    ensures KeySorted(Remove(db, key))
    ensures forall e :: e in Remove(db, key) ==> e in db
  {
    if db != [] && db[0].key != key {
      RemoveKeepsOrder(db[1..], key);
      var r := Remove(db[1..], key);
      forall j | 0 <= j < |r| ensures StrLt(db[0].key, r[j].key) {
        assert r[j] in db[1..];
      }
    }
  }

  ghost predicate HasKey(db: Db, key: string) { exists i :: 0 <= i < |db| && db[i].key == key }

  /** Writing adds its key, and removing takes it away; every other key stays. */
  lemma {:induction false} KeysAfter(db: Db, key: string, value: Value, k: string)
    requires KeySorted(db)
    ensures HasKey(Insert(db, key, value), k) <==> k == key || HasKey(db, k)
    ensures HasKey(Remove(db, key), k) <==> k != key && HasKey(db, k)
  {
    if db != [] {
      KeysAfter(db[1..], key, value, k);
      KeyOfHead(db, k);
      KeyOfHead(Insert(db, key, value), k);
      KeyOfHead(Remove(db, key), k);
      if db[0].key == key {
        StrLtIrreflexive(key);
        assert !HasKey(db[1..], key);
      }
    } else {
      assert Insert(db, key, value)[0].key == key;
    }
  }

  lemma {:induction false} KeyOfHead(db: Db, k: string)
    ensures HasKey(db, k) <==> db != [] && (db[0].key == k || HasKey(db[1..], k))
  {
    if HasKey(db, k) && db[0].key != k {
      var i :| 0 <= i < |db| && db[i].key == k;
      assert db[1..][i - 1].key == k;
    }
    if db != [] && HasKey(db[1..], k) {
      var i :| 0 <= i < |db| - 1 && db[1..][i].key == k;
      assert db[i + 1].key == k;
    }
  }

  // ---------- keys ----------

  function Prefix(agent: string): string { agent + "::" }

  function Millis(m: Letter): nat { m.createdAt / NANOS_PER_MILLI }

  function Key(m: Letter): string {
    Prefix(m.receiver) + (Pad(Millis(m), 20) + ("::" + m.id))
  }

  const AGENT_MARK := "__agent__"

  function MarkerKey(agent: string): string { Prefix(AGENT_MARK) + agent }

  predicate ColonFree(s: string) { ':' !in s }

  /** The order of letters inside one prefix: milliseconds first, id second. */
  predicate MilliLt(a: Letter, b: Letter) {
    Millis(a) < Millis(b) || (Millis(a) == Millis(b) && StrLt(a.id, b.id))
  }

  /** Inside one receiver's prefix, byte order of the keys is (milliseconds, id) order. */
  lemma {:induction false} KeyOrder(a: Letter, b: Letter)
    requires a.receiver == b.receiver
    ensures StrLt(Key(a), Key(b)) <==> MilliLt(a, b)
  {
    var p := Prefix(a.receiver);
    var x, y := Pad(Millis(a), 20) + ("::" + a.id), Pad(Millis(b), 20) + ("::" + b.id);
    StrLtSamePrefix(p, x, y);
    if Millis(a) < Millis(b) {
      PadOrder(Millis(a), Millis(b), 20, "::" + a.id, "::" + b.id);
    } else if Millis(b) < Millis(a) {
      PadOrder(Millis(b), Millis(a), 20, "::" + b.id, "::" + a.id);
      StrLtAsymmetric(y, x);
    } else {
      StrLtSamePrefix(Pad(Millis(a), 20), "::" + a.id, "::" + b.id);
      StrLtSamePrefix("::", a.id, b.id);
    }
  }

  lemma {:induction false} KeyInjective(a: Letter, b: Letter)
    requires a.receiver == b.receiver && Key(a) == Key(b)
    ensures a.id == b.id && Millis(a) == Millis(b)
  {
    KeyOrder(a, b);
    KeyOrder(b, a);
    StrLtIrreflexive(Key(a));
    StrLtTotal(a.id, b.id);
  }

  /** Which letters a scan for a colon-free agent visits: its own, and those of receivers
      whose name continues the agent's name with the separator. */
  lemma {:induction false} ScanVisits(agent: string, m: Letter)
    requires ColonFree(agent)
    ensures Prefix(agent) <= Key(m) <==>
            m.receiver == agent || Prefix(agent) <= m.receiver || m.receiver == agent + ":"
  {
    var p, k, r := Prefix(agent), Key(m), m.receiver;
    var n := |agent|;
    assert k[..|r|] == r && k[|r|] == ':' && k[|r| + 1] == ':';
    assert p[..n] == agent && p[n] == ':' && p[n + 1] == ':';
    if p <= k {
      assert k[n] == ':' && k[n + 1] == ':';
      assert k[..n] == agent;
      if |r| >= n {
        assert r[..n] == agent;
        if |r| == n + 1 {
          assert r == agent + [r[n]];
        } else if |r| > n + 1 {
          assert r[n] == ':' && r[n + 1] == ':';
        }
      }
    }
    if m.receiver == agent + ":" {
      assert k[..n + 2] == p;
    }
    if p <= r {
      assert k[..n + 2] == r[..n + 2];
    }
  }

  /** Between colon-free names a scan is exact. */
  lemma {:induction false} ScanExact(agent: string, m: Letter)
    requires ColonFree(agent) && ColonFree(m.receiver)
    ensures Prefix(agent) <= Key(m) <==> m.receiver == agent
  {
    ScanVisits(agent, m);
    assert Prefix(agent)[|agent|] == ':';
    assert (agent + ":")[|agent|] == ':';
  }

  /** A scan meets agent markers only for the reserved agent name. */
  lemma {:induction false} ScanMeetsMarker(agent: string, known: string)
    requires ColonFree(agent)
    ensures Prefix(agent) <= MarkerKey(known) <==> agent == AGENT_MARK
  {
    var p, k, n := Prefix(agent), MarkerKey(known), |agent|;
    assert k[..9] == AGENT_MARK && k[9] == ':' && k[10] == ':';
    assert forall i :: 0 <= i < 9 ==> k[i] != ':';
    if p <= k {
      assert p[n] == ':' && k[n] == ':' && p[..n] == agent;
      assert k[..n] == agent;
    }
  }
}
