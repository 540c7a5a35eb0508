/** When two mailboxes are one to their callers: they hold the same letters, diagnostics aside,
    and agree on the order of those that can still be handed out. */
module Likeness {
  import opened Basics
  import opened Text
  import opened Lifecycle
  import opened Mailbox
  import opened SledTree
  import opened MemoryStore
  import opened SledBoxes

  // ---------- cores ----------

  /** The same letters in the same places, up to diagnostics. */
  ghost predicate SameCores(s: seq<Letter>, t: seq<Letter>) {
    |s| == |t| && forall i :: 0 <= i < |s| ==> Core(s[i]) == Core(t[i])
  }

  function CoreSet(s: seq<Letter>): set<Letter> { set m | m in s :: Core(m) }

  /** What equal cores have in common. */
  lemma {:induction false} CoreKeeps(m: Letter, n: Letter)
    requires Core(m) == Core(n)
    ensures m.id == n.id && m.status == n.status && m.createdAt == n.createdAt && m.receiver == n.receiver
    ensures Revivable(m) <==> Revivable(n)
  {
    assert Core(m).id == m.id && Core(n).id == n.id;
    assert Core(m).status == m.status && Core(n).status == n.status;
    assert Core(m).createdAt == m.createdAt && Core(n).createdAt == n.createdAt;
    assert Core(m).receiver == m.receiver && Core(n).receiver == n.receiver;
    assert m.status.Dead? ==> m.deadReason == n.deadReason;
  }

  lemma {:induction false} TwinOf(s: seq<Letter>, t: seq<Letter>, m: Letter) returns (n: Letter)
    requires CoreSet(s) == CoreSet(t) && m in s
    ensures n in t && Core(m) == Core(n) && m.id == n.id
  {
    assert Core(m) in CoreSet(t);
    n :| n in t && Core(n) == Core(m);
    CoreKeeps(m, n);
  }

  lemma {:induction false} EqualCores(s: seq<Letter>, t: seq<Letter>)
    requires SameCores(s, t)
    ensures Map(Core, s) == Map(Core, t)
  {}

  // ---------- letters that can still be handed out ----------

  /** Queued, or able to be queued again: in flight, or dead on a credential problem. */
  predicate Live(m: Letter) { m.status == Queued || m.status == Pushing || Revivable(m) }

  function LiveOf(s: seq<Letter>): seq<Letter> {
    if s == [] then [] else (if Live(s[0]) then [s[0]] else []) + LiveOf(s[1..])
  }

  /** Whatever happens to its order, a mailbox of other letters is nothing to wait for. */
  ghost predicate Alike(s: seq<Letter>, t: seq<Letter>) {
    |s| == |t| && CoreSet(s) == CoreSet(t) && SameCores(LiveOf(s), LiveOf(t))
  }

  lemma {:induction false} LiveCons(x: Letter, r: seq<Letter>)
    ensures LiveOf([x] + r) == (if Live(x) then [x] else []) + LiveOf(r)
  {
    assert ([x] + r)[1..] == r;
  }

  lemma {:induction false} LiveMembers(s: seq<Letter>)
    ensures forall m :: m in LiveOf(s) <==> m in s && Live(m)
  {
    if s != [] {
      LiveMembers(s[1..]);
      assert forall m :: m in s <==> m == s[0] || m in s[1..];
    }
  }

  lemma {:induction false} LiveFifo(s: seq<Letter>)
    requires StrictFifoOrder(s)
    ensures StrictFifoOrder(LiveOf(s))
  {
    if s != [] {
      var rest := LiveOf(s[1..]);
      LiveFifo(s[1..]);
      LiveMembers(s[1..]);
      forall j | 0 <= j < |rest| ensures FifoLt(s[0], rest[j]) {
        assert rest[j] in s[1..];
      }
    }
  }

  lemma {:induction false} LiveMilli(t: seq<Letter>)
    requires StrictMilliOrder(t)
    ensures StrictMilliOrder(LiveOf(t))
  {
    if t != [] {
      var rest := LiveOf(t[1..]);
      LiveMilli(t[1..]);
      LiveMembers(t[1..]);
      forall j | 0 <= j < |rest| ensures MilliLt(t[0], rest[j]) {
        assert rest[j] in t[1..];
      }
    }
  }

  lemma {:induction false} LiveCores(s: seq<Letter>, t: seq<Letter>)
    requires SameCores(s, t)
    ensures SameCores(LiveOf(s), LiveOf(t))
  {
    if s != [] {
      CoreKeeps(s[0], t[0]);
      LiveCores(s[1..], t[1..]);
      if Live(s[0]) {
        PrependCores(s[0], t[0], LiveOf(s[1..]), LiveOf(t[1..]));
      } else {
        NoneLiveFirst(s);
        NoneLiveFirst(t);
      }
    }
  }

  lemma {:induction false} NoneLiveFirst(s: seq<Letter>)
    requires s != [] && !Live(s[0])
    ensures LiveOf(s) == LiveOf(s[1..])
  {}

  lemma {:induction false} PrependCores(x: Letter, y: Letter, p: seq<Letter>, q: seq<Letter>)
    requires Core(x) == Core(y) && SameCores(p, q)
    ensures SameCores([x] + p, [y] + q)
  {}

  // ---------- changes letter by letter ----------

  ghost predicate BuriesNone(g: Letter -> Letter, s: seq<Letter>) {
    forall m :: m in s && !Live(m) ==> !Live(g(m))
  }

  lemma {:induction false} LiveOfMap(g: Letter -> Letter, s: seq<Letter>)
    requires BuriesNone(g, s)
    ensures LiveOf(Map(g, s)) == LiveOf(Map(g, LiveOf(s)))
  {
    if s != [] {
      var rest := LiveOf(s[1..]);
      assert s[0] in s && forall m :: m in s[1..] ==> m in s;
      LiveOfMap(g, s[1..]);
      MapCons(g, s);
      LiveCons(g(s[0]), Map(g, s[1..]));
      if Live(s[0]) {
        MapCons(g, [s[0]] + rest);
        assert ([s[0]] + rest)[1..] == rest;
        LiveCons(g(s[0]), Map(g, rest));
      } else {
        NoneLiveFirst(s);
        assert [] + LiveOf(Map(g, s[1..])) == LiveOf(Map(g, s[1..]));
      }
    } else {
      assert Map(g, []) == [];
    }
  }

  lemma {:induction false} MapCores(g: Letter -> Letter, h: Letter -> Letter, s: seq<Letter>, t: seq<Letter>)
    requires SameCores(s, t)
    requires forall m, n :: m in s && n in t && Core(m) == Core(n) ==> Core(g(m)) == Core(h(n))
    ensures SameCores(Map(g, s), Map(h, t))
  {
    forall i | 0 <= i < |s| ensures Core(Map(g, s)[i]) == Core(Map(h, t)[i]) {
      assert s[i] in s && t[i] in t;
    }
  }

  lemma {:induction false} InMap(g: Letter -> Letter, s: seq<Letter>)
    ensures forall c :: c in CoreSet(Map(g, s)) <==> exists m :: m in s && c == Core(g(m))
  {
    forall c | c in CoreSet(Map(g, s)) ensures exists m :: m in s && c == Core(g(m)) {
      var x :| x in Map(g, s) && Core(x) == c;
      var k :| 0 <= k < |s| && Map(g, s)[k] == x;
      assert s[k] in s;
    }
    forall m | m in s ensures Core(g(m)) in CoreSet(Map(g, s)) {
      var k :| 0 <= k < |s| && s[k] == m;
      assert Map(g, s)[k] in Map(g, s);
    }
  }

  lemma {:induction false} MapCoreSets(g: Letter -> Letter, h: Letter -> Letter, s: seq<Letter>, t: seq<Letter>)
    requires CoreSet(s) == CoreSet(t)
    requires forall m, n :: m in s && n in t && Core(m) == Core(n) ==> Core(g(m)) == Core(h(n))
    ensures CoreSet(Map(g, s)) == CoreSet(Map(h, t))
  {
    InMap(g, s);
    InMap(h, t);
    forall m | m in s ensures Core(g(m)) in CoreSet(Map(h, t)) {
      var n := TwinOf(s, t, m);
    }
    forall n | n in t ensures Core(h(n)) in CoreSet(Map(g, s)) {
      var m := TwinOf(t, s, n);
    }
  }

  /** Mailboxes stay alike when twins are changed alike and no other letter comes back. */
  lemma {:induction false} MapAlike(g: Letter -> Letter, h: Letter -> Letter, s: seq<Letter>, t: seq<Letter>)
    requires Alike(s, t) && BuriesNone(g, s) && BuriesNone(h, t)
    requires forall m, n :: m in s && n in t && Core(m) == Core(n) ==> Core(g(m)) == Core(h(n))
    ensures Alike(Map(g, s), Map(h, t))
  {
    MapCoreSets(g, h, s, t);
    LiveOfMap(g, s);
    LiveOfMap(h, t);
    LiveMembers(s);
    LiveMembers(t);
    MapCores(g, h, LiveOf(s), LiveOf(t));
    LiveCores(Map(g, LiveOf(s)), Map(h, LiveOf(t)));
  }

  // ---------- updates ----------

  /** The letter-level step of the simulation. */
  lemma {:induction false} OpCores(m: Letter, n: Letter, op: LetterOp, now: nat)
    requires Core(m) == Core(n)
    ensures Core(BackendOp(Memory, m, op, now)) == Core(BackendOp(Sled, n, op, now)) <==> !Clobbers(m, op)
  {
    BackendFollowsTable(Memory, m, op, now);
    BackendFollowsTable(Sled, n, op, now);
  }

  lemma {:induction false} DeadStaysBuried(b: Backend, m: Letter, op: LetterOp, now: nat)
    requires m.status == Dead && !DiedOnAuth(m) && (b == Memory ==> !Clobbers(m, op))
    ensures !Live(BackendOp(b, m, op, now))
  {
    if !op.OpRevive? {
      assert Apply(Dead, EventFor(m, op)).Illegal?;
    }
  }

  /** Only overwriting the reason of a dead letter can bring it back within reach. */
  lemma {:induction false} OpBuries(b: Backend, m: Letter, op: LetterOp, now: nat)
    requires !Live(m) && (b == Memory ==> !Clobbers(m, op))
    ensures !Live(BackendOp(b, m, op, now))
  {
    if m.status == Dead {
      DeadStaysBuried(b, m, op, now);
    } else {
      SettledStaysBuried(b, m, op, now);
    }
  }

  lemma {:induction false} SettledStaysBuried(b: Backend, m: Letter, op: LetterOp, now: nat)
    requires HandedOver(m.status)
    ensures !Live(BackendOp(b, m, op, now))
  {
    match b
    case Memory => FireKeepsHandedOver(EarlyWrites(m, EventFor(m, op)), EventFor(m, op), now);
    case Sled =>
      var noted := match op
        case OpPushFailed(reason) => m.(lastError := Some(reason))
        case OpReclaim(reason) => m.(lastError := Some(reason))
        case _ => m;
      FireKeepsHandedOver(noted, EventFor(noted, op), now);
  }

  lemma {:induction false} FireKeepsHandedOver(m: Letter, e: Event, now: nat)
    requires HandedOver(m.status)
    ensures HandedOver(Fire(m, e, now).status)
  {
    match m.status
    case Delivered =>
    case Read =>
    case Acked =>
  }

  /** Whether an operation on one letter meets a dead letter and would overwrite its reason. */
  ghost predicate ClobbersAt(s: seq<Letter>, id: string, op: LetterOp) {
    exists m :: m in s && m.id == id && Clobbers(m, op)
  }

  lemma {:induction false} EditTwins(m: Letter, n: Letter, id: string, op: LetterOp, now: nat)
    requires Core(m) == Core(n) && (m.id == id ==> !Clobbers(m, op))
    ensures Core(Editor(Memory, id, op, now)(m)) == Core(Editor(Sled, id, op, now)(n))
  {
    CoreKeeps(m, n);
    if m.id == id {
      OpCores(m, n, op, now);
    }
  }

  lemma {:induction false} EditorsAgree(s: seq<Letter>, t: seq<Letter>, id: string, op: LetterOp, now: nat)
    requires !ClobbersAt(s, id, op)
    ensures BuriesNone(Editor(Memory, id, op, now), s) && BuriesNone(Editor(Sled, id, op, now), t)
    ensures forall m, n :: m in s && n in t && Core(m) == Core(n) ==>
              Core(Editor(Memory, id, op, now)(m)) == Core(Editor(Sled, id, op, now)(n))
  {
    forall m | m in s && !Live(m) ensures !Live(Editor(Memory, id, op, now)(m)) {
      if m.id == id {
        assert !Clobbers(m, op);
        OpBuries(Memory, m, op, now);
      }
    }
    forall n | n in t && !Live(n) ensures !Live(Editor(Sled, id, op, now)(n)) {
      OpBuries(Sled, n, op, now);
    }
    forall m, n | m in s && n in t && Core(m) == Core(n)
      ensures Core(Editor(Memory, id, op, now)(m)) == Core(Editor(Sled, id, op, now)(n))
    {
      EditTwins(m, n, id, op, now);
    }
  }

  lemma {:induction false} ClobberShows(s: seq<Letter>, t: seq<Letter>, id: string, op: LetterOp, now: nat)
    requires CoreSet(s) == CoreSet(t) && DistinctIds(t) && ClobbersAt(s, id, op)
    ensures CoreSet(Map(Editor(Memory, id, op, now), s)) != CoreSet(Map(Editor(Sled, id, op, now), t))
  {
    var g, h := Editor(Memory, id, op, now), Editor(Sled, id, op, now);
    var m :| m in s && m.id == id && Clobbers(m, op);
    var n := TwinOf(s, t, m);
    InMap(g, s);
    InMap(h, t);
    forall x | x in t ensures Core(h(x)) != Core(g(m)) {
      if x.id == id {
        SameIdInBox(t, x, n);
        OpCores(m, n, op, now);
      } else {
        OpKeepsEnvelope(Memory, m, op, now);
        assert Core(h(x)).id == x.id && Core(g(m)).id == id;
      }
    }
    assert Core(g(m)) in CoreSet(Map(g, s));
  }

  lemma {:induction false} SameIdInBox(t: seq<Letter>, x: Letter, y: Letter)
    requires DistinctIds(t) && x in t && y in t && x.id == y.id
    ensures x == y
  {
    var i :| 0 <= i < |t| && t[i] == x;
    var j :| 0 <= j < |t| && t[j] == y;
  }

  /** An update keeps mailboxes alike exactly when it does not clobber. */
  lemma {:induction false} UpdateAlike(s: seq<Letter>, t: seq<Letter>, id: string, op: LetterOp, now: nat)
    requires Alike(s, t) && DistinctIds(s) && DistinctIds(t)
    ensures Alike(UpdateBox(Memory, s, id, op, now), UpdateBox(Sled, t, id, op, now)) <==> !ClobbersAt(s, id, op)
  {
    UpdateBoxIsMap(Memory, s, id, op, now);
    UpdateBoxIsMap(Sled, t, id, op, now);
    if ClobbersAt(s, id, op) {
      ClobberShows(s, t, id, op, now);
    } else {
      EditorsAgree(s, t, id, op, now);
      MapAlike(Editor(Memory, id, op, now), Editor(Sled, id, op, now), s, t);
    }
  }

  // ---------- pushes ----------

  /** The new letter compares with an old one alike in nanoseconds and in milliseconds. */
  predicate SamePlace(m: Letter, x: Letter) {
    FifoLt(m, x) <==> MilliLt(m, x)
  }

  /** A letter created on a whole millisecond never clashes with another such letter. */
  lemma {:induction false} WholeMillisNeverClash(m: Letter, x: Letter)
    requires m.createdAt % NANOS_PER_MILLI == 0 && x.createdAt % NANOS_PER_MILLI == 0
    ensures SamePlace(m, x)
  {
    assert m.createdAt == Millis(m) * NANOS_PER_MILLI && x.createdAt == Millis(x) * NANOS_PER_MILLI;
  }

  /** No letter that can still be handed out stands in a place that the two orders dispute. */
  ghost predicate ClashFree(m: Letter, box: seq<Letter>) {
    Live(m) ==> forall x :: x in box && Live(x) ==> SamePlace(m, x)
  }

  ghost predicate StrictMilliOrder(t: seq<Letter>) {
    forall i, j :: 0 <= i < j < |t| ==> MilliLt(t[i], t[j])
  }

  lemma {:induction false} ConsCores(p: seq<Letter>, q: seq<Letter>)
    requires p != [] && q != [] && Core(p[0]) == Core(q[0])
    ensures SameCores(p, q) <==> SameCores(p[1..], q[1..])
  {
    if SameCores(p[1..], q[1..]) {
      forall i | 0 <= i < |p| ensures Core(p[i]) == Core(q[i]) {
        if i > 0 {
          assert Core(p[1..][i - 1]) == Core(q[1..][i - 1]);
        }
      }
    }
  }

  lemma {:induction false} MilliLtTransitive(a: Letter, b: Letter, c: Letter)
    requires MilliLt(a, b) && MilliLt(b, c)
    ensures MilliLt(a, c)
  {
    if Millis(a) == Millis(b) == Millis(c) {
      StrLtTransitive(a.id, b.id, c.id);
    }
  }

  lemma {:induction false} FifoLtChain(a: Letter, b: Letter, c: Letter)
    requires FifoLt(a, b) && FifoLt(b, c)
    ensures FifoLt(a, c)
  {
    FifoLtAsymmetric(b, c);
    FifoLtTransitive(a, b, c);
  }

  lemma {:induction false} BothBefore(m: Letter, first: Letter, x: Letter, first': Letter, x': Letter)
    requires FifoLt(m, first) && (x == first || FifoLt(first, x))
    requires MilliLt(m, first') && (x' == first' || MilliLt(first', x'))
    requires Core(x) == Core(x')
    ensures SamePlace(m, x)
  {
    CoreKeeps(x, x');
    if x != first {
      FifoLtChain(m, first, x);
    }
    if x' != first' {
      MilliLtTransitive(m, first', x');
    }
  }

  lemma {:induction false} BeforeAll(s: seq<Letter>, t: seq<Letter>, m: Letter)
    requires SameCores(s, t) && StrictFifoOrder(s) && StrictMilliOrder(t)
    requires s != [] && FifoLt(m, s[0]) && MilliLt(m, t[0])
    ensures forall x :: x in s ==> SamePlace(m, x)
  {
    forall x | x in s ensures SamePlace(m, x) {
      var k :| 0 <= k < |s| && s[k] == x;
      BothBefore(m, s[0], x, t[0], t[k]);
    }
  }

  /** Inserting by nanoseconds and inserting by milliseconds give the same mailbox exactly
      when the new letter compares alike with every letter already there. */
  lemma {:induction false} InsertCores(s: seq<Letter>, t: seq<Letter>, m: Letter)
    requires SameCores(s, t) && StrictFifoOrder(s) && StrictMilliOrder(t)
    requires forall x :: x in s ==> x.id != m.id
    ensures SameCores(InsertFifo(s, m), InsertMilli(t, m)) <==> forall x :: x in s ==> SamePlace(m, x)
  {
    if s != [] {
      CoreKeeps(s[0], t[0]);
      assert s[0] in s;
      var p, q := InsertFifo(s, m), InsertMilli(t, m);
      if FifoLt(m, s[0]) && MilliLt(m, t[0]) {
        BeforeAll(s, t, m);
      } else if FifoLt(m, s[0]) || MilliLt(m, t[0]) {
        assert Core(p[0]).id == p[0].id && Core(q[0]).id == q[0].id;
        assert !SamePlace(m, s[0]);
      } else {
        InsertCores(s[1..], t[1..], m);
        assert p[1..] == InsertFifo(s[1..], m) && q[1..] == InsertMilli(t[1..], m);
        ConsCores(p, q);
        assert forall x :: x in s <==> x == s[0] || x in s[1..];
      }
    }
  }

  lemma {:induction false} InsertFifoLive(s: seq<Letter>, m: Letter)
    requires StrictFifoOrder(s)
    ensures LiveOf(InsertFifo(s, m)) == if Live(m) then InsertFifo(LiveOf(s), m) else LiveOf(s)
  {
    if s == [] {
      assert LiveOf([m]) == if Live(m) then [m] else [];
    } else if FifoLt(m, s[0]) {
      var l := LiveOf(s);
      LiveCons(m, s);
      LiveMembers(s);
      if l != [] {
        assert l[0] in s;
        var k :| 0 <= k < |s| && s[k] == l[0];
        if 0 < k {
          FifoLtChain(m, s[0], s[k]);
        }
      }
    } else {
      var rest := LiveOf(s[1..]);
      InsertFifoLive(s[1..], m);
      LiveCons(s[0], InsertFifo(s[1..], m));
      if Live(s[0]) {
        assert LiveOf(s) == [s[0]] + rest && LiveOf(s)[1..] == rest;
      } else {
        assert LiveOf(s) == rest;
      }
    }
  }

  lemma {:induction false} InsertMilliLive(t: seq<Letter>, m: Letter)
    requires StrictMilliOrder(t)
    ensures LiveOf(InsertMilli(t, m)) == if Live(m) then InsertMilli(LiveOf(t), m) else LiveOf(t)
  {
    if t == [] {
      assert LiveOf([m]) == if Live(m) then [m] else [];
    } else if MilliLt(m, t[0]) {
      var l := LiveOf(t);
      LiveCons(m, t);
      LiveMembers(t);
      if l != [] {
        assert l[0] in t;
        var k :| 0 <= k < |t| && t[k] == l[0];
        if 0 < k {
          MilliLtTransitive(m, t[0], t[k]);
        }
      }
    } else {
      var rest := LiveOf(t[1..]);
      InsertMilliLive(t[1..], m);
      LiveCons(t[0], InsertMilli(t[1..], m));
      if Live(t[0]) {
        assert LiveOf(t) == [t[0]] + rest && LiveOf(t)[1..] == rest;
      } else {
        assert LiveOf(t) == rest;
      }
    }
  }

  lemma {:induction false} InsertMembers(s: seq<Letter>, m: Letter)
    ensures |InsertMilli(s, m)| == |s| + 1
    ensures forall x :: x in InsertFifo(s, m) <==> x == m || x in s
    ensures forall x :: x in InsertMilli(s, m) <==> x == m || x in s
  {
    if s != [] {
      InsertMembers(s[1..], m);
      assert forall x :: x in s <==> x == s[0] || x in s[1..];
    }
  }

  /** A push keeps mailboxes alike exactly when the new letter does not clash. */
  lemma {:induction false} InsertAlike(s: seq<Letter>, t: seq<Letter>, m: Letter)
    requires Alike(s, t) && StrictFifoOrder(s) && StrictMilliOrder(t)
    requires forall x :: x in s ==> x.id != m.id
    ensures Alike(InsertFifo(s, m), InsertMilli(t, m)) <==> ClashFree(m, s)
  {
    InsertMembers(s, m);
    InsertMembers(t, m);
    assert CoreSet(InsertFifo(s, m)) == CoreSet(s) + {Core(m)};
    assert CoreSet(InsertMilli(t, m)) == CoreSet(t) + {Core(m)};
    InsertFifoLive(s, m);
    InsertMilliLive(t, m);
    LiveMembers(s);
    LiveFifo(s);
    LiveMilli(t);
    InsertCores(LiveOf(s), LiveOf(t), m);
  }

  // ---------- polls ----------

  lemma {:induction false} HandOverCore(m: Letter, n: Letter, now: nat)
    requires Core(m) == Core(n)
    ensures Core(HandOver(m, now)) == Core(HandOver(n, now))
  {
    assert Core(m).(status := Delivered, deliveredAt := Some(now), deadReason := None) ==
           Core(n).(status := Delivered, deliveredAt := Some(now), deadReason := None);
  }

  lemma {:induction false} DrainCores(s: seq<Letter>, t: seq<Letter>, limit: nat, now: nat)
    requires SameCores(s, t)
    ensures SameCores(Drain(s, limit, now).out, Drain(t, limit, now).out)
  {
    if s != [] {
      CoreKeeps(s[0], t[0]);
      HandOverCore(s[0], t[0], now);
      if s[0].status != Queued {
        DrainCores(s[1..], t[1..], limit, now);
      } else if 1 < limit {
        DrainCores(s[1..], t[1..], limit - 1, now);
      }
    }
  }

  /** Letters that cannot be handed out do not matter to a drain. */
  lemma {:induction false} DrainLive(s: seq<Letter>, limit: nat, now: nat)
    ensures Drain(LiveOf(s), limit, now).out == Drain(s, limit, now).out
  {
    if s != [] {
      var rest := LiveOf(s[1..]);
      DrainLive(s[1..], limit, now);
      if Live(s[0]) {
        assert LiveOf(s) == [s[0]] + rest && ([s[0]] + rest)[1..] == rest;
        if s[0].status == Queued && 1 < limit {
          DrainLive(s[1..], limit - 1, now);
        }
      } else {
        assert LiveOf(s) == rest;
      }
    }
  }

  /** The letters with some ids, handed out. */
  function Hand(ids: set<string>, now: nat): Letter -> Letter {
    (m: Letter) => if m.id in ids then HandOver(m, now) else m
  }

  lemma {:induction false} OutComesFrom(s: seq<Letter>, limit: nat, now: nat)
    ensures forall x :: x in Drain(s, limit, now).out ==> exists y :: y in s && y.id == x.id
  {
    if s != [] {
      OutComesFrom(s[1..], limit, now);
      if 1 < limit {
        OutComesFrom(s[1..], limit - 1, now);
      }
      assert s[0] in s && forall y :: y in s[1..] ==> y in s;
    }
  }

  lemma {:induction false} HandRest(ids: set<string>, id: string, now: nat, s: seq<Letter>)
    requires forall m :: m in s ==> m.id != id
    ensures Map(Hand(ids + {id}, now), s) == Map(Hand(ids, now), s)
  {
    forall i | 0 <= i < |s| ensures Hand(ids + {id}, now)(s[i]) == Hand(ids, now)(s[i]) {
      assert s[i] in s;
    }
  }

  lemma {:induction false} RestHasOtherIds(s: seq<Letter>)
    requires DistinctIds(s) && s != []
    ensures forall m :: m in s[1..] ==> m.id != s[0].id
    ensures DistinctIds(s[1..])
  {}

  lemma {:induction false} HandNone(now: nat, s: seq<Letter>)
    ensures Map(Hand({}, now), s) == s
  {}

  lemma {:induction false} IdsOfCons(m: Letter, out: seq<Letter>)
    ensures IdsOf([m] + out) == IdsOf(out) + {m.id}
  {}

  /** A drain changes exactly the letters whose ids it hands out. */
  lemma {:induction false} DrainIsHand(s: seq<Letter>, limit: nat, now: nat)
    requires DistinctIds(s)
    ensures Drain(s, limit, now).box == Map(Hand(IdsOf(Drain(s, limit, now).out), now), s)
  {
    if s != [] {
      var rest := s[1..];
      RestHasOtherIds(s);
      var out := Drain(s, limit, now).out;
      MapCons(Hand(IdsOf(out), now), s);
      if s[0].status != Queued {
        DrainIsHand(rest, limit, now);
        OutComesFrom(rest, limit, now);
      } else {
        var m := HandOver(s[0], now);
        if limit <= 1 {
          HandRest({}, m.id, now, rest);
          HandNone(now, rest);
          assert IdsOf(out) == {} + {m.id};
        } else {
          DrainIsHand(rest, limit - 1, now);
          var out' := Drain(rest, limit - 1, now).out;
          IdsOfCons(m, out');
          HandRest(IdsOf(out'), m.id, now, rest);
        }
      }
    } else {
      assert Map(Hand({}, now), s) == [];
    }
  }

  lemma {:induction false} SameIds(s: seq<Letter>, t: seq<Letter>)
    requires SameCores(s, t)
    ensures IdsOf(s) == IdsOf(t)
  {
    forall i | 0 <= i < |s| ensures s[i].id == t[i].id {
      CoreKeeps(s[i], t[i]);
    }
    forall x | x in s ensures x.id in IdsOf(t) {
      var i :| 0 <= i < |s| && s[i] == x;
      assert t[i] in t;
    }
    forall x | x in t ensures x.id in IdsOf(s) {
      var i :| 0 <= i < |t| && t[i] == x;
      assert s[i] in s;
    }
  }

  /** Alike mailboxes hand out the same letters in the same order, and stay alike. */
  lemma {:induction false} DrainAlike(s: seq<Letter>, t: seq<Letter>, limit: nat, now: nat)
    requires Alike(s, t) && DistinctIds(s) && DistinctIds(t)
    ensures SameCores(Drain(s, limit, now).out, Drain(t, limit, now).out)
    ensures Alike(Drain(s, limit, now).box, Drain(t, limit, now).box)
  {
    DrainLive(s, limit, now);
    DrainLive(t, limit, now);
    DrainCores(LiveOf(s), LiveOf(t), limit, now);
    SameIds(Drain(s, limit, now).out, Drain(t, limit, now).out);
    DrainIsHand(s, limit, now);
    DrainIsHand(t, limit, now);
    var ids := IdsOf(Drain(s, limit, now).out);
    forall m, n | m in s && n in t && Core(m) == Core(n) ensures Core(Hand(ids, now)(m)) == Core(Hand(ids, now)(n)) {
      CoreKeeps(m, n);
      HandOverCore(m, n, now);
    }
    MapAlike(Hand(ids, now), Hand(ids, now), s, t);
  }

  // ---------- revivals ----------

  lemma {:induction false} ReviveCore(m: Letter, n: Letter)
    requires Core(m) == Core(n)
    ensures Core(ReviveLetter(m)) == Core(ReviveLetter(n))
  {
    CoreKeeps(m, n);
    assert Core(m).(status := Queued, deadReason := None, lastError := None, attempts := 0) ==
           Core(n).(status := Queued, deadReason := None, lastError := None, attempts := 0);
  }

  lemma {:induction false} ReviveAlike(s: seq<Letter>, t: seq<Letter>)
    requires Alike(s, t)
    ensures Alike(Map(ReviveLetter, s), Map(ReviveLetter, t))
  {
    forall m, n | m in s && n in t && Core(m) == Core(n) ensures Core(ReviveLetter(m)) == Core(ReviveLetter(n)) {
      ReviveCore(m, n);
    }
    MapAlike(ReviveLetter, ReviveLetter, s, t);
  }

  lemma {:induction false} RevivableMembers(box: seq<Letter>)
    ensures forall m :: m in RevivableOf(box) <==> m in box && Revivable(m)
  {
    if box != [] {
      RevivableMembers(box[1..]);
      assert box == [box[0]] + box[1..];
    }
  }

  /** Both backends return the same revived letters. */
  lemma {:induction false} RevivedSets(box: seq<Letter>, t: seq<Letter>, candidates: seq<Letter>)
    requires CoreSet(box) == CoreSet(t)
    requires forall c :: c in candidates <==> c in t && Revivable(c)
    ensures CoreSet(Map(ReviveLetter, RevivableOf(box))) == CoreSet(Map(ReviveLetter, candidates))
  {
    RevivableMembers(box);
    var p, q := RevivableOf(box), candidates;
    InMap(ReviveLetter, p);
    InMap(ReviveLetter, q);
    forall m | m in p ensures Core(ReviveLetter(m)) in CoreSet(Map(ReviveLetter, q)) {
      var n := TwinOf(box, t, m);
      CoreKeeps(m, n);
      ReviveCore(m, n);
    }
    forall n | n in q ensures Core(ReviveLetter(n)) in CoreSet(Map(ReviveLetter, p)) {
      var m := TwinOf(t, box, n);
      CoreKeeps(n, m);
      ReviveCore(m, n);
    }
  }

  // ---------- deletions ----------

  lemma {:induction false} DropCores(s: seq<Letter>, t: seq<Letter>, id: string)
    requires SameCores(s, t)
    ensures SameCores(DropId(s, id), DropId(t, id))
  {
    if s != [] {
      CoreKeeps(s[0], t[0]);
      if s[0].id != id {
        DropCores(s[1..], t[1..], id);
      }
    }
  }

  lemma {:induction false} DropNone(s: seq<Letter>, id: string)
    requires forall m :: m in s ==> m.id != id
    ensures DropId(s, id) == s
  {
    if s != [] {
      assert s[0] in s && forall m :: m in s[1..] ==> m in s;
      DropNone(s[1..], id);
    }
  }

  lemma {:induction false} DropLive(s: seq<Letter>, id: string)
    requires DistinctIds(s)
    ensures LiveOf(DropId(s, id)) == DropId(LiveOf(s), id)
  {
    if s != [] {
      var rest := s[1..];
      var l := LiveOf(rest);
      RestHasOtherIds(s);
      if !Live(s[0]) {
        NoneLiveFirst(s);
      } else {
        assert LiveOf(s) == [s[0]] + l && LiveOf(s)[1..] == l;
      }
      if s[0].id == id {
        LiveMembers(rest);
        DropNone(l, id);
      } else {
        DropLive(rest, id);
        LiveCons(s[0], DropId(rest, id));
        assert [] + LiveOf(DropId(rest, id)) == LiveOf(DropId(rest, id));
      }
    }
  }

  lemma {:induction false} DropMembers(box: seq<Letter>, id: string)
    requires DistinctIds(box)
    ensures forall m :: m in DropId(box, id) <==> m in box && m.id != id
  {
    if box != [] {
      RestHasOtherIds(box);
      assert forall m :: m in box <==> m == box[0] || m in box[1..];
      if box[0].id != id {
        DropMembers(box[1..], id);
      }
    }
  }

  lemma {:induction false} DropDistinct(box: seq<Letter>, id: string)
    requires DistinctIds(box)
    ensures DistinctIds(DropId(box, id))
  {
    if box != [] && box[0].id != id {
      RestHasOtherIds(box);
      DropDistinct(box[1..], id);
      DropMembers(box[1..], id);
      var r := DropId(box[1..], id);
      forall j | 0 <= j < |r| ensures r[j].id != box[0].id {
        assert r[j] in box[1..];
      }
    }
  }

  lemma {:induction false} DropLength(s: seq<Letter>, id: string)
    ensures |DropId(s, id)| == |s| - One(exists m :: m in s && m.id == id)
  {
    if s != [] {
      assert s[0] in s && forall m :: m in s <==> m == s[0] || m in s[1..];
      if s[0].id != id {
        DropLength(s[1..], id);
      }
    }
  }

  lemma {:induction false} DropCoreSet(s: seq<Letter>, t: seq<Letter>, id: string, m: Letter)
    requires CoreSet(s) == CoreSet(t) && DistinctIds(s) && DistinctIds(t) && m in DropId(s, id)
    ensures Core(m) in CoreSet(DropId(t, id))
  {
    DropMembers(s, id);
    DropMembers(t, id);
    var n := TwinOf(s, t, m);
    assert n in DropId(t, id);
  }

  /** Deleting by id keeps mailboxes alike. */
  lemma {:induction false} DropAlike(s: seq<Letter>, t: seq<Letter>, id: string)
    requires Alike(s, t) && DistinctIds(s) && DistinctIds(t)
    ensures Alike(DropId(s, id), DropId(t, id))
  {
    DropLength(s, id);
    DropLength(t, id);
    if m :| m in s && m.id == id {
      var n := TwinOf(s, t, m);
    }
    if n :| n in t && n.id == id {
      var m := TwinOf(t, s, n);
    }
    forall m | m in DropId(s, id) ensures Core(m) in CoreSet(DropId(t, id)) { DropCoreSet(s, t, id, m); }
    forall n | n in DropId(t, id) ensures Core(n) in CoreSet(DropId(s, id)) { DropCoreSet(t, s, id, n); }
    DropLive(s, id);
    DropLive(t, id);
    DropCores(LiveOf(s), LiveOf(t), id);
  }
}
