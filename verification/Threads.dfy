/** Threads: the bounded climb to a letter's root, the separately bounded walk that collects a
    thread, and exactly when the two agree. */
module Threads {
  import opened Basics
  import opened Lifecycle
  import opened Mailbox

  const ROOT_HOPS: nat := 32
  const MEMBER_HOPS: nat := 16

  /** Which letter each letter refers to; a reference may dangle. */
  type Refs = map<string, Option<string>>

  /** The references of a listing; a later letter hides an earlier one with its id. */
  function RefsOf(all: seq<Letter>): Refs {
    if all == [] then map[] else RefsOf(all[..|all| - 1])[all[|all| - 1].id := all[|all| - 1].parent]
  }

  /** The next letter on the way to the root. */
  function Up(refs: Refs, cur: string): Option<string> {
    if cur in refs && refs[cur].Some? && refs[cur].value in refs && refs[cur].value != cur then refs[cur] else None
  }

  /** At most n steps up. */
  function Climb(refs: Refs, cur: string, n: nat): string
    decreases n
  {
    if n == 0 || Up(refs, cur).None? then cur else Climb(refs, Up(refs, cur).value, n - 1)
  }

  function Root(refs: Refs, id: string): string { Climb(refs, id, ROOT_HOPS) }

  /** Exactly k references followed, wherever they lead. */
  function Follow(refs: Refs, cur: string, k: nat): Option<string>
    decreases k
  {
    if k == 0 then Some(cur)
    else if cur in refs && refs[cur].Some? then Follow(refs, refs[cur].value, k - 1)
    else None
  }

  /** The collecting walk: look for the root here and after each of at most n references. */
  predicate Hits(refs: Refs, cur: string, root: string, n: nat)
    decreases n
  {
    cur == root || (0 < n && cur in refs && refs[cur].Some? && Hits(refs, refs[cur].value, root, n - 1))
  }

  lemma {:induction false} HitReaches(refs: Refs, cur: string, root: string, n: nat) returns (k: nat)
    requires Hits(refs, cur, root, n)
    ensures k <= n && Follow(refs, cur, k) == Some(root)
    decreases n
  {
    if cur == root {
      k := 0;
    } else {
      k := HitReaches(refs, refs[cur].value, root, n - 1);
      k := k + 1;
    }
  }

  lemma {:induction false} ReachedIsHit(refs: Refs, cur: string, root: string, n: nat, k: nat)
    requires k <= n && Follow(refs, cur, k) == Some(root)
    ensures Hits(refs, cur, root, n)
    decreases n
  {
    if 0 < k {
      ReachedIsHit(refs, refs[cur].value, root, n - 1, k - 1);
    }
  }

  /** A walk hits exactly when some number of references, at most n, leads to the root. */
  lemma {:induction false} HitsWhenReached(refs: Refs, cur: string, root: string, n: nat)
    ensures Hits(refs, cur, root, n) <==> exists k :: 0 <= k <= n && Follow(refs, cur, k) == Some(root)
  {
    if Hits(refs, cur, root, n) {
      var k := HitReaches(refs, cur, root, n);
    }
    forall k | 0 <= k <= n && Follow(refs, cur, k) == Some(root) ensures Hits(refs, cur, root, n) {
      ReachedIsHit(refs, cur, root, n, k);
    }
  }

  /** The letters that `message/thread` collects for x. */
  ghost function ThreadIds(refs: Refs, x: string): set<string> {
    set y | y in refs && Hits(refs, y, Root(refs, x), MEMBER_HOPS)
  }

  // ---------- the loops ----------

  method ById(all: seq<Letter>) returns (byId: map<string, Letter>)
    ensures byId.Keys == RefsOf(all).Keys
    ensures forall id :: id in byId ==> byId[id].parent == RefsOf(all)[id]
  {
    byId := map[];
    for i := 0 to |all|
      invariant byId.Keys == RefsOf(all[..i]).Keys
      invariant forall id :: id in byId ==> byId[id].parent == RefsOf(all[..i])[id]
    {
      assert all[..i + 1][..i] == all[..i];
      byId := byId[all[i].id := all[i]];
    }
    assert all[..|all|] == all;
  }

  method ThreadRootId(all: seq<Letter>, id: string) returns (cur: string)
    ensures cur == Root(RefsOf(all), id)
  {
    var byId := ById(all);
    ghost var refs := RefsOf(all);
    cur := id;
    for i := 0 to ROOT_HOPS
      invariant Climb(refs, cur, ROOT_HOPS - i) == Root(refs, id)
    {
      if cur in byId && byId[cur].parent.Some? && byId[cur].parent.value in byId && byId[cur].parent.value != cur {
        cur := byId[cur].parent.value;
      } else {
        break;
      }
    }
  }

  method ReachesRoot(byId: map<string, Letter>, id: string, root: string, ghost refs: Refs) returns (hit: bool)
    requires byId.Keys == refs.Keys && forall x :: x in byId ==> byId[x].parent == refs[x]
    ensures hit <==> Hits(refs, id, root, MEMBER_HOPS)
  {
    var cur := id;
    hit := cur == root;
    for i := 0 to MEMBER_HOPS
      invariant hit ==> Hits(refs, id, root, MEMBER_HOPS)
      invariant !hit ==> cur != root && Hits(refs, cur, root, MEMBER_HOPS - i) == Hits(refs, id, root, MEMBER_HOPS)
    {
      if cur in byId && byId[cur].parent.Some? {
        cur := byId[cur].parent.value;
        if cur == root {
          hit := true;
          break;
        }
      } else {
        break;
      }
    }
  }

  // ---------- the answer ----------

  datatype ThreadAnswer = MissingId | Unknown(id: string) | Thread(members: seq<Letter>)

  function Members(all: seq<Letter>, refs: Refs, root: string): seq<Letter> {
    if all == [] then []
    else
      var rest := Members(all[..|all| - 1], refs, root);
      if Hits(refs, all[|all| - 1].id, root, MEMBER_HOPS) then rest + [all[|all| - 1]] else rest
  }

  function InsertCreated(s: seq<Letter>, m: Letter): (r: seq<Letter>)
    ensures |r| == |s| + 1
  {
    if s == [] || s[|s| - 1].createdAt <= m.createdAt then s + [m]
    else InsertCreated(s[..|s| - 1], m) + [s[|s| - 1]]
  }

  /** A stable sort by creation time. */
  function SortCreated(s: seq<Letter>): (r: seq<Letter>)
    ensures |r| == |s|
  {
    if s == [] then [] else InsertCreated(SortCreated(s[..|s| - 1]), s[|s| - 1])
  }

  ghost predicate OldestFirst(s: seq<Letter>) {
    forall i, j :: 0 <= i < j < |s| ==> s[i].createdAt <= s[j].createdAt
  }

  lemma {:induction false} FifoIsOldestFirst(s: seq<Letter>)
    requires InFifoOrder(s)
    ensures OldestFirst(s)
  {
    assert forall i, j :: 0 <= i < j < |s| ==> !FifoLt(s[j], s[i]);
  }

  lemma {:induction false} SortOfSorted(s: seq<Letter>)
    requires OldestFirst(s)
    ensures SortCreated(s) == s
  {
    if s != [] {
      var front := s[..|s| - 1];
      SortOfSorted(front);
      InsertNewest(front, s[|s| - 1]);
      assert s == front + [s[|s| - 1]];
    }
  }

  lemma {:induction false} InsertNewest(s: seq<Letter>, m: Letter)
    requires s != [] ==> s[|s| - 1].createdAt <= m.createdAt
    ensures InsertCreated(s, m) == s + [m]
  {}

  lemma {:induction false} AppendInOrder(s: seq<Letter>, m: Letter)
    requires InFifoOrder(s) && DistinctIds(s)
    requires forall x :: x in s ==> !FifoLt(m, x) && x.id != m.id
    ensures InFifoOrder(s + [m]) && DistinctIds(s + [m])
  {
    forall i | 0 <= i < |s| ensures !FifoLt(m, s[i]) && s[i].id != m.id {
      assert s[i] in s;
    }
  }

  lemma {:induction false} LastIsNewest(all: seq<Letter>)
    requires all != [] && DistinctIds(all) && InFifoOrder(all)
    ensures var n := |all| - 1;
            forall m :: m in all[..n] ==> !FifoLt(all[n], m) && m.id != all[n].id
  {
    var n := |all| - 1;
    forall m | m in all[..n] ensures !FifoLt(all[n], m) && m.id != all[n].id {
      var k :| 0 <= k < n && all[k] == m;
      assert !FifoLt(all[n], all[k]) && all[k].id != all[n].id;
    }
  }

  lemma {:induction false} MembersOf(all: seq<Letter>, refs: Refs, root: string)
    requires DistinctIds(all) && InFifoOrder(all)
    ensures var r := Members(all, refs, root);
            && InFifoOrder(r) && DistinctIds(r)
            && forall m :: m in r <==> m in all && Hits(refs, m.id, root, MEMBER_HOPS)
  {
    if all != [] {
      var n := |all| - 1;
      var rest := Members(all[..n], refs, root);
      MembersOf(all[..n], refs, root);
      LastIsNewest(all);
      assert forall m :: m in all <==> m in all[..n] || m == all[n];
      AppendInOrder(rest, all[n]);
    }
  }

  /** The thread of a letter, over the store's listing: oldest first, by id where times are equal. */
  method MessageThread(all: seq<Letter>, id: string) returns (answer: ThreadAnswer)
    requires DistinctIds(all) && InFifoOrder(all)
    ensures answer.MissingId? <==> id == ""
    ensures id != "" ==> (answer.Thread? <==> id in RefsOf(all)) && (answer.Unknown? ==> answer.id == id)
    ensures answer.Thread? ==>
              && InFifoOrder(answer.members) && DistinctIds(answer.members)
              && (forall m :: m in answer.members <==> m in all && m.id in ThreadIds(RefsOf(all), id))
  {
    if id == "" {
      return MissingId;
    }
    ghost var refs := RefsOf(all);
    IdsListed(all, id);
    if IndexOf(all, id) == |all| {
      return Unknown(id);
    }
    var anchor := all[IndexOf(all, id)];
    var root := ThreadRootId(all, anchor.id);
    var byId := ById(all);
    var members := [];
    assert all[..0] == [];
    for i := 0 to |all|
      invariant members == Members(all[..i], refs, root)
    {
      assert all[..i + 1][..i] == all[..i];
      var hit := ReachesRoot(byId, all[i].id, root, refs);
      if hit {
        members := members + [all[i]];
      }
    }
    assert all[..|all|] == all;
    MembersOf(all, refs, root);
    FifoIsOldestFirst(members);
    SortOfSorted(members);
    forall m | m in all ensures m.id in refs {
      IdsListed(all, m.id);
    }
    return Thread(SortCreated(members));
  }

  lemma {:induction false} IdsListed(all: seq<Letter>, id: string)
    ensures id in RefsOf(all) <==> IndexOf(all, id) < |all|
    ensures id in RefsOf(all) <==> exists m :: m in all && m.id == id
  {
    IdsInRefs(all, id);
    var i := IndexOf(all, id);
    if i < |all| {
      assert all[i] in all;
    }
  }

  lemma {:induction false} IdsInRefs(all: seq<Letter>, id: string)
    ensures id in RefsOf(all) <==> exists m :: m in all && m.id == id
  {
    if all != [] {
      var n := |all| - 1;
      IdsInRefs(all[..n], id);
      assert forall m :: m in all <==> m in all[..n] || m == all[n];
    }
  }

  // ---------- depth ----------

  function UpN(refs: Refs, x: string, k: nat): Option<string>
    decreases k
  {
    if k == 0 then Some(x) else if Up(refs, x).Some? then UpN(refs, Up(refs, x).value, k - 1) else None
  }

  /** The chain from x ends after exactly d steps. */
  predicate Ends(refs: Refs, x: string, d: nat) {
    UpN(refs, x, d).Some? && Up(refs, UpN(refs, x, d).value).None?
  }

  /** No chain goes round: apart from letters that refer to themselves, references are acyclic. */
  ghost predicate ChainsEnd(refs: Refs) {
    forall x :: x in refs ==> exists d: nat :: Ends(refs, x, d)
  }

  ghost function Depth(refs: Refs, x: string): (d: nat)
    requires ChainsEnd(refs) && x in refs
    ensures Ends(refs, x, d)
  {
    var d: nat :| Ends(refs, x, d);
    d
  }

  lemma {:induction false} EndsOnce(refs: Refs, x: string, d: nat, e: nat)
    requires Ends(refs, x, d) && Ends(refs, x, e)
    ensures d == e
    decreases d
  {
    if 0 < d && 0 < e {
      EndsOnce(refs, Up(refs, x).value, d - 1, e - 1);
    }
  }

  lemma {:induction false} ClimbIs(refs: Refs, x: string, d: nat, n: nat)
    requires Ends(refs, x, d)
    ensures var k := if d <= n then d else n; UpN(refs, x, k) == Some(Climb(refs, x, n))
    decreases n
  {
    if 0 < n && 0 < d {
      ClimbIs(refs, Up(refs, x).value, d - 1, n - 1);
    }
  }

  lemma {:induction false} UpNSteps(refs: Refs, x: string, j: nat, k: nat)
    requires UpN(refs, x, j).Some?
    ensures UpN(refs, x, j + k) == UpN(refs, UpN(refs, x, j).value, k)
    decreases j
  {
    if 0 < j {
      UpNSteps(refs, Up(refs, x).value, j - 1, k);
    }
  }

  lemma {:induction false} UpNStays(refs: Refs, x: string, k: nat)
    requires x in refs && UpN(refs, x, k).Some?
    ensures UpN(refs, x, k).value in refs
    decreases k
  {
    if 0 < k {
      UpNStays(refs, Up(refs, x).value, k - 1);
    }
  }

  lemma {:induction false} UpNFollows(refs: Refs, x: string, k: nat)
    requires UpN(refs, x, k).Some?
    ensures Follow(refs, x, k) == UpN(refs, x, k)
    decreases k
  {
    if 0 < k {
      UpNFollows(refs, Up(refs, x).value, k - 1);
    }
  }

  /** Following references to a root in the store goes up the chain, if perhaps with pauses at
      a letter that refers to itself. */
  lemma {:induction false} FollowClimbs(refs: Refs, y: string, k: nat, r: string) returns (j: nat)
    requires y in refs && r in refs && Up(refs, r).None? && Follow(refs, y, k) == Some(r)
    ensures j <= k && UpN(refs, y, j) == Some(r)
    decreases k
  {
    if y == r {
      j := 0;
    } else {
      var next := refs[y].value;
      if next in refs && next != y {
        j := FollowClimbs(refs, next, k - 1, r);
        j := j + 1;
      } else {
        assert next in refs by { FollowedIsStored(refs, next, k - 1, r); }
        j := FollowClimbs(refs, y, k - 1, r);
      }
    }
  }

  lemma {:induction false} FollowedIsStored(refs: Refs, y: string, k: nat, r: string)
    requires r in refs && Follow(refs, y, k) == Some(r)
    ensures y in refs
  {}

  // ---------- the two walks ----------

  /** Threads are the classes of letters with the same root. */
  ghost predicate ThreadsAreRootClasses(refs: Refs) {
    forall x, y :: x in refs && y in refs ==> (y in ThreadIds(refs, x) <==> Root(refs, y) == Root(refs, x))
  }

  lemma {:induction false} ShallowAgree(refs: Refs, x: string, y: string)
    requires ChainsEnd(refs) && x in refs && y in refs
    requires Depth(refs, x) <= MEMBER_HOPS && Depth(refs, y) <= MEMBER_HOPS
    ensures y in ThreadIds(refs, x) <==> Root(refs, y) == Root(refs, x)
  {
    var r, d, e := Root(refs, x), Depth(refs, x), Depth(refs, y);
    ClimbIs(refs, x, d, ROOT_HOPS);
    ClimbIs(refs, y, e, ROOT_HOPS);
    UpNStays(refs, x, d);
    if Hits(refs, y, r, MEMBER_HOPS) {
      var k := HitReaches(refs, y, r, MEMBER_HOPS);
      var j := FollowClimbs(refs, y, k, r);
      EndsOnce(refs, y, j, e);
    }
    if Root(refs, y) == r {
      UpNFollows(refs, y, e);
      ReachedIsHit(refs, y, r, MEMBER_HOPS, e);
    }
  }

  /** A letter more than 16 references deep has an ancestor, exactly 17 deep, that the thread of
      its own root leaves out. */
  lemma {:induction false} DeepLetterIsMissed(refs: Refs, y: string) returns (z: string, r: string)
    requires ChainsEnd(refs) && y in refs && MEMBER_HOPS < Depth(refs, y)
    ensures z in refs && r in refs && Root(refs, z) == Root(refs, r) == r && z !in ThreadIds(refs, r)
  {
    var d := Depth(refs, y);
    var n := MEMBER_HOPS + 1;
    var below := d - n;
    UpNSome(refs, y, d, below);
    z := UpN(refs, y, below).value;
    UpNStays(refs, y, below);
    UpNSteps(refs, y, below, n);
    r := UpN(refs, z, n).value;
    UpNStays(refs, z, n);
    ClimbIs(refs, z, n, ROOT_HOPS);
    assert Ends(refs, r, 0);
    ClimbIs(refs, r, 0, ROOT_HOPS);
    if Hits(refs, z, r, MEMBER_HOPS) {
      var k := HitReaches(refs, z, r, MEMBER_HOPS);
      var j := FollowClimbs(refs, z, k, r);
      EndsOnce(refs, z, j, n);
    }
  }

  lemma {:induction false} UpNSome(refs: Refs, x: string, d: nat, k: nat)
    requires UpN(refs, x, d).Some? && k <= d
    ensures UpN(refs, x, k).Some?
    decreases d
  {
    if 0 < k {
      UpNSome(refs, Up(refs, x).value, d - 1, k - 1);
    }
  }

  /** Where references do not go round, the collected threads are the classes of letters with
      the same root exactly when no letter lies more than 16 references below its root. */
  lemma {:induction false} ThreadsAgreeExactly(refs: Refs)
    requires ChainsEnd(refs)
    ensures ThreadsAreRootClasses(refs) <==> forall y :: y in refs ==> Depth(refs, y) <= 16
  {
    if y :| y in refs && MEMBER_HOPS < Depth(refs, y) {
      var z, r := DeepLetterIsMissed(refs, y);
    } else {
      forall x, y | x in refs && y in refs ensures y in ThreadIds(refs, x) <==> Root(refs, y) == Root(refs, x) {
        ShallowAgree(refs, x, y);
      }
    }
  }

  /** Then every letter is in its own thread, and two threads are the same or disjoint. */
  lemma {:induction false} ThreadsPartition(refs: Refs, x: string, y: string)
    requires ThreadsAreRootClasses(refs) && x in refs && y in refs
    ensures x in ThreadIds(refs, x)
    ensures ThreadIds(refs, x) == ThreadIds(refs, y) || ThreadIds(refs, x) !! ThreadIds(refs, y)
  {
    var p, q := ThreadIds(refs, x), ThreadIds(refs, y);
    forall z ensures z in p <==> z in refs && Root(refs, z) == Root(refs, x) {}
    forall z ensures z in q <==> z in refs && Root(refs, z) == Root(refs, y) {}
  }

  /** Who is in a thread, in terms of references followed: at most 16 lead from it to the root. */
  lemma {:induction false} ThreadMembership(refs: Refs, x: string, y: string)
    ensures y in ThreadIds(refs, x) <==> y in refs && exists k :: 0 <= k <= 16 && Follow(refs, y, k) == Some(Root(refs, x))
  {
    HitsWhenReached(refs, y, Root(refs, x), 16);
  }

  /** The root of a letter: the end of its chain if that is at most 32 references long, and
      otherwise the letter 32 references up. */
  lemma {:induction false} RootIs(refs: Refs, x: string, d: nat)
    requires Ends(refs, x, d)
    ensures UpN(refs, x, if d <= 32 then d else 32) == Some(Root(refs, x))
  {
    ClimbIs(refs, x, d, 32);
  }
}
