/** Any number of pools with any peer tables, rings included, that may learn peers at any time:
    requests and receipts in flight, arriving in any order or getting lost. No letter goes
    round. */
module Network {
  import opened Basics
  import opened Lifecycle
  import opened MemoryStore
  import opened Federation
  import Mailbox
  import Histories

  // ---------- the network ----------

  /** The twin that waits for the outcome of a relay. */
  datatype Twin = Twin(url: string, receiver: string, id: string)

  /** Everything in flight belongs to one client request, its origin. */
  datatype Flight =
    | Call(origin: nat, url: string, request: Request, twin: Option<Twin>)
    | Receipt(origin: nat, home: Twin)

  /** What happened for an origin: a letter stored, a letter sent on, a twin marked delivered. */
  datatype Mark = Wrote(origin: nat, hops: nat) | Relayed(origin: nat) | Settled(origin: nat)

  datatype Net = Net(pools: map<string, Pool>, requests: seq<Request>, flights: seq<Flight>, history: seq<Mark>)

  datatype NetStep =
    | Client(url: string, request: Request)
    | Arrive(i: nat, world: World)
    | Lose(i: nat)
    | Join(url: string, peer: Peer)

  /** Clients do not pose as pools. */
  predicate Enabled(net: Net, step: NetStep) {
    match step
    case Client(_, request) => request.header.None?
    case Arrive(i, _) => i < |net.flights|
    case Lose(i) => i < |net.flights|
    case Join(_, _) => true
  }

  function Writes(origin: nat, wrote: seq<Letter>): seq<Mark> {
    seq(|wrote|, k requires 0 <= k < |wrote| => Wrote(origin, wrote[k].hops))
  }

  /** The request sent on, if there is one. */
  function Passed(call: Flight, h: Handled): seq<Flight>
    requires call.Call?
  {
    match h.relay
    case Some(q) => [Call(call.origin, q.url, q.request, Some(Twin(call.url, q.receiver, q.id)))]
    case None => []
  }

  /** The receipt for the twin at home, if one waits and the letter was accepted. */
  function Acknowledged(call: Flight, h: Handled): seq<Flight>
    requires call.Call?
  {
    if call.twin.Some? && h.accepted then [Receipt(call.origin, call.twin.value)] else []
  }

  /** What the handling of a call puts into flight. */
  function Onward(call: Flight, h: Handled): seq<Flight>
    requires call.Call?
  {
    Passed(call, h) + Acknowledged(call, h)
  }

  function Marks(call: Flight, h: Handled): seq<Mark>
    requires call.Call?
  {
    Writes(call.origin, h.wrote) + (if h.relay.Some? then [Relayed(call.origin)] else [])
  }

  /** The receipt marks the home twin delivered, if it is still queued. */
  function Settle(pool: Pool, twin: Twin, now: nat): Pool {
    if twin.receiver in pool.bus.roles then
      pool.(bus := pool.bus.(boxes := Touched(pool.bus.boxes, twin.receiver, twin.id, OpDeliver, now)))
    else pool
  }

  /** A peer learned while the pool runs takes the place of one with its name. */
  function Joined(pool: Pool, peer: Peer): Pool {
    pool.(learned := Others(pool.learned, peer.name) + [peer])
  }

  function Others(peers: seq<Peer>, name: string): seq<Peer> {
    if peers == [] then []
    else (if peers[0].name == name then [] else [peers[0]]) + Others(peers[1..], name)
  }

  function Arrived(net: Net, i: nat, w: World): Net
    requires i < |net.flights|
  {
    var rest := Without(net.flights, i);
    match net.flights[i]
    case Call(origin, url, request, twin) =>
      if url !in net.pools then net.(flights := rest)
      else
        var h := Handle(net.pools[url], request, w);
        net.(pools := net.pools[url := h.pool],
             flights := rest + Onward(net.flights[i], h),
             history := net.history + Marks(net.flights[i], h))
    case Receipt(origin, twin) =>
      net.(pools := if twin.url in net.pools then net.pools[twin.url := Settle(net.pools[twin.url], twin, w.now)] else net.pools,
           flights := rest,
           history := net.history + [Settled(origin)])
  }

  function Next(net: Net, step: NetStep): Net
    requires Enabled(net, step)
  {
    match step
    case Client(url, request) =>
      net.(requests := net.requests + [request],
           flights := net.flights + [Call(|net.requests|, url, request, None)])
    case Arrive(i, w) => Arrived(net, i, w)
    case Lose(i) => net.(flights := Without(net.flights, i))
    case Join(url, peer) =>
      if url in net.pools then net.(pools := net.pools[url := Joined(net.pools[url], peer)]) else net
  }

  ghost predicate Legal(net: Net, run: seq<NetStep>)
    decreases |run|
  {
    run != [] ==> Enabled(net, run[0]) && Legal(Next(net, run[0]), run[1..])
  }

  ghost function After(net: Net, run: seq<NetStep>): Net
    requires Legal(net, run)
    decreases |run|
  {
    if run == [] then net else After(Next(net, run[0]), run[1..])
  }

  // ---------- tallies ----------

  function Tally<T>(s: seq<T>, p: T -> bool): nat {
    if s == [] then 0 else Tally(s[..|s| - 1], p) + if p(s[|s| - 1]) then 1 else 0
  }

  lemma {:induction false} TallyJoin<T>(s: seq<T>, t: seq<T>, p: T -> bool)
    ensures Tally(s + t, p) == Tally(s, p) + Tally(t, p)
  {
    if t == [] {
      assert s + t == s;
    } else {
      assert (s + t)[..|s + t| - 1] == s + t[..|t| - 1];
      TallyJoin(s, t[..|t| - 1], p);
    }
  }

  lemma {:induction false} TallyOne<T>(x: T, p: T -> bool)
    ensures Tally([x], p) == if p(x) then 1 else 0
  {
    assert [x][..0] == [];
  }

  function Direct(o: nat): Flight -> bool { (f: Flight) => f.Call? && f.origin == o && f.request.header.None? }
  function OverLink(o: nat): Flight -> bool { (f: Flight) => f.Call? && f.origin == o && f.request.header.Some? }
  function Receipts(o: nat): Flight -> bool { (f: Flight) => f.Receipt? && f.origin == o }

  function AtHops(o: nat, hops: nat): Mark -> bool { (m: Mark) => m == Wrote(o, hops) }
  function Stored(o: nat): Mark -> bool { (m: Mark) => m.Wrote? && m.origin == o }
  function Forwards(o: nat): Mark -> bool { (m: Mark) => m == Relayed(o) }
  function Settlements(o: nat): Mark -> bool { (m: Mark) => m == Settled(o) }

  /** What is in flight for one origin. */
  datatype Sky = Sky(direct: nat, overLink: nat, receipts: nat) {
    predicate IsSum(a: Sky, b: Sky) {
      direct == a.direct + b.direct && overLink == a.overLink + b.overLink && receipts == a.receipts + b.receipts
    }
  }

  function SkyOf(flights: seq<Flight>, o: nat): Sky {
    Sky(Tally(flights, Direct(o)), Tally(flights, OverLink(o)), Tally(flights, Receipts(o)))
  }

  /** What has happened for one origin. */
  datatype Deeds = Deeds(atHome: nat, away: nat, stored: nat, forwards: nat, settled: nat) {
    predicate IsSum(a: Deeds, b: Deeds) {
      && atHome == a.atHome + b.atHome && away == a.away + b.away && stored == a.stored + b.stored
      && forwards == a.forwards + b.forwards && settled == a.settled + b.settled
    }
  }

  function DeedsOf(history: seq<Mark>, o: nat): Deeds {
    Deeds(Tally(history, AtHops(o, 0)), Tally(history, AtHops(o, 1)), Tally(history, Stored(o)),
          Tally(history, Forwards(o)), Tally(history, Settlements(o)))
  }

  lemma {:induction false} SkiesJoin(f: seq<Flight>, g: seq<Flight>, o: nat)
    ensures SkyOf(f + g, o).IsSum(SkyOf(f, o), SkyOf(g, o))
  {
    TallyJoin(f, g, Direct(o));
    TallyJoin(f, g, OverLink(o));
    TallyJoin(f, g, Receipts(o));
  }

  lemma {:induction false} DeedsJoin(h: seq<Mark>, k: seq<Mark>, o: nat)
    ensures DeedsOf(h + k, o).IsSum(DeedsOf(h, o), DeedsOf(k, o))
  {
    TallyJoin(h, k, AtHops(o, 0));
    TallyJoin(h, k, AtHops(o, 1));
    TallyJoin(h, k, Stored(o));
    TallyJoin(h, k, Forwards(o));
    TallyJoin(h, k, Settlements(o));
  }

  lemma {:induction false} SkyOfOne(f: Flight, o: nat)
    ensures SkyOf([f], o) == Sky(One(Direct(o)(f)), One(OverLink(o)(f)), One(Receipts(o)(f)))
  {
    TallyOne(f, Direct(o));
    TallyOne(f, OverLink(o));
    TallyOne(f, Receipts(o));
  }

  lemma {:induction false} DeedsOfOne(m: Mark, o: nat)
    ensures DeedsOf([m], o) ==
            Deeds(One(m == Wrote(o, 0)), One(m == Wrote(o, 1)), One(m.Wrote? && m.origin == o),
                  One(m == Relayed(o)), One(m == Settled(o)))
  {
    TallyOne(m, AtHops(o, 0));
    TallyOne(m, AtHops(o, 1));
    TallyOne(m, Stored(o));
    TallyOne(m, Forwards(o));
    TallyOne(m, Settlements(o));
  }

  lemma {:induction false} SkyWithout(f: seq<Flight>, i: nat, o: nat)
    requires i < |f|
    ensures SkyOf(f, o).IsSum(SkyOf(Without(f, i), o), SkyOf([f[i]], o))
  {
    assert f == (f[..i] + [f[i]]) + f[i + 1..];
    SkiesJoin(f[..i] + [f[i]], f[i + 1..], o);
    SkiesJoin(f[..i], [f[i]], o);
    SkiesJoin(f[..i], f[i + 1..], o);
  }

  // ---------- the invariant ----------

  /** Each letter has been stored at home at most once, sent on at most once and only then
      stored away, and its home twin settled only if it was stored away. */
  predicate Contained(s: Sky, d: Deeds) {
    && s.direct + d.atHome <= 1
    && s.direct + d.forwards <= 1
    && d.forwards <= d.atHome
    && s.overLink + d.away <= d.forwards
    && s.receipts + d.settled <= d.away
    && d.stored == d.atHome + d.away
  }

  predicate WellSent(requests: seq<Request>, f: Flight) {
    && f.origin < |requests|
    && (f.Call? ==>
          && f.request.receiver == requests[f.origin].receiver
          && (f.request.header.None? ==> f.twin.None?)
          && (f.request.header.Some? ==> f.request.hops == 1))
  }

  ghost predicate Inv(net: Net) {
    && (forall i :: 0 <= i < |net.flights| ==> WellSent(net.requests, net.flights[i]))
    && (forall i :: 0 <= i < |net.history| ==> net.history[i].origin < |net.requests|)
    && (forall o: nat :: o < |net.requests| && net.requests[o].receiver != "all" ==>
          Contained(SkyOf(net.flights, o), DeedsOf(net.history, o)))
  }

  function CallSky(c: Flight, h: Handled, o: nat): Sky
    requires c.Call?
  {
    if o != c.origin then Sky(0, 0, 0) else Sky(0, One(h.relay.Some?), One(c.twin.Some? && h.accepted))
  }

  function CallDeeds(c: Flight, h: Handled, o: nat): Deeds
    requires c.Call? && (o == c.origin ==> |h.wrote| <= 1)
  {
    if o != c.origin then Deeds(0, 0, 0, 0, 0)
    else
      Deeds(One(|h.wrote| == 1 && h.wrote[0].hops == 0), One(|h.wrote| == 1 && h.wrote[0].hops == 1), |h.wrote|,
            One(h.relay.Some?), 0)
  }

  lemma {:induction false} PassedSky(c: Flight, h: Handled, o: nat)
    requires c.Call?
    requires h.relay.Some? ==> h.relay.value.request.header.Some?
    ensures SkyOf(Passed(c, h), o) == Sky(0, One(o == c.origin && h.relay.Some?), 0)
  {
    if h.relay.Some? {
      SkyOfOne(Passed(c, h)[0], o);
    }
  }

  lemma {:induction false} AcknowledgedSky(c: Flight, h: Handled, o: nat)
    requires c.Call?
    ensures SkyOf(Acknowledged(c, h), o) == Sky(0, 0, One(o == c.origin && c.twin.Some? && h.accepted))
  {
    if c.twin.Some? && h.accepted {
      SkyOfOne(Acknowledged(c, h)[0], o);
    }
  }

  lemma {:induction false} OnwardSky(c: Flight, h: Handled, o: nat)
    requires c.Call?
    requires h.relay.Some? ==> h.relay.value.request.header.Some?
    ensures SkyOf(Onward(c, h), o) == CallSky(c, h, o)
  {
    SkiesJoin(Passed(c, h), Acknowledged(c, h), o);
    PassedSky(c, h, o);
    AcknowledgedSky(c, h, o);
  }

  lemma {:induction false} WritesDeeds(origin: nat, wrote: seq<Letter>)
    requires |wrote| <= 1
    ensures DeedsOf(Writes(origin, wrote), origin) ==
            if wrote == [] then Deeds(0, 0, 0, 0, 0)
            else Deeds(One(wrote[0].hops == 0), One(wrote[0].hops == 1), 1, 0, 0)
  {
    if wrote == [] {
      assert Writes(origin, wrote) == [];
    } else {
      assert Writes(origin, wrote) == [Wrote(origin, wrote[0].hops)];
      DeedsOfOne(Wrote(origin, wrote[0].hops), origin);
    }
  }

  lemma {:induction false} TallyNone<T>(s: seq<T>, p: T -> bool)
    requires forall k :: 0 <= k < |s| ==> !p(s[k])
    ensures Tally(s, p) == 0
  {
    if s != [] {
      TallyNone(s[..|s| - 1], p);
    }
  }

  lemma {:induction false} OthersDeeds(history: seq<Mark>, o: nat)
    requires forall k :: 0 <= k < |history| ==> history[k].origin != o
    ensures DeedsOf(history, o) == Deeds(0, 0, 0, 0, 0)
  {
    TallyNone(history, AtHops(o, 0));
    TallyNone(history, AtHops(o, 1));
    TallyNone(history, Stored(o));
    TallyNone(history, Forwards(o));
    TallyNone(history, Settlements(o));
  }

  lemma {:induction false} MarkDeeds(c: Flight, h: Handled, o: nat)
    requires c.Call? && (o == c.origin ==> |h.wrote| <= 1)
    ensures DeedsOf(Marks(c, h), o) == CallDeeds(c, h, o)
  {
    if o != c.origin {
      OthersDeeds(Marks(c, h), o);
    } else {
      var u := Writes(c.origin, h.wrote);
      WritesDeeds(c.origin, h.wrote);
      if h.relay.Some? {
        DeedsJoin(u, [Relayed(c.origin)], o);
        DeedsOfOne(Relayed(c.origin), o);
      } else {
        assert u + [] == u;
      }
    }
  }

  /** Handling a call that is well sent keeps its letter contained. */
  lemma {:induction false} CallContained(pool: Pool, c: Flight, w: World, requests: seq<Request>, o: nat,
                                         s: Sky, rest: Sky, s': Sky, d: Deeds, d': Deeds)
    requires c.Call? && WellSent(requests, c) && (o == c.origin ==> c.request.receiver != "all")
    requires o == c.origin ==> |Handle(pool, c.request, w).wrote| <= 1
    requires Contained(s, d) && s.IsSum(rest, SkyOf([c], o))
    requires s'.IsSum(rest, CallSky(c, Handle(pool, c.request, w), o))
    requires d'.IsSum(d, CallDeeds(c, Handle(pool, c.request, w), o))
    ensures Contained(s', d')
  {
    SkyOfOne(c, o);
    if o == c.origin {
      StoredOnce(pool, c.request, w);
      if c.request.header.Some? {
        ArrivalsStay(pool, c.request, w);
      } else if Handle(pool, c.request, w).relay.Some? {
        RelayedOnce(pool, c.request, w);
      }
    }
  }

  // ---------- every run ----------

  lemma {:induction false} OnwardWellSent(pool: Pool, c: Flight, w: World, requests: seq<Request>)
    requires c.Call? && WellSent(requests, c)
    ensures var h := Handle(pool, c.request, w);
            && (forall k :: 0 <= k < |Onward(c, h)| ==> WellSent(requests, Onward(c, h)[k]))
            && (forall k :: 0 <= k < |Marks(c, h)| ==> Marks(c, h)[k].origin == c.origin)
  {
    if Handle(pool, c.request, w).relay.Some? {
      RelayedOnce(pool, c.request, w);
    }
  }

  lemma {:induction false} AllWithout<T>(s: seq<T>, i: nat, t: seq<T>, p: T -> bool)
    requires i < |s| && (forall k :: 0 <= k < |s| ==> p(s[k])) && (forall k :: 0 <= k < |t| ==> p(t[k]))
    ensures forall k :: 0 <= k < |Without(s, i) + t| ==> p((Without(s, i) + t)[k])
  {}

  lemma {:induction false} ArrivedWellSent(net: Net, i: nat, w: World)
    requires Inv(net) && i < |net.flights|
    ensures var next := Arrived(net, i, w);
            && next.requests == net.requests
            && (forall k :: 0 <= k < |next.flights| ==> WellSent(net.requests, next.flights[k]))
            && (forall k :: 0 <= k < |next.history| ==> next.history[k].origin < |net.requests|)
  {
    var c := net.flights[i];
    var sound := (f: Flight) => WellSent(net.requests, f);
    assert sound(c);
    if c.Call? && c.url in net.pools {
      var h := Handle(net.pools[c.url], c.request, w);
      OnwardWellSent(net.pools[c.url], c, w, net.requests);
      AllWithout(net.flights, i, Onward(c, h), sound);
      assert forall k :: 0 <= k < |Without(net.flights, i) + Onward(c, h)| ==>
               sound((Without(net.flights, i) + Onward(c, h))[k]);
    } else {
      AllWithout(net.flights, i, [], sound);
      assert Without(net.flights, i) + [] == Without(net.flights, i);
      assert forall k :: 0 <= k < |Without(net.flights, i)| ==> sound(Without(net.flights, i)[k]);
    }
  }

  lemma {:induction false} ReceiptArrivesContained(net: Net, i: nat, w: World, o: nat)
    requires i < |net.flights| && Contained(SkyOf(net.flights, o), DeedsOf(net.history, o))
    requires net.flights[i].Receipt?
    ensures var next := Arrived(net, i, w); Contained(SkyOf(next.flights, o), DeedsOf(next.history, o))
  {
    var c := net.flights[i];
    SkyWithout(net.flights, i, o);
    SkyOfOne(c, o);
    DeedsJoin(net.history, [Settled(c.origin)], o);
    DeedsOfOne(Settled(c.origin), o);
  }

  lemma {:induction false} ArrivedContained(net: Net, i: nat, w: World, o: nat)
    requires i < |net.flights| && Contained(SkyOf(net.flights, o), DeedsOf(net.history, o))
    requires WellSent(net.requests, net.flights[i]) && (o == net.flights[i].origin ==> net.requests[o].receiver != "all")
    ensures var next := Arrived(net, i, w); Contained(SkyOf(next.flights, o), DeedsOf(next.history, o))
  {
    var c := net.flights[i];
    if c.Receipt? {
      ReceiptArrivesContained(net, i, w, o);
    } else if c.url in net.pools {
      CallArrivesContained(net, i, w, o);
    } else {
      LostContained(net, i, o);
    }
  }

  lemma {:induction false} CallArrivesContained(net: Net, i: nat, w: World, o: nat)
    requires i < |net.flights| && Contained(SkyOf(net.flights, o), DeedsOf(net.history, o))
    requires WellSent(net.requests, net.flights[i]) && (o == net.flights[i].origin ==> net.requests[o].receiver != "all")
    requires net.flights[i].Call? && net.flights[i].url in net.pools
    ensures var next := Arrived(net, i, w); Contained(SkyOf(next.flights, o), DeedsOf(next.history, o))
  {
    var c := net.flights[i];
    var pool := net.pools[c.url];
    var h := Handle(pool, c.request, w);
    var rest := Without(net.flights, i);
    assert WellSent(net.requests, c);
    if o == c.origin {
      StoredOnce(pool, c.request, w);
    }
    if h.relay.Some? {
      RelayedOnce(pool, c.request, w);
    }
    SkyWithout(net.flights, i, o);
    SkiesJoin(rest, Onward(c, h), o);
    OnwardSky(c, h, o);
    DeedsJoin(net.history, Marks(c, h), o);
    MarkDeeds(c, h, o);
    CallContained(pool, c, w, net.requests, o, SkyOf(net.flights, o), SkyOf(rest, o), SkyOf(rest + Onward(c, h), o),
                  DeedsOf(net.history, o), DeedsOf(net.history + Marks(c, h), o));
  }

  lemma {:induction false} LostContained(net: Net, i: nat, o: nat)
    requires i < |net.flights| && Contained(SkyOf(net.flights, o), DeedsOf(net.history, o))
    ensures Contained(SkyOf(Without(net.flights, i), o), DeedsOf(net.history, o))
  {
    SkyWithout(net.flights, i, o);
  }

  lemma {:induction false} OldOriginContained(flights: seq<Flight>, c: Flight, o: nat, d: Deeds)
    requires Contained(SkyOf(flights, o), d) && c.origin != o
    ensures Contained(SkyOf(flights + [c], o), d)
  {
    SkiesJoin(flights, [c], o);
    SkyOfOne(c, o);
  }

  lemma {:induction false} NewOriginContained(flights: seq<Flight>, history: seq<Mark>, c: Flight, o: nat)
    requires c.Call? && c.origin == o && c.request.header.None?
    requires forall k :: 0 <= k < |flights| ==> flights[k].origin < o
    requires forall k :: 0 <= k < |history| ==> history[k].origin < o
    ensures Contained(SkyOf(flights + [c], o), DeedsOf(history, o))
  {
    SkiesJoin(flights, [c], o);
    SkyOfOne(c, o);
    OthersDeeds(history, o);
    NoFlights(flights, o);
  }

  lemma {:induction false} NoFlights(flights: seq<Flight>, o: nat)
    requires forall k :: 0 <= k < |flights| ==> flights[k].origin < o
    ensures SkyOf(flights, o) == Sky(0, 0, 0)
  {
    TallyNone(flights, Direct(o));
    TallyNone(flights, OverLink(o));
    TallyNone(flights, Receipts(o));
  }

  lemma {:induction false} InvStep(net: Net, step: NetStep)
    requires Inv(net) && Enabled(net, step)
    ensures Inv(Next(net, step))
  {
    var next := Next(net, step);
    match step
    case Client(url, request) =>
      forall k | 0 <= k < |next.flights| ensures WellSent(next.requests, next.flights[k]) {
        if k < |net.flights| {
          assert WellSent(net.requests, net.flights[k]);
        }
      }
      forall o: nat | o < |next.requests| && next.requests[o].receiver != "all"
        ensures Contained(SkyOf(next.flights, o), DeedsOf(next.history, o))
      {
        var c := Call(|net.requests|, url, request, None);
        if o < |net.requests| {
          OldOriginContained(net.flights, c, o, DeedsOf(net.history, o));
        } else {
          NewOriginContained(net.flights, net.history, c, o);
        }
      }
    case Arrive(i, w) =>
      ArrivedWellSent(net, i, w);
      forall o: nat | o < |next.requests| && next.requests[o].receiver != "all"
        ensures Contained(SkyOf(next.flights, o), DeedsOf(next.history, o))
      {
        ArrivedContained(net, i, w, o);
      }
    case Lose(i) =>
      forall o: nat | o < |next.requests| && next.requests[o].receiver != "all"
        ensures Contained(SkyOf(next.flights, o), DeedsOf(next.history, o))
      {
        LostContained(net, i, o);
      }
    case Join(url, peer) =>
  }

  lemma {:induction false} InvAlways(net: Net, run: seq<NetStep>)
    requires Inv(net) && Legal(net, run)
    ensures Inv(After(net, run))
    decreases |run|
  {
    if run != [] {
      InvStep(net, run[0]);
      InvAlways(Next(net, run[0]), run[1..]);
    }
  }

  /** No letter goes round, whatever the peer tables: a client's letter that is not addressed to
      all is sent on at most once and stored at most twice, once with no hops and once with one;
      and its twin at home is settled at most once, and only if the other twin was stored. */
  lemma {:induction false} NothingGoesRound(pools: map<string, Pool>, run: seq<NetStep>, o: nat)
    requires Legal(Net(pools, [], [], []), run)
    requires var net := After(Net(pools, [], [], []), run); o < |net.requests| && net.requests[o].receiver != "all"
    ensures var d := DeedsOf(After(Net(pools, [], [], []), run).history, o);
            && d.forwards <= 1
            && d.atHome <= 1 && d.away <= d.forwards && d.stored == d.atHome + d.away <= 2
            && d.settled <= d.away
  {
    InvAlways(Net(pools, [], [], []), run);
  }

  /** A receipt delivers exactly the twin that it names, if it is still queued. */
  lemma {:induction false} ReceiptSettlesTwin(pool: Pool, m: Letter, id: string, now: nat)
    requires WellFormed(pool.bus.boxes) && m.receiver in pool.bus.boxes && m in pool.bus.boxes[m.receiver]
    requires m.receiver in pool.bus.roles
    ensures var boxes := Settle(pool, Twin("", m.receiver, id), now).bus.boxes;
            Histories.LetterOf(boxes, m.id) == Some(if id == m.id then BackendOp(Memory, m, OpDeliver, now) else m)
    ensures Settle(pool, Twin("", m.receiver, id), now).bus.roles == pool.bus.roles
  {
    Histories.TouchStep(pool.bus.boxes, m.receiver, id, OpDeliver, now, m);
  }

  /** A peer that a pool learns takes the place of those with its name and leaves the others. */
  lemma {:induction false} JoinReplaces(pool: Pool, peer: Peer)
    ensures forall p :: p in Joined(pool, peer).learned <==> p == peer || (p in pool.learned && p.name != peer.name)
  {
    OthersAre(pool.learned, peer.name);
  }

  lemma {:induction false} OthersAre(peers: seq<Peer>, name: string)
    ensures forall p :: p in Others(peers, name) <==> p in peers && p.name != name
  {
    if peers != [] {
      OthersAre(peers[1..], name);
      assert forall p :: p in peers <==> p == peers[0] || p in peers[1..];
    }
  }

  // ---------- a whole handover ----------

  /** The run of one handover: a client's request, its handling at home, the relayed request at
      the far pool, and the receipt back home. */
  function Handover(home: string, r: Request, w: World, w': World, w'': World): seq<NetStep> {
    [Client(home, r), Arrive(0, w), Arrive(0, w'), Arrive(0, w'')]
  }

  /** The network after the request has been handled at home. */
  lemma {:induction false} HandoverStarts(pools: map<string, Pool>, home: string, r: Request, w: World)
    requires home in pools && r.header.None? && Handle(pools[home], r, w).relay.Some?
    ensures var h := Handle(pools[home], r, w);
            var net := Next(Next(Net(pools, [], [], []), Client(home, r)), Arrive(0, w));
            && net.pools == pools[home := h.pool]
            && net.flights == [Call(0, h.relay.value.url, h.relay.value.request,
                                    Some(Twin(home, h.wrote[0].receiver, h.wrote[0].id)))]
  {
    RelayedOnce(pools[home], r, w);
    SentOnExactlyWhen(pools[home], r, w);
  }

  lemma {:induction false} HandoverCalls(pool: Pool, r: Request, w: World)
    requires r.header.None? && Handle(pool, r, w).relay.Some?
    ensures |Handle(pool, r, w).wrote| == 1 && Handle(pool, r, w).relay.value.request.header.Some?
  {
    RelayedOnce(pool, r, w);
    SentOnExactlyWhen(pool, r, w);
  }

  /** The network after the relayed request has been accepted at the far pool. */
  lemma {:induction false} HandoverArrives(net: Net, c: Flight, w: World)
    requires net.flights == [c] && c.Call? && c.url in net.pools && c.request.header.Some? && c.twin.Some?
    requires Handle(net.pools[c.url], c.request, w).accepted
    ensures var next := Next(net, Arrive(0, w));
            && next.pools == net.pools[c.url := Handle(net.pools[c.url], c.request, w).pool]
            && next.flights == [Receipt(c.origin, c.twin.value)]
  {
    ArrivalsStay(net.pools[c.url], c.request, w);
  }

  /** The network after the receipt has come back. */
  lemma {:induction false} HandoverSettles(net: Net, origin: nat, twin: Twin, w: World)
    requires net.flights == [Receipt(origin, twin)] && twin.url in net.pools
    ensures var end := Next(net, Arrive(0, w));
            end.flights == [] && end.pools == net.pools[twin.url := Settle(net.pools[twin.url], twin, w.now)]
  {}

  /** The mailbox of the request's receiver has gained one letter, with what the request says. */
  ghost predicate Gained(before: Pool, after: Pool, r: Request, id: string, hops: nat, status: Status, deliveredAt: Option<nat>) {
    exists m: Letter ::
      && m.id == id && m.hops == hops && m.status == status && m.deliveredAt == deliveredAt
      && m.sender == r.sender && m.receiver == r.receiver && m.subject == r.subject && m.body == r.body
      && BoxOf(after.bus.boxes, r.receiver) == BoxOf(before.bus.boxes, r.receiver) + [m]
  }

  lemma {:induction false} FourSteps(net: Net, run: seq<NetStep>)
    requires |run| == 4 && Enabled(net, run[0])
    requires var n1 := Next(net, run[0]);
             Enabled(n1, run[1]) &&
             var n2 := Next(n1, run[1]);
             Enabled(n2, run[2]) && Enabled(Next(n2, run[2]), run[3])
    ensures Legal(net, run)
    ensures After(net, run) == Next(Next(Next(Next(net, run[0]), run[1]), run[2]), run[3])
  {
    var n1 := Next(net, run[0]);
    var n2 := Next(n1, run[1]);
    var n3 := Next(n2, run[2]);
    assert run[3..][0] == run[3] && run[3..][1..] == [];
    assert Legal(n3, run[3..]) && After(n3, run[3..]) == Next(n3, run[3]);
    assert run[2..][0] == run[2] && run[2..][1..] == run[3..];
    assert Legal(n2, run[2..]) && After(n2, run[2..]) == After(n3, run[3..]);
    assert run[1..][0] == run[1] && run[1..][1..] == run[2..];
    assert Legal(n1, run[1..]) && After(n1, run[1..]) == After(n2, run[2..]);
  }

  /** The network after the receipt has come back. */
  lemma {:induction false} HandoverRuns(pools: map<string, Pool>, home: string, r: Request, w: World, w': World, w'': World)
    requires home in pools && r.header.None? && Handle(pools[home], r, w).relay.Some?
    requires var q := Handle(pools[home], r, w).relay.value;
             q.url in pools && q.url != home && Handle(pools[q.url], q.request, w').accepted
    ensures var h := Handle(pools[home], r, w);
            var net := Net(pools, [], [], []);
            && Legal(net, Handover(home, r, w, w', w''))
            && |h.wrote| == 1
            && After(net, Handover(home, r, w, w', w'')).flights == []
            && After(net, Handover(home, r, w, w', w'')).pools ==
               pools[h.relay.value.url := Handle(pools[h.relay.value.url], h.relay.value.request, w').pool]
                    [home := Settle(h.pool, Twin(home, h.wrote[0].receiver, h.wrote[0].id), w''.now)]
  {
    var net := Net(pools, [], [], []);
    var n2 := Next(Next(net, Client(home, r)), Arrive(0, w));
    HandoverCalls(pools[home], r, w);
    HandoverStarts(pools, home, r, w);
    HandoverArrives(n2, n2.flights[0], w');
    HandoverSettles(Next(n2, Arrive(0, w')), 0, n2.flights[0].twin.value, w'');
    FourSteps(net, Handover(home, r, w, w', w''));
  }

  /** A letter that is handed over, and whose receipt comes back, ends delivered at home, at the
      time of the receipt, while its twin waits in the receiver's mailbox at the peer's pool. */
  lemma {:induction false} HandoverCompletes(pools: map<string, Pool>, home: string, r: Request, w: World, w': World, w'': World)
    requires home in pools && r.header.None? && Handle(pools[home], r, w).relay.Some?
    requires var q := Handle(pools[home], r, w).relay.value;
             q.url in pools && q.url != home && Handle(pools[q.url], q.request, w').accepted
    requires WellFormed(pools[home].bus.boxes) && !IdInUse(pools[home].bus.boxes, w.mint(0))
    ensures var far := HomePeer(pools[home], r.receiver).value.url;
            var net := Net(pools, [], [], []);
            Legal(net, Handover(home, r, w, w', w'')) &&
            var end := After(net, Handover(home, r, w, w', w''));
            && end.flights == [] && home in end.pools && far in end.pools
            && Gained(pools[home], end.pools[home], r, w.mint(0), 0, Delivered, Some(w''.now))
            && Gained(pools[far], end.pools[far], r, w'.mint(0), 1, Queued, None)
  {
    var q := Handle(pools[home], r, w).relay.value;
    SentOnExactlyWhen(pools[home], r, w);
    HandoverRuns(pools, home, r, w, w', w'');
    HandoverEnds(home, pools[home], r, w, pools[q.url], w', w''.now);
  }

  /** What both mailboxes have gained. */
  lemma {:induction false} HandoverEnds(url: string, home: Pool, r: Request, w: World, away: Pool, w': World, now: nat)
    requires r.header.None? && Handle(home, r, w).relay.Some?
    requires Handle(away, Handle(home, r, w).relay.value.request, w').accepted
    requires WellFormed(home.bus.boxes) && !IdInUse(home.bus.boxes, w.mint(0))
    ensures var h := Handle(home, r, w);
            && |h.wrote| == 1
            && Gained(home, Settle(h.pool, Twin(url, h.wrote[0].receiver, h.wrote[0].id), now), r, w.mint(0), 0, Delivered, Some(now))
            && Gained(away, Handle(away, h.relay.value.request, w').pool, r, w'.mint(0), 1, Queued, None)
  {
    var h := Handle(home, r, w);
    var q := h.relay.value.request;
    RelayedOnce(home, r, w);
    SentOnExactlyWhen(home, r, w);
    StoresWhatWasSent(home, r, w);
    StoresWhatWasSent(away, q, w');
    StoredOnce(away, q, w');
    TwinsAgree(home, r, w, away, w');
    OutboundRegisters(home, r, w);
    HomeTwinSettles(url, home, h, r, w, now);
  }

  /** The twin at home, at the end of its mailbox, is the one that the receipt delivers. */
  lemma {:induction false} HomeTwinSettles(url: string, before: Pool, h: Handled, r: Request, w: World, now: nat)
    requires r.receiver != "all" && h == Handle(before, r, w) && |h.wrote| == 1 && r.header.None?
    requires r.receiver in h.pool.bus.roles
    requires WellFormed(before.bus.boxes) && !IdInUse(before.bus.boxes, w.mint(0))
    ensures var m := h.wrote[0];
            && m.id == w.mint(0) && m.receiver == r.receiver
            && BoxOf(Settle(h.pool, Twin(url, m.receiver, m.id), now).bus.boxes, r.receiver) ==
               BoxOf(before.bus.boxes, r.receiver) + [m.(status := Delivered, deliveredAt := Some(now))]
  {
    StoresWhatWasSent(before, r, w);
    var m, was := h.wrote[0], BoxOf(before.bus.boxes, r.receiver);
    var box := BoxOf(h.pool.bus.boxes, r.receiver);
    assert box == was + [m];
    LastIsFound(before.bus.boxes, was, m, r.receiver);
    DeliverDoes(Memory, m, now);
  }

  lemma {:induction false} LastIsFound(boxes: Boxes, was: seq<Letter>, m: Letter, a: string)
    requires !IdInUse(boxes, m.id) && was == BoxOf(boxes, a)
    ensures Mailbox.IndexOf(was + [m], m.id) == |was|
  {
    if a in boxes {
      assert Mailbox.IndexOf(was, m.id) == |was|;
      AppendFound(was, m);
    }
  }

  lemma {:induction false} AppendFound(was: seq<Letter>, m: Letter)
    requires Mailbox.IndexOf(was, m.id) == |was|
    ensures Mailbox.IndexOf(was + [m], m.id) == |was|
  {
    if was != [] {
      assert (was + [m])[1..] == was[1..] + [m];
      AppendFound(was[1..], m);
    }
  }
}
