/** Routing letters between pools: what one pool does with one `message/send`, and how the two
    twins of a forwarded letter relate. */
module Federation {
  import opened Basics
  import opened Lifecycle
  import opened MemoryStore
  import opened Bus

  const MAX_HOPS: nat := 2

  datatype Peer = Peer(name: string, url: string, token: string, agents: seq<string>)

  predicate Contains(peer: Peer, agent: string) { agent in peer.agents }

  /** The home pool of an agent: the first peer that lists it. */
  function Resolve(peers: seq<Peer>, agent: string): Option<Peer> {
    if peers == [] then None
    else if Contains(peers[0], agent) then Some(peers[0])
    else Resolve(peers[1..], agent)
  }

  lemma {:induction false} ResolvesToFirst(peers: seq<Peer>, agent: string)
    ensures match Resolve(peers, agent)
            case Some(p) => exists i :: 0 <= i < |peers| && peers[i] == p && agent in p.agents
                                        && forall j :: 0 <= j < i ==> agent !in peers[j].agents
            case None => forall i :: 0 <= i < |peers| ==> agent !in peers[i].agents
  {
    if peers != [] && !Contains(peers[0], agent) {
      ResolvesToFirst(peers[1..], agent);
      match Resolve(peers[1..], agent)
      case Some(p) =>
        var i :| 0 <= i < |peers| - 1 && peers[1..][i] == p && Contains(p, agent)
                 && forall j :: 0 <= j < i ==> !Contains(peers[1..][j], agent);
        assert peers[i + 1] == p;
        forall j | 0 <= j < i + 1 ensures !Contains(peers[j], agent) {
          assert 0 < j ==> peers[j] == peers[1..][j - 1];
        }
      case None =>
        forall i | 0 <= i < |peers| ensures !Contains(peers[i], agent) {
          assert 0 < i ==> peers[i] == peers[1..][i - 1];
        }
    }
  }

  /** A pool: its own token if it asks for one, its configured peers, and those it has learned. */
  datatype Pool = Pool(name: string, token: Option<string>, peers: seq<Peer>, learned: seq<Peer>, bus: BusState)

  /** The parameters and headers of a `message/send`. */
  datatype Request = Request(sender: string, receiver: string, kind: Option<string>, subject: string, body: string,
                             parent: Option<string>, hops: nat, forwardedFrom: Option<string>,
                             header: Option<string>, bearer: Option<string>)

  // ---------- message types on the wire ----------

  /** Anything that is not recognised is a task. */
  function ParseType(kind: Option<string>): MsgType {
    if kind == Some("reply") then Reply
    else if kind == Some("broadcast") then MsgType.Broadcast
    else if kind == Some("ack_only") then AckOnly
    else Task
  }

  /** The name a forwarded letter carries. */
  function TypeName(t: MsgType): string {
    match t
    case Task => "task"
    case Reply => "reply"
    case Broadcast => "broadcast"
    case AckOnly => "ackonly"
  }

  /** Every type survives the wire but one, which arrives as a task. */
  lemma {:induction false} TypeAcrossWire(t: MsgType)
    ensures ParseType(Some(TypeName(t))) == t <==> t != AckOnly
    ensures t == AckOnly ==> ParseType(Some(TypeName(t))) == Task
  {
    assert |"ackonly"| == 7 && |"ack_only"| == 8 && |"reply"| == 5 && |"broadcast"| == 9 && |"task"| == 4;
  }

  // ---------- one request, one pool ----------

  datatype Route = ToAll | Inbound(from: string) | Outbound(peer: Peer) | Local

  function HomePeer(pool: Pool, agent: string): Option<Peer> {
    match Resolve(pool.peers, agent)
    case Some(p) => Some(p)
    case None => Resolve(pool.learned, agent)
  }

  function RouteOf(pool: Pool, r: Request): Route {
    if r.receiver == "all" then ToAll
    else if r.header.Some? then Inbound(r.header.value)
    else match HomePeer(pool, r.receiver)
         case Some(p) => Outbound(p)
         case None => Local
  }

  /** The hop count is read into eight bits. */
  function HopsOf(r: Request): nat { r.hops % 256 }

  function InboundRefusal(pool: Pool, r: Request): Option<string> {
    if pool.token.Some? && r.bearer != Some("Bearer " + pool.token.value) then
      Some("federated send requires the pool bearer token")
    else if HopsOf(r) == 0 || r.forwardedFrom.None? then Some("federated send must carry hops and forwarded_from")
    else if MAX_HOPS < HopsOf(r) then Some("hop limit exceeded")
    else None
  }

  function Registered(bus: BusState, agent: string): BusState {
    if agent in bus.roles then bus
    else
      bus.(roles := bus.roles[agent := Worker],
           agents := if agent in bus.agents then bus.agents else bus.agents + [agent],
           boxes := if agent in bus.boxes then bus.boxes else bus.boxes[agent := []])
  }

  function DraftOf(r: Request, hops: nat, forwardedFrom: Option<string>): Draft {
    Draft(r.sender, r.receiver, ParseType(r.kind), r.subject, r.body, r.parent, hops, forwardedFrom)
  }

  /** The relayed request, and the local twin it stands for. */
  datatype Relay = Relay(url: string, request: Request, receiver: string, id: string)

  /** A letter that has crossed too many links is not handed on. */
  function Forward(peer: Peer, m: Letter, poolName: string): Option<Relay> {
    if m.hops >= MAX_HOPS then None
    else
      Some(Relay(peer.url,
                 Request(m.sender, m.receiver, Some(TypeName(m.msgType)), m.subject, m.body, m.parent,
                         m.hops + 1, Some(poolName), Some(poolName), Some("Bearer " + peer.token)),
                 m.receiver, m.id))
  }

  /** What comes from outside: new ids, the time, and whether another caller takes the letter
      between its being stored and looked up again. */
  datatype World = World(mint: nat -> string, now: Instant, raced: bool)

  /** The pool afterwards, the letters it stored, the request it sends on, and its answer. */
  datatype Handled = Handled(pool: Pool, wrote: seq<Letter>, relay: Option<Relay>, accepted: bool)

  /** Send one letter over the pool's bus. */
  function SendOne(pool: Pool, bus: BusState, d: Draft, w: World): Handled {
    var ok := SendAnswer(bus, d, w.mint(0)).Ok?;
    Handled(pool.(bus := Sent(bus, d, w.mint(0), w.now)),
            if ok then [NewLetter(d, w.mint(0), w.now)] else [], None, ok)
  }

  function Copies(agents: seq<string>, r: Request, n: nat, w: World, from: nat): seq<Letter>
    decreases |agents|
  {
    if agents == [] || n == 0 then []
    else if agents[0] == r.sender then Copies(agents[1..], r, n, w, from)
    else [NewLetter(Copy(r.sender, agents[0], r.subject, r.body), w.mint(from), w.now)] + Copies(agents[1..], r, n - 1, w, from + 1)
  }

  function Handle(pool: Pool, r: Request, w: World): Handled {
    match RouteOf(pool, r)
    case ToAll =>
      var f := FanoutOver(pool.bus, pool.bus.agents, r.sender, r.subject, r.body, [], w.mint, w.now);
      Handled(pool.(bus := f.bus), Copies(pool.bus.agents, r, |f.ids|, w, 0), None, f.refusal.None?)
    case Inbound(_) =>
      if InboundRefusal(pool, r).Some? then Handled(pool, [], None, false)
      else SendOne(pool, Registered(pool.bus, r.sender), DraftOf(r, HopsOf(r), r.forwardedFrom), w)
    case Outbound(peer) =>
      var h := SendOne(pool, Registered(pool.bus, r.receiver), DraftOf(r, 0, Some(pool.name)), w);
      if !h.accepted || w.raced then h.(accepted := false)
      else
        var relay := Forward(peer, h.wrote[0], pool.name);
        h.(relay := relay, accepted := relay.Some?)
    case Local => SendOne(pool, pool.bus, DraftOf(r, 0, None), w)
  }

  // ---------- what crosses a link ----------

  /** A letter that arrives over a link is never sent on, nor is a broadcast. */
  lemma {:induction false} ArrivalsStay(pool: Pool, r: Request, w: World)
    requires r.header.Some? || r.receiver == "all"
    ensures Handle(pool, r, w).relay == None
  {}

  /** What a pool sends on carries one hop, its name and the header, for the same receiver; and
      the pool keeps exactly one twin, with no hops. */
  lemma {:induction false} RelayedOnce(pool: Pool, r: Request, w: World)
    requires Handle(pool, r, w).relay.Some?
    ensures var h := Handle(pool, r, w); var q := h.relay.value.request;
            && r.header.None? && r.receiver != "all"
            && q.header == Some(pool.name) && q.hops == 1 && q.forwardedFrom == Some(pool.name) && q.receiver == r.receiver
            && |h.wrote| == 1 && h.wrote[0].hops == 0 && h.accepted
  {}

  /** A letter that is not addressed to all is stored at most once, with no hops when it comes
      from a client and with one or two when it comes over a link. */
  lemma {:induction false} StoredOnce(pool: Pool, r: Request, w: World)
    requires r.receiver != "all"
    ensures var h := Handle(pool, r, w);
            && |h.wrote| <= 1
            && (|h.wrote| == 1 ==> if r.header.None? then h.wrote[0].hops == 0
                                   else 1 <= h.wrote[0].hops <= 2 && h.wrote[0].hops == r.hops % 256)
            && (r.header.Some? ==> (h.accepted <==> |h.wrote| == 1))
  {}

  /** A relayed request passes the envelope checks of any pool whose token the sender holds. */
  lemma {:induction false} RelayIsAdmitted(pool: Pool, r: Request, w: World, far: Pool)
    requires Handle(pool, r, w).relay.Some?
    requires var q := Handle(pool, r, w).relay.value.request; far.token.Some? ==> q.bearer == Some("Bearer " + far.token.value)
    ensures InboundRefusal(far, Handle(pool, r, w).relay.value.request) == None
  {
    RelayedOnce(pool, r, w);
  }

  /** The twins agree on everything a client wrote, on where the letter came from, and on the
      type unless it was a bare acknowledgement. */
  lemma {:induction false} TwinsAgree(pool: Pool, r: Request, w: World, far: Pool, w': World)
    requires Handle(pool, r, w).relay.Some?
    requires |Handle(far, Handle(pool, r, w).relay.value.request, w').wrote| == 1
    ensures var m, n := Handle(pool, r, w).wrote[0], Handle(far, Handle(pool, r, w).relay.value.request, w').wrote[0];
            && n.sender == m.sender && n.receiver == m.receiver && n.subject == m.subject && n.body == m.body
            && n.parent == m.parent && n.forwardedFrom == m.forwardedFrom == Some(pool.name)
            && n.hops == m.hops + 1
            && (n.msgType == m.msgType <==> m.msgType != AckOnly)
            && (m.msgType == AckOnly ==> n.msgType == Task)
  {
    RelayedOnce(pool, r, w);
    TypeAcrossWire(Handle(pool, r, w).wrote[0].msgType);
  }

  // ---------- what a pool stores ----------

  /** A letter carries exactly what its request says, as queued and under the new id. */
  predicate Carries(m: Letter, r: Request, w: World) {
    && m.id == w.mint(0) && m.createdAt == w.now && IsNew(m)
    && m.sender == r.sender && m.receiver == r.receiver && m.msgType == ParseType(r.kind)
    && m.subject == r.subject && m.body == r.body && m.parent == r.parent
  }

  lemma {:induction false} RegisteringKeepsLetters(bus: BusState, agent: string)
    ensures forall a :: BoxOf(Registered(bus, agent).boxes, a) == BoxOf(bus.boxes, a)
    ensures agent in Registered(bus, agent).roles
    ensures forall a :: a in bus.roles ==> a in Registered(bus, agent).roles && Registered(bus, agent).roles[a] == bus.roles[a]
  {}

  lemma {:induction false} OneIsStored(pool: Pool, bus: BusState, d: Draft, w: World)
    ensures var h := SendOne(pool, bus, d, w);
            && (forall a :: BoxOf(h.pool.bus.boxes, a) == BoxOf(bus.boxes, a) + if a == d.receiver then h.wrote else [])
            && (h.wrote == [] || h.wrote == [NewLetter(d, w.mint(0), w.now)])
  {
    SentMoves(bus, d, w.mint(0), w.now);
    forall a ensures BoxOf(SendOne(pool, bus, d, w).pool.bus.boxes, a) ==
                     BoxOf(bus.boxes, a) + if a == d.receiver then SendOne(pool, bus, d, w).wrote else []
    {
      assert BoxOf(bus.boxes, a) + [] == BoxOf(bus.boxes, a);
      assert a != d.receiver ==> Unmoved(bus, Sent(bus, d, w.mint(0), w.now), a);
    }
  }

  /** A pool stores what the request says and nothing else: the receiver's mailbox grows by the
      letter written, if one is, and every other mailbox keeps its letters. The letter is marked
      with the announced origin and hops if it came over a link, with this pool's name if it is
      about to leave, and not at all if it stays. */
  lemma {:induction false} StoresWhatWasSent(pool: Pool, r: Request, w: World)
    requires r.receiver != "all"
    ensures var h := Handle(pool, r, w);
            && (forall a :: BoxOf(h.pool.bus.boxes, a) == BoxOf(pool.bus.boxes, a) + if a == r.receiver then h.wrote else [])
            && (h.wrote == [] || (|h.wrote| == 1 && Carries(h.wrote[0], r, w)))
            && (h.wrote != [] ==>
                  && h.wrote[0].hops == (if r.header.Some? then r.hops % 256 else 0)
                  && h.wrote[0].forwardedFrom == if r.header.Some? then r.forwardedFrom
                                                 else if HomePeer(pool, r.receiver).Some? then Some(pool.name) else None)
  {
    match RouteOf(pool, r)
    case Inbound(_) =>
      if InboundRefusal(pool, r).None? {
        RegisteringKeepsLetters(pool.bus, r.sender);
        RequestIsStored(pool, Registered(pool.bus, r.sender), r, HopsOf(r), r.forwardedFrom, w);
      }
    case Outbound(_) =>
      RegisteringKeepsLetters(pool.bus, r.receiver);
      RequestIsStored(pool, Registered(pool.bus, r.receiver), r, 0, Some(pool.name), w);
    case Local => RequestIsStored(pool, pool.bus, r, 0, None, w);
  }

  lemma {:induction false} RequestIsStored(pool: Pool, bus: BusState, r: Request, hops: nat, origin: Option<string>, w: World)
    ensures var h := SendOne(pool, bus, DraftOf(r, hops, origin), w);
            && (forall a :: BoxOf(h.pool.bus.boxes, a) == BoxOf(bus.boxes, a) + if a == r.receiver then h.wrote else [])
            && (h.wrote == [] || (|h.wrote| == 1 && Carries(h.wrote[0], r, w)
                                  && h.wrote[0].hops == hops && h.wrote[0].forwardedFrom == origin))
  {
    OneIsStored(pool, bus, DraftOf(r, hops, origin), w);
  }

  /** The pool takes a letter for an agent whose home is elsewhere: its sender is known, or is
      the agent itself, who is known from now on; only a manager broadcasts; a reply names the
      letter it answers; and there is room. */
  predicate TakesForPeer(pool: Pool, r: Request) {
    var t, roles := ParseType(r.kind), pool.bus.roles;
    && (r.sender in roles || r.sender == r.receiver)
    && (t == MsgType.Broadcast ==> r.sender in roles && roles[r.sender] == Pm)
    && (t == Reply ==> r.parent.Some?)
    && |BoxOf(pool.bus.boxes, r.receiver)| < pool.bus.capacity
  }

  lemma {:induction false} TakenForPeer(pool: Pool, r: Request, w: World)
    ensures var d := DraftOf(r, 0, Some(pool.name));
            SendAnswer(Registered(pool.bus, r.receiver), d, w.mint(0)).Ok? <==> TakesForPeer(pool, r)
  {
    var bus := Registered(pool.bus, r.receiver);
    RegisteringKeepsLetters(pool.bus, r.receiver);
    SendRules(bus, DraftOf(r, 0, Some(pool.name)), w.mint(0));
    assert bus.capacity == pool.bus.capacity;
    assert forall a :: a in bus.roles <==> a in pool.bus.roles || a == r.receiver;
    assert r.receiver !in pool.bus.roles ==> bus.roles[r.receiver] == Worker;
  }

  /** A letter is sent on exactly when a client sent it to one agent whose home is a peer, the
      pool takes it, and nobody polls it before it is looked up; it goes to that peer, and the
      receipt will name the letter stored here. */
  lemma {:induction false} SentOnExactlyWhen(pool: Pool, r: Request, w: World)
    ensures var h := Handle(pool, r, w);
            && (h.relay.Some? <==> r.receiver != "all" && r.header.None? && HomePeer(pool, r.receiver).Some?
                                   && TakesForPeer(pool, r) && !w.raced)
            && (h.relay.Some? ==>
                  && h.relay.value.url == HomePeer(pool, r.receiver).value.url
                  && h.relay.value.request.bearer == Some("Bearer " + HomePeer(pool, r.receiver).value.token)
                  && h.relay.value.id == h.wrote[0].id && h.relay.value.receiver == h.wrote[0].receiver)
  {
    TakenForPeer(pool, r, w);
  }

  // ---------- when a pool accepts ----------

  /** A configured peer wins over one that was learned. */
  lemma {:induction false} ConfiguredPeersWin(pool: Pool, agent: string)
    ensures HomePeer(pool, agent) == Resolve(pool.peers + pool.learned, agent)
  {
    ResolveJoined(pool.peers, pool.learned, agent);
  }

  lemma {:induction false} ResolveJoined(p: seq<Peer>, q: seq<Peer>, agent: string)
    ensures Resolve(p + q, agent) == match Resolve(p, agent) case Some(peer) => Some(peer) case None => Resolve(q, agent)
  {
    if p == [] {
      assert p + q == q;
    } else if !Contains(p[0], agent) {
      ResolveJoined(p[1..], q, agent);
      assert (p + q)[1..] == p[1..] + q;
    }
  }

  /** The names on the wire, written out: anything else, and no name at all, is a task. */
  lemma {:induction false} TypesOnWire(kind: Option<string>)
    ensures ParseType(kind) == Reply <==> kind == Some("reply")
    ensures ParseType(kind) == MsgType.Broadcast <==> kind == Some("broadcast")
    ensures ParseType(kind) == AckOnly <==> kind == Some("ack_only")
    ensures ParseType(kind) == Task <==> kind != Some("reply") && kind != Some("broadcast") && kind != Some("ack_only")
  {}

  /** A letter is handed on exactly while it has crossed fewer than two links, one hop
      further, as this pool's, with the peer's token. */
  lemma {:induction false} ForwardsBelowLimit(peer: Peer, m: Letter, poolName: string)
    ensures Forward(peer, m, poolName).Some? <==> m.hops < 2
    ensures m.hops < 2 ==>
              var relay := Forward(peer, m, poolName).value;
              var r := relay.request;
              && r.hops == m.hops + 1 && r.header == r.forwardedFrom == Some(poolName)
              && r.bearer == Some("Bearer " + peer.token) && relay.url == peer.url
              && r.sender == m.sender && r.receiver == m.receiver && r.subject == m.subject && r.body == m.body && r.parent == m.parent
              && relay.receiver == m.receiver && relay.id == m.id
  {}

  /** What a link admits: the pool's token if it has one, an origin, and one or two hops as read
      into eight bits. */
  predicate Admitted(pool: Pool, r: Request) {
    && (pool.token.Some? ==> r.bearer == Some("Bearer " + pool.token.value))
    && r.forwardedFrom.Some? && 1 <= r.hops % 256 <= 2
  }

  lemma {:induction false} AdmittedExactly(pool: Pool, r: Request)
    ensures InboundRefusal(pool, r) == None <==> Admitted(pool, r)
  {}

  /** The agent is known from now on: with the role it had, or as a worker, last in the list of
      those that broadcasts reach. */
  predicate Joins(before: BusState, after: BusState, agent: string) {
    if agent in before.roles then after.roles == before.roles && after.agents == before.agents
    else
      && after.roles == before.roles[agent := Worker]
      && after.agents == if agent in before.agents then before.agents else before.agents + [agent]
  }

  /** A pool accepts a letter over a link exactly when the link admits it, its receiver is known
      or is the sender, who is known from now on, or it is a broadcast, a broadcaster is a manager
      here, a reply names its parent, and there is room. It then stores it, and whether or not it
      does, an admitted sender has a role afterwards, as a worker if it had none; a letter that is
      not admitted changes nothing. */
  lemma {:induction false} InboundExactly(pool: Pool, r: Request, w: World)
    requires r.receiver != "all" && r.header.Some?
    ensures var h, t, roles := Handle(pool, r, w), ParseType(r.kind), pool.bus.roles;
            && (h.accepted <==> |h.wrote| == 1)
            && (h.accepted <==>
                  && Admitted(pool, r)
                  && (t == MsgType.Broadcast || r.receiver in roles || r.receiver == r.sender)
                  && (t == MsgType.Broadcast ==> r.sender in roles && roles[r.sender] == Pm)
                  && (t == Reply ==> r.parent.Some?)
                  && |BoxOf(pool.bus.boxes, r.receiver)| < pool.bus.capacity)
            && (if Admitted(pool, r) then Joins(pool.bus, h.pool.bus, r.sender) else h.pool == pool)
  {
    AdmittedExactly(pool, r);
    if Admitted(pool, r) {
      var bus := Registered(pool.bus, r.sender);
      RegisteringKeepsLetters(pool.bus, r.sender);
      SendRules(bus, DraftOf(r, HopsOf(r), r.forwardedFrom), w.mint(0));
    }
  }

  /** A pool accepts a client's letter for an agent without another home exactly by the rules of
      its own bus, and registers nobody. */
  lemma {:induction false} LocalExactly(pool: Pool, r: Request, w: World)
    requires r.receiver != "all" && r.header.None? && HomePeer(pool, r.receiver).None?
    ensures var h, t, roles := Handle(pool, r, w), ParseType(r.kind), pool.bus.roles;
            && (h.accepted <==> |h.wrote| == 1)
            && (h.accepted <==>
                  && r.sender in roles
                  && (t == MsgType.Broadcast || r.receiver in roles)
                  && (t == MsgType.Broadcast ==> roles[r.sender] == Pm)
                  && (t == Reply ==> r.parent.Some?)
                  && |BoxOf(pool.bus.boxes, r.receiver)| < pool.bus.capacity)
            && h.pool.bus.roles == roles && h.pool.bus.agents == pool.bus.agents
  {
    SendRules(pool.bus, DraftOf(r, 0, None), w.mint(0));
  }

  /** A client's letter for an agent at home elsewhere registers that agent as a worker, whatever
      comes of it, and is accepted exactly when it is sent on. */
  lemma {:induction false} OutboundRegisters(pool: Pool, r: Request, w: World)
    requires r.receiver != "all" && r.header.None? && HomePeer(pool, r.receiver).Some?
    ensures var h := Handle(pool, r, w);
            && (h.accepted <==> h.relay.Some?)
            && (|h.wrote| == 1 <==> TakesForPeer(pool, r))
            && Joins(pool.bus, h.pool.bus, r.receiver)
  {
    TakenForPeer(pool, r, w);
    SentOnExactlyWhen(pool, r, w);
  }

  /** A request for all stores what the broadcast sends: one letter for each id it returns, under
      that id, with no hops and no origin. */
  lemma {:induction false} BroadcastWrites(pool: Pool, r: Request, w: World)
    requires r.receiver == "all"
    ensures var h := Handle(pool, r, w);
            var f := FanoutOver(pool.bus, pool.bus.agents, r.sender, r.subject, r.body, [], w.mint, w.now);
            && h.pool.bus == f.bus && h.accepted == f.refusal.None? && |h.wrote| == |f.ids|
            && forall k :: 0 <= k < |h.wrote| ==>
                 && h.wrote[k].id == f.ids[k] && h.wrote[k].hops == 0 && h.wrote[k].forwardedFrom == None
                 && h.wrote[k].subject == r.subject && h.wrote[k].body == r.body && h.wrote[k].sender == r.sender
  {
    FanoutIds(pool.bus, pool.bus.agents, r.sender, r.subject, r.body, [], w.mint, w.now);
    FanoutCount(pool.bus, pool.bus.agents, r.sender, r.subject, r.body, [], w.mint, w.now);
    var f := FanoutOver(pool.bus, pool.bus.agents, r.sender, r.subject, r.body, [], w.mint, w.now);
    CopiesAre(pool.bus.agents, r, |f.ids|, w, 0);
  }

  /** How many agents there are besides the sender. */
  function OthersThan(agents: seq<string>, sender: string): nat {
    if agents == [] then 0 else One(agents[0] != sender) + OthersThan(agents[1..], sender)
  }

  lemma {:induction false} FanoutCount(bus: BusState, agents: seq<string>, sender: string, subject: string, body: string,
                                       ids: seq<string>, mint: nat -> string, now: Instant)
    ensures |FanoutOver(bus, agents, sender, subject, body, ids, mint, now).ids| <= |ids| + OthersThan(agents, sender)
    decreases |agents|
  {
    if agents != [] {
      if agents[0] == sender {
        FanoutCount(bus, agents[1..], sender, subject, body, ids, mint, now);
      } else {
        var id := mint(|ids|);
        FanoutCount(Sent(bus, Copy(sender, agents[0], subject, body), id, now), agents[1..], sender, subject, body, ids + [id], mint, now);
      }
    }
  }

  lemma {:induction false} CopiesAre(agents: seq<string>, r: Request, n: nat, w: World, from: nat)
    requires n <= OthersThan(agents, r.sender)
    ensures var c := Copies(agents, r, n, w, from);
            && |c| == n
            && forall k :: 0 <= k < n ==>
                 && c[k].id == w.mint(from + k) && c[k].hops == 0 && c[k].forwardedFrom == None
                 && c[k].subject == r.subject && c[k].body == r.body && c[k].sender == r.sender
    decreases |agents|
  {
    if agents != [] && n != 0 {
      if agents[0] == r.sender {
        CopiesAre(agents[1..], r, n, w, from);
      } else {
        CopiesAre(agents[1..], r, n - 1, w, from + 1);
      }
    }
  }
}
