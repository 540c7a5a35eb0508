/** The bus over its store: who may send what to whom, and how a broadcast fans out. */
module Bus {
  import opened Basics
  import opened Lifecycle
  import opened MemoryStore

  datatype Role = Pm | Worker

  /** What a caller asks to have sent. */
  datatype Draft = Draft(sender: string, receiver: string, msgType: MsgType, subject: string, body: string,
                         parent: Option<string>, hops: nat, forwardedFrom: Option<string>)

  /** The bus as a value: the store's mailboxes and registrations, and the roles. */
  datatype BusState = BusState(boxes: Boxes, agents: seq<string>, roles: map<string, Role>, capacity: nat)

  function NewLetter(d: Draft, id: string, now: Instant): (m: Letter)
    ensures IsNew(m)
  {
    Letter(id, d.sender, d.receiver, d.msgType, d.subject, d.body, d.parent, Queued, now, None, None, None, None,
           d.hops, d.forwardedFrom, 0, None, None, None)
  }

  const PM_ONLY: string := "not allowed to broadcast (PM role required)"
  const NEEDS_REF: string := "reply messages must carry `ref` (the parent id)"

  /** Why the bus refuses a letter before the store sees it, if it does. */
  function Gate(roles: map<string, Role>, d: Draft): Option<BusError> {
    if d.sender !in roles then Some(UnknownAgent(d.sender))
    else if d.msgType == Broadcast && roles[d.sender] != Pm then Some(Storage(PM_ONLY))
    else if d.msgType == Reply && d.parent.None? then Some(Storage(NEEDS_REF))
    else if d.msgType != Broadcast && d.receiver !in roles then Some(UnknownAgent(d.receiver))
    else None
  }

  function StoreAnswer(bus: BusState, d: Draft, id: string): Result<string> {
    if |BoxOf(bus.boxes, d.receiver)| >= bus.capacity then Err(MailboxFull(d.receiver, bus.capacity)) else Ok(id)
  }

  function SendAnswer(bus: BusState, d: Draft, id: string): Result<string> {
    match Gate(bus.roles, d)
    case Some(e) => Err(e)
    case None => StoreAnswer(bus, d, id)
  }

  function Sent(bus: BusState, d: Draft, id: string, now: Instant): BusState {
    if Gate(bus.roles, d).Some? then bus
    else bus.(boxes := Pushed(bus.boxes, bus.capacity, NewLetter(d, id, now)))
  }

  function Copy(sender: string, receiver: string, subject: string, body: string): Draft {
    Draft(sender, receiver, MsgType.Broadcast, subject, body, None, 0, None)
  }

  /** The state, the ids sent so far, and the refusal that ended the fan-out, if one did. */
  datatype Fanout = Fanout(bus: BusState, ids: seq<string>, refusal: Option<BusError>)

  /** One copy for each agent but the sender, in order, up to the first refusal. */
  function FanoutOver(bus: BusState, agents: seq<string>, sender: string, subject: string, body: string,
                      ids: seq<string>, mint: nat -> string, now: Instant): Fanout
    decreases |agents|
  {
    if agents == [] then Fanout(bus, ids, None)
    else if agents[0] == sender then FanoutOver(bus, agents[1..], sender, subject, body, ids, mint, now)
    else
      var d := Copy(sender, agents[0], subject, body);
      var id := mint(|ids|);
      var bus' := Sent(bus, d, id, now);
      match SendAnswer(bus, d, id)
      case Err(e) => Fanout(bus', ids, Some(e))
      case Ok(_) => FanoutOver(bus', agents[1..], sender, subject, body, ids + [id], mint, now)
  }

  class EventBus {
    const store: InMemoryStore
    var roles: map<string, Role>

    constructor (store: InMemoryStore)
      ensures this.store == store && roles == map[]
    {
      this.store := store;
      roles := map[];
    }

    ghost function State(): BusState
      reads this, store
    {
      BusState(store.mailboxes, store.agents, roles, store.capacity)
    }

    /** Roles, registrations and mailboxes are only added to. */
    method Register(agent: string, role: Role)
      modifies this, store
      ensures roles == old(roles)[agent := role]
      ensures store.agents == if agent in old(store.agents) then old(store.agents) else old(store.agents) + [agent]
      ensures store.mailboxes == if agent in old(store.mailboxes) then old(store.mailboxes)
                                 else old(store.mailboxes)[agent := []]
    {
      store.Register(agent);
      roles := roles[agent := role];
    }

    /** The other registrations stay in order, and so do letters already addressed to the agent. */
    method Unregister(agent: string)
      modifies this, store`agents
      ensures roles == old(roles) - {agent}
      ensures store.agents == Retain(old(store.agents), agent)
      ensures store.mailboxes == old(store.mailboxes)
    {
      store.Unregister(agent);
      roles := roles - {agent};
    }

    method SendEnvelope(d: Draft, id: string, now: Instant) returns (r: Result<string>)
      modifies store`mailboxes
      ensures State() == Sent(old(State()), d, id, now)
      ensures r == SendAnswer(old(State()), d, id)
    {
      if d.sender !in roles {
        return Err(UnknownAgent(d.sender));
      }
      if d.msgType == Broadcast && roles[d.sender] != Pm {
        return Err(Storage(PM_ONLY));
      }
      if d.msgType == Reply && d.parent.None? {
        return Err(Storage(NEEDS_REF));
      }
      if d.msgType != Broadcast && d.receiver !in roles {
        return Err(UnknownAgent(d.receiver));
      }
      var m := NewLetter(d, id, now);
      var pushed := store.Push(m);
      match pushed {
        case Err(e) => return Err(e);
        case Ok(_) => return Ok(m.id);
      }
    }

    method BroadcastAll(sender: string, subject: string, body: string, mint: nat -> string, now: Instant)
      returns (ids: seq<string>, refusal: Option<BusError>)
      modifies store`mailboxes
      ensures var f := FanoutOver(old(State()), old(store.agents), sender, subject, body, [], mint, now);
              State() == f.bus && ids == f.ids && refusal == f.refusal
    {
      var agents := store.agents;
      ids := [];
      ghost var whole := FanoutOver(State(), agents, sender, subject, body, [], mint, now);
      assert agents[0..] == agents;
      for i := 0 to |agents|
        invariant store.agents == agents
        invariant FanoutOver(State(), agents[i..], sender, subject, body, ids, mint, now) == whole
      {
        assert agents[i..][1..] == agents[i + 1..];
        if agents[i] != sender {
          var id := mint(|ids|);
          var r := SendEnvelope(Copy(sender, agents[i], subject, body), id, now);
          if r.Err? {
            return ids, Some(r.error);
          }
          ids := ids + [id];
        }
      }
      assert agents[|agents|..] == [];
      return ids, None;
    }
  }

  // ---------- what a broadcast comes to ----------

  predicate HasRoom(bus: BusState, a: string) { |BoxOf(bus.boxes, a)| < bus.capacity }

  /** The rules of sending: the sender is registered, only a manager broadcasts, a reply names the
      letter it answers, the receiver of anything else is registered, and there is room. */
  lemma {:induction false} SendRules(bus: BusState, d: Draft, id: string)
    ensures SendAnswer(bus, d, id) == Ok(id) <==>
            && d.sender in bus.roles
            && (d.msgType == Broadcast ==> bus.roles[d.sender] == Pm)
            && (d.msgType == Reply ==> d.parent.Some?)
            && (d.msgType != Broadcast ==> d.receiver in bus.roles)
            && HasRoom(bus, d.receiver)
    ensures SendAnswer(bus, d, id).Err? <==> SendAnswer(bus, d, id) != Ok(id)
  {}

  /** Which refusal a letter meets: an unknown sender first, an unknown receiver before a full
      mailbox; and a refused letter reaches no mailbox. */
  lemma {:induction false} Refusals(bus: BusState, d: Draft, id: string, now: Instant)
    ensures SendAnswer(bus, d, id) == Err(UnknownAgent(d.sender)) <==> d.sender !in bus.roles
    ensures SendAnswer(bus, d, id) == Err(Storage(PM_ONLY)) <==>
            d.sender in bus.roles && d.msgType == Broadcast && bus.roles[d.sender] != Pm
    ensures SendAnswer(bus, d, id) == Err(Storage(NEEDS_REF)) <==> d.sender in bus.roles && d.msgType == Reply && d.parent.None?
    ensures SendAnswer(bus, d, id) == Err(MailboxFull(d.receiver, bus.capacity)) <==>
            && d.sender in bus.roles
            && (d.msgType == Broadcast ==> bus.roles[d.sender] == Pm)
            && (d.msgType == Reply ==> d.parent.Some?)
            && (d.msgType != Broadcast ==> d.receiver in bus.roles)
            && !HasRoom(bus, d.receiver)
    ensures d.sender in bus.roles ==>
              (SendAnswer(bus, d, id) == Err(UnknownAgent(d.receiver)) <==>
                 d.msgType != Broadcast && d.receiver !in bus.roles && (d.msgType == Reply ==> d.parent.Some?))
    ensures SendAnswer(bus, d, id).Err? ==> forall a :: BoxOf(Sent(bus, d, id, now).boxes, a) == BoxOf(bus.boxes, a)
  {
    assert |PM_ONLY| == 43 && |NEEDS_REF| == 47;
  }

  /** The mailbox of a grew by one letter: a new broadcast from the sender to a, with this subject
      and this body, under this id and of this time. */
  ghost predicate GotCopy(before: BusState, after: BusState, a: string, sender: string, subject: string, body: string,
                          id: string, now: Instant) {
    var was, box := BoxOf(before.boxes, a), BoxOf(after.boxes, a);
    && |box| == |was| + 1 && box[..|was|] == was
    && var m := box[|was|];
       && m.id == id && m.createdAt == now && IsNew(m)
       && m.sender == sender && m.receiver == a && m.msgType == MsgType.Broadcast
       && m.subject == subject && m.body == body
       && m.parent == None && m.hops == 0 && m.forwardedFrom == None
  }

  ghost predicate Unmoved(before: BusState, after: BusState, a: string) {
    BoxOf(after.boxes, a) == BoxOf(before.boxes, a)
  }

  ghost predicate Distinct(agents: seq<string>) {
    forall i, j :: 0 <= i < j < |agents| ==> agents[i] != agents[j]
  }

  lemma {:induction false} SentMoves(bus: BusState, d: Draft, id: string, now: Instant)
    ensures forall a :: a != d.receiver ==> Unmoved(bus, Sent(bus, d, id, now), a)
    ensures SendAnswer(bus, d, id).Err? ==> forall a :: Unmoved(bus, Sent(bus, d, id, now), a)
    ensures SendAnswer(bus, d, id).Ok? ==>
              BoxOf(Sent(bus, d, id, now).boxes, d.receiver) == BoxOf(bus.boxes, d.receiver) + [NewLetter(d, id, now)]
    ensures var bus' := Sent(bus, d, id, now); bus'.roles == bus.roles && bus'.capacity == bus.capacity
  {}

  /** How many agents other than the sender come before a. */
  function Place(agents: seq<string>, a: string, sender: string): nat {
    if agents == [] || agents[0] == a then 0 else One(agents[0] != sender) + Place(agents[1..], a, sender)
  }

  lemma {:induction false} PlaceOf(agents: seq<string>, i: nat, sender: string)
    requires i < |agents| && Distinct(agents)
    ensures Place(agents, agents[i], sender) == i - One(sender in agents[..i])
  {
    if 0 < i {
      HeadIsDistinct(agents);
      PlaceOf(agents[1..], i - 1, sender);
      assert agents[..i] == [agents[0]] + agents[1..][..i - 1];
    }
  }

  /** What a finished broadcast did to one mailbox; the copies take the new ids from number n on. */
  ghost predicate Reached(before: BusState, after: BusState, agents: seq<string>, a: string, sender: string, subject: string,
                          body: string, mint: nat -> string, n: nat, now: Instant) {
    if a in agents && a != sender
    then GotCopy(before, after, a, sender, subject, body, mint(n + Place(agents, a, sender)), now)
    else Unmoved(before, after, a)
  }

  lemma {:induction false} ReachedAfterOne(bus: BusState, agents: seq<string>, f: BusState, a: string, sender: string,
                                           subject: string, body: string, mint: nat -> string, n: nat, now: Instant)
    requires agents != [] && agents[0] != sender && agents[0] !in agents[1..]
    requires SendAnswer(bus, Copy(sender, agents[0], subject, body), mint(n)).Ok?
    requires Reached(Sent(bus, Copy(sender, agents[0], subject, body), mint(n), now), f, agents[1..], a,
                     sender, subject, body, mint, n + 1, now)
    ensures Reached(bus, f, agents, a, sender, subject, body, mint, n, now)
  {
    var d := Copy(sender, agents[0], subject, body);
    var bus' := Sent(bus, d, mint(n), now);
    SentMoves(bus, d, mint(n), now);
    assert a in agents <==> a == agents[0] || a in agents[1..];
    if a == agents[0] {
      assert BoxOf(f.boxes, a) == BoxOf(bus.boxes, a) + [NewLetter(d, mint(n), now)];
    } else {
      assert Unmoved(bus, bus', a);
    }
  }

  lemma {:induction false} HeadIsDistinct(agents: seq<string>)
    requires agents != [] && Distinct(agents)
    ensures agents[0] !in agents[1..] && Distinct(agents[1..])
    ensures forall a :: a in agents <==> a == agents[0] || a in agents[1..]
  {
    assert forall j :: 0 <= j < |agents| - 1 ==> agents[1..][j] == agents[j + 1];
  }

  lemma {:induction false} RoomRemains(bus: BusState, agents: seq<string>, sender: string, subject: string, body: string, id: string, now: Instant)
    requires agents != [] && agents[0] !in agents[1..]
    requires forall a :: a in agents && a != sender ==> HasRoom(bus, a)
    ensures var bus' := Sent(bus, Copy(sender, agents[0], subject, body), id, now);
            forall a :: a in agents[1..] && a != sender ==> HasRoom(bus', a)
  {
    var bus' := Sent(bus, Copy(sender, agents[0], subject, body), id, now);
    SentMoves(bus, Copy(sender, agents[0], subject, body), id, now);
    forall a | a in agents[1..] && a != sender ensures HasRoom(bus', a) {
      assert a in agents && Unmoved(bus, bus', a);
    }
  }

  /** The ids that a broadcast returns are the new ones, in order. */
  lemma {:induction false} FanoutIds(bus: BusState, agents: seq<string>, sender: string, subject: string, body: string,
                                     ids: seq<string>, mint: nat -> string, now: Instant)
    ensures var f := FanoutOver(bus, agents, sender, subject, body, ids, mint, now);
            && ids <= f.ids && forall k :: |ids| <= k < |f.ids| ==> f.ids[k] == mint(k)
    decreases |agents|
  {
    if agents != [] {
      if agents[0] == sender {
        FanoutIds(bus, agents[1..], sender, subject, body, ids, mint, now);
      } else {
        var id := mint(|ids|);
        var d := Copy(sender, agents[0], subject, body);
        FanoutIds(Sent(bus, d, id, now), agents[1..], sender, subject, body, ids + [id], mint, now);
      }
    }
  }

  /** A fan-out over some agents that was not refused, n copies having been sent before it. */
  ghost predicate Spread(bus: BusState, agents: seq<string>, f: Fanout, sender: string, subject: string, body: string,
                         mint: nat -> string, n: nat, now: Instant) {
    && f.refusal == None
    && |f.ids| == n + |agents| - One(sender in agents)
    && forall a :: Reached(bus, f.bus, agents, a, sender, subject, body, mint, n, now)
  }

  lemma {:induction false} SpreadPastSender(bus: BusState, agents: seq<string>, f: Fanout, sender: string, subject: string,
                                            body: string, mint: nat -> string, n: nat, now: Instant)
    requires agents != [] && agents[0] == sender && Distinct(agents)
    requires Spread(bus, agents[1..], f, sender, subject, body, mint, n, now)
    ensures Spread(bus, agents, f, sender, subject, body, mint, n, now)
  {
    HeadIsDistinct(agents);
    forall a ensures Reached(bus, f.bus, agents, a, sender, subject, body, mint, n, now) {
      assert Reached(bus, f.bus, agents[1..], a, sender, subject, body, mint, n, now);
    }
  }

  lemma {:induction false} SpreadPastOther(bus: BusState, agents: seq<string>, f: Fanout, sender: string, subject: string,
                                           body: string, mint: nat -> string, n: nat, now: Instant)
    requires agents != [] && agents[0] != sender && Distinct(agents)
    requires SendAnswer(bus, Copy(sender, agents[0], subject, body), mint(n)).Ok?
    requires Spread(Sent(bus, Copy(sender, agents[0], subject, body), mint(n), now), agents[1..], f,
                    sender, subject, body, mint, n + 1, now)
    ensures Spread(bus, agents, f, sender, subject, body, mint, n, now)
  {
    HeadIsDistinct(agents);
    forall a ensures Reached(bus, f.bus, agents, a, sender, subject, body, mint, n, now) {
      ReachedAfterOne(bus, agents, f.bus, a, sender, subject, body, mint, n, now);
    }
  }

  lemma {:induction false} FanoutReaches(bus: BusState, agents: seq<string>, sender: string, subject: string, body: string,
                                         ids: seq<string>, mint: nat -> string, now: Instant)
    requires sender in bus.roles && bus.roles[sender] == Pm && Distinct(agents)
    requires forall a :: a in agents && a != sender ==> HasRoom(bus, a)
    ensures Spread(bus, agents, FanoutOver(bus, agents, sender, subject, body, ids, mint, now),
                   sender, subject, body, mint, |ids|, now)
    decreases |agents|
  {
    var f := FanoutOver(bus, agents, sender, subject, body, ids, mint, now);
    if agents != [] {
      HeadIsDistinct(agents);
      if agents[0] == sender {
        FanoutReaches(bus, agents[1..], sender, subject, body, ids, mint, now);
        SpreadPastSender(bus, agents, f, sender, subject, body, mint, |ids|, now);
      } else {
        var id := mint(|ids|);
        var d := Copy(sender, agents[0], subject, body);
        RoomRemains(bus, agents, sender, subject, body, id, now);
        SentMoves(bus, d, id, now);
        FanoutReaches(Sent(bus, d, id, now), agents[1..], sender, subject, body, ids + [id], mint, now);
        SpreadPastOther(bus, agents, f, sender, subject, body, mint, |ids|, now);
      }
    }
  }

  /** A project manager's broadcast, with room everywhere, puts exactly one copy into the mailbox
      of every registered agent but the sender, and nothing anywhere else; and the ids it returns
      are those of the copies, in the order of the agents. */
  lemma {:induction false} BroadcastReaches(bus: BusState, agents: seq<string>, sender: string, subject: string, body: string,
                                            mint: nat -> string, now: Instant)
    requires sender in bus.roles && bus.roles[sender] == Pm && Distinct(agents)
    requires forall a :: a in agents && a != sender ==> HasRoom(bus, a)
    ensures var f := FanoutOver(bus, agents, sender, subject, body, [], mint, now);
            && f.refusal == None
            && |f.ids| == |agents| - One(sender in agents)
            && (forall i :: 0 <= i < |agents| && agents[i] != sender ==>
                  var k := i - One(sender in agents[..i]);
                  0 <= k < |f.ids| && GotCopy(bus, f.bus, agents[i], sender, subject, body, f.ids[k], now))
            && (forall a :: a !in agents || a == sender ==> Unmoved(bus, f.bus, a))
  {
    var f := FanoutOver(bus, agents, sender, subject, body, [], mint, now);
    FanoutReaches(bus, agents, sender, subject, body, [], mint, now);
    FanoutIds(bus, agents, sender, subject, body, [], mint, now);
    forall i | 0 <= i < |agents| && agents[i] != sender
      ensures var k := i - One(sender in agents[..i]);
              0 <= k < |f.ids| && GotCopy(bus, f.bus, agents[i], sender, subject, body, f.ids[k], now)
    {
      PlaceOf(agents, i, sender);
      PlaceFits(agents, i, sender);
      assert Reached(bus, f.bus, agents, agents[i], sender, subject, body, mint, 0, now);
    }
    forall a | a !in agents || a == sender ensures Unmoved(bus, f.bus, a) {
      assert Reached(bus, f.bus, agents, a, sender, subject, body, mint, 0, now);
    }
  }

  lemma {:induction false} PlaceFits(agents: seq<string>, i: nat, sender: string)
    requires i < |agents| && agents[i] != sender
    ensures 0 <= i - One(sender in agents[..i]) < |agents| - One(sender in agents)
  {
    assert forall j :: 0 <= j < i ==> agents[j] == agents[..i][j];
    assert sender in agents && sender !in agents[..i] ==> exists k :: i < k < |agents| && agents[k] == sender;
  }

  /** A fan-out over some agents and then over others, unless it ends before. */
  lemma {:induction false} FanoutInParts(bus: BusState, p: seq<string>, q: seq<string>, sender: string, subject: string,
                                         body: string, ids: seq<string>, mint: nat -> string, now: Instant)
    ensures var f := FanoutOver(bus, p, sender, subject, body, ids, mint, now);
            FanoutOver(bus, p + q, sender, subject, body, ids, mint, now) ==
            if f.refusal.Some? then f else FanoutOver(f.bus, q, sender, subject, body, f.ids, mint, now)
    decreases |p|
  {
    if p == [] {
      assert p + q == q;
    } else {
      assert (p + q)[0] == p[0] && (p + q)[1..] == p[1..] + q;
      if p[0] == sender {
        FanoutInParts(bus, p[1..], q, sender, subject, body, ids, mint, now);
      } else {
        var d, id := Copy(sender, p[0], subject, body), mint(|ids|);
        FanoutInParts(Sent(bus, d, id, now), p[1..], q, sender, subject, body, ids + [id], mint, now);
      }
    }
  }

  /** A broadcast ends at the first full mailbox and says which: the agents before it have their
      copies, and nobody else has got anything. */
  lemma {:induction false} BroadcastStops(bus: BusState, p: seq<string>, full: string, rest: seq<string>, sender: string,
                                          subject: string, body: string, mint: nat -> string, now: Instant)
    requires sender in bus.roles && bus.roles[sender] == Pm && Distinct(p) && full !in p && full != sender
    requires !HasRoom(bus, full) && forall a :: a in p && a != sender ==> HasRoom(bus, a)
    ensures var f := FanoutOver(bus, p + [full] + rest, sender, subject, body, [], mint, now);
            && f.refusal == Some(MailboxFull(full, bus.capacity))
            && |f.ids| == |p| - One(sender in p)
            && forall a :: Reached(bus, f.bus, p, a, sender, subject, body, mint, 0, now)
  {
    var f := FanoutOver(bus, p, sender, subject, body, [], mint, now);
    FanoutReaches(bus, p, sender, subject, body, [], mint, now);
    FanoutInParts(bus, p, [full] + rest, sender, subject, body, [], mint, now);
    FanoutKeepsRoles(bus, p, sender, subject, body, [], mint, now);
    assert p + [full] + rest == p + ([full] + rest);
    assert Reached(bus, f.bus, p, full, sender, subject, body, mint, 0, now);
    var d, id := Copy(sender, full, subject, body), mint(|f.ids|);
    SentMoves(f.bus, d, id, now);
    forall a ensures Reached(bus, Sent(f.bus, d, id, now), p, a, sender, subject, body, mint, 0, now) {
      assert Reached(bus, f.bus, p, a, sender, subject, body, mint, 0, now);
      assert Unmoved(f.bus, Sent(f.bus, d, id, now), a);
    }
  }

  lemma {:induction false} FanoutKeepsRoles(bus: BusState, agents: seq<string>, sender: string, subject: string, body: string,
                                            ids: seq<string>, mint: nat -> string, now: Instant)
    ensures var f := FanoutOver(bus, agents, sender, subject, body, ids, mint, now);
            f.bus.roles == bus.roles && f.bus.agents == bus.agents && f.bus.capacity == bus.capacity
    decreases |agents|
  {
    if agents != [] {
      if agents[0] == sender {
        FanoutKeepsRoles(bus, agents[1..], sender, subject, body, ids, mint, now);
      } else {
        var d, id := Copy(sender, agents[0], subject, body), mint(|ids|);
        FanoutKeepsRoles(Sent(bus, d, id, now), agents[1..], sender, subject, body, ids + [id], mint, now);
      }
    }
  }

  /** Anyone else's broadcast is refused and stores nothing, as soon as there is somebody to
      send it to; alone on the bus, anyone may broadcast to nobody. */
  lemma {:induction false} OnlyManagersBroadcast(bus: BusState, agents: seq<string>, sender: string, subject: string, body: string,
                                                 ids: seq<string>, mint: nat -> string, now: Instant)
    requires sender !in bus.roles || bus.roles[sender] != Pm
    ensures var f := FanoutOver(bus, agents, sender, subject, body, ids, mint, now);
            && f.bus == bus && f.ids == ids
            && (f.refusal.Some? <==> exists i :: 0 <= i < |agents| && agents[i] != sender)
    decreases |agents|
  {
    if agents != [] && agents[0] == sender {
      OnlyManagersBroadcast(bus, agents[1..], sender, subject, body, ids, mint, now);
      if i :| 0 <= i < |agents| && agents[i] != sender {
        assert agents[1..][i - 1] == agents[i];
      }
    }
  }
}
