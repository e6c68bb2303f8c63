/**
 The two pump threads of every relay session (relay_server.py: `RelaySession._pump`, `_allowed`,
 `activate_bridge`, `stop`), interleaved at the granularity of single accesses to shared fields. Each pump
 keeps a log of what it received, which of that passed the check, and what it sent.
 */
module RelayPump {
  import opened Wrappers
  import opened Bits

  datatype Address = Address(ip: string, port: nat)

  datatype Datagram = Datagram(data: Bytes, source: Address)

  datatype Role = Bridge | Client

  /** Where a pump thread is inside its loop. */
  datatype Pc = Head | Received | Passed | PeerKnown | Aimed(target: Address) | Sent | BytesAdded | Ended

  /** `index` is the place of the datagram among those received. */
  datatype Sending = Sending(index: nat, data: Bytes, target: Address)

  /** `passed` gives, for each received datagram that was allowed, the address expected at that moment. */
  datatype Pump = Pump(pc: Pc, received: seq<Datagram>, passed: map<nat, Option<string>>, sent: seq<Sending>,
                       bytes: nat, packets: nat)

  datatype Session = Session(bridgeIp: Option<string>, clientIp: Option<string>,
                             bridgePeer: Option<Address>, clientPeer: Option<Address>,
                             bridge: Pump, client: Pump)

  datatype Step =
    | Receive(d: Datagram)
    | Check
    | SetPeer
    | ReadTarget
    | Send(fails: bool)
    | AddBytes
    | AddPackets
    | End

  datatype Event =
    | Open(id: string, clientIp: Option<string>)
    | Activate(id: string, ip: string)
    | Pumping(id: string, role: Role, step: Step)

  const NEW := Pump(Head, [], map[], [], 0, 0)

  function Expected(s: Session, role: Role): Option<string> {
    if role.Bridge? then s.bridgeIp else s.clientIp
  }

  function PumpOf(s: Session, role: Role): Pump {
    if role.Bridge? then s.bridge else s.client
  }

  function PeerOf(s: Session, role: Role): Option<Address> {
    if role.Bridge? then s.bridgePeer else s.clientPeer
  }

  function Other(role: Role): Role {
    if role.Bridge? then Client else Bridge
  }

  function WithPump(s: Session, role: Role, p: Pump): Session {
    if role.Bridge? then s.(bridge := p) else s.(client := p)
  }

  function WithPeer(s: Session, role: Role, peer: Address): Session {
    if role.Bridge? then s.(bridgePeer := Some(peer)) else s.(clientPeer := Some(peer))
  }

  predicate IsAllowed(expected: Option<string>, ip: string) {
    expected.None? || expected.value == ip
  }

  /** One step of one pump; a step that its thread is not at does nothing. */
  function Advanced(p: Pump, expected: Option<string>, peer: Option<Address>, step: Step): Pump {
    var last := |p.received| - 1;
    match (step, p.pc)
    case (Receive(d), Head) => p.(pc := Received, received := p.received + [d])
    case (Check, Received) =>
      if last >= 0 && IsAllowed(expected, p.received[last].source.ip) then p.(pc := Passed, passed := p.passed[last := expected])
      else p.(pc := Head)
    case (SetPeer, Passed) => p.(pc := PeerKnown)
    case (ReadTarget, PeerKnown) => if peer.None? then p.(pc := Head) else p.(pc := Aimed(peer.value))
    case (Send(fails), Aimed(target)) =>
      if fails || last < 0 then p.(pc := Head)
      else p.(pc := Sent, sent := p.sent + [Sending(last, p.received[last].data, target)])
    case (AddBytes, Sent) => if last < 0 then p else p.(pc := BytesAdded, bytes := p.bytes + |p.received[last].data|)
    case (AddPackets, BytesAdded) => p.(pc := Head, packets := p.packets + 1)
    case (End, Head) => p.(pc := Ended)
    case _ => p
  }

  function Pumped(s: Session, role: Role, step: Step): Session {
    var p := PumpOf(s, role);
    var t := WithPump(s, role, Advanced(p, Expected(s, role), PeerOf(s, Other(role)), step));
    if step.SetPeer? && p.pc.Passed? && p.received != [] then WithPeer(t, role, p.received[|p.received| - 1].source) else t
  }

  type Relay = map<string, Session>

  function Happened(r: Relay, e: Event): Relay {
    match e
    case Open(id, clientIp) =>
      if id in r then r else r[id := Session(None, clientIp, None, None, NEW, NEW)]
    case Activate(id, ip) => if id in r then r[id := r[id].(bridgeIp := Some(ip))] else r
    case Pumping(id, role, step) => if id in r then r[id := Pumped(r[id], role, step)] else r
  }

  function After(events: seq<Event>): Relay {
    if events == [] then map[] else Happened(After(events[..|events| - 1]), events[|events| - 1])
  }

  // ---------- What holds of every pump ----------

  function BytesOf(sent: seq<Sending>): nat {
    if sent == [] then 0 else BytesOf(sent[..|sent| - 1]) + |sent[|sent| - 1].data|
  }

  /** Each sending is one received datagram that passed, unmodified; the order is kept and none is sent twice. */
  ghost predicate Forwards(p: Pump) {
    && (forall i :: 0 <= i < |p.sent| ==>
          var x := p.sent[i];
          x.index in p.passed && x.index < |p.received| && x.data == p.received[x.index].data)
    && forall i, j :: 0 <= i < j < |p.sent| ==> p.sent[i].index < p.sent[j].index
  }

  /** What passed came from the address expected at the time of the check. */
  ghost predicate Screened(p: Pump) {
    forall i <- p.passed :: i < |p.received| && IsAllowed(p.passed[i], p.received[i].source.ip)
  }

  /** The address is the source of a datagram that passed on this side. */
  ghost predicate Known(p: Pump, a: Address) {
    exists i :: i in p.passed && i < |p.received| && p.received[i].source == a
  }

  ghost predicate InHand(p: Pump) {
    var last := |p.received| - 1;
    match p.pc
    case Head => true
    case Ended => true
    case Received => last >= 0 && forall i :: 0 <= i < |p.sent| ==> p.sent[i].index < last
    case Sent => last in p.passed && p.sent != [] && p.sent[|p.sent| - 1].data == p.received[last].data
    case BytesAdded => p.sent != []
    case _ => last in p.passed && forall i :: 0 <= i < |p.sent| ==> p.sent[i].index < last
  }

  ghost predicate Counts(p: Pump) {
    match p.pc
    case Sent => p.sent != [] && p.bytes == BytesOf(p.sent[..|p.sent| - 1]) && p.packets == |p.sent| - 1
    case BytesAdded => p.bytes == BytesOf(p.sent) && p.packets == |p.sent| - 1
    case _ => p.bytes == BytesOf(p.sent) && p.packets == |p.sent|
  }

  ghost predicate Sound(p: Pump) {
    Forwards(p) && Screened(p) && InHand(p) && Counts(p)
  }

  /** Sendings of one pump, and its next target, go to addresses known to the pump of the other side. */
  ghost predicate AimsAt(p: Pump, other: Pump) {
    && (forall x <- p.sent :: Known(other, x.target))
    && (p.pc.Aimed? ==> Known(other, p.pc.target))
  }

  ghost predicate Invariant(s: Session) {
    && Sound(s.bridge) && Sound(s.client) && AimsAt(s.bridge, s.client) && AimsAt(s.client, s.bridge)
    && (s.bridgePeer.Some? ==> Known(s.bridge, s.bridgePeer.value))
    && (s.clientPeer.Some? ==> Known(s.client, s.clientPeer.value))
    && forall i <- s.client.passed :: s.client.passed[i] == s.clientIp
  }

  lemma KeepsScreened(p: Pump, expected: Option<string>, peer: Option<Address>, step: Step)
    requires Screened(p)
    ensures Screened(Advanced(p, expected, peer, step))
  {
  }

  lemma KeepsForwards(p: Pump, expected: Option<string>, peer: Option<Address>, step: Step)
    requires Forwards(p) && InHand(p)
    ensures Forwards(Advanced(p, expected, peer, step))
  {
    hide IsAllowed;
  }

  lemma KeepsInHand(p: Pump, expected: Option<string>, peer: Option<Address>, step: Step)
    requires InHand(p) && Forwards(p)
    ensures InHand(Advanced(p, expected, peer, step))
  {
  }

  lemma KeepsCounts(p: Pump, expected: Option<string>, peer: Option<Address>, step: Step)
    requires InHand(p) && Counts(p)
    ensures Counts(Advanced(p, expected, peer, step))
  {
  }

  lemma StepKeepsPump(s: Session, role: Role, step: Step)
    requires Sound(PumpOf(s, role))
    ensures Sound(PumpOf(Pumped(s, role, step), role))
  {
    hide Advanced, Forwards, Screened, InHand, Counts;
    KeepsScreened(PumpOf(s, role), Expected(s, role), PeerOf(s, Other(role)), step);
    KeepsForwards(PumpOf(s, role), Expected(s, role), PeerOf(s, Other(role)), step);
    KeepsInHand(PumpOf(s, role), Expected(s, role), PeerOf(s, Other(role)), step);
    KeepsCounts(PumpOf(s, role), Expected(s, role), PeerOf(s, Other(role)), step);
  }

  lemma StepLeavesOther(s: Session, role: Role, step: Step)
    ensures PumpOf(Pumped(s, role, step), Other(role)) == PumpOf(s, Other(role))
    ensures PeerOf(Pumped(s, role, step), Other(role)) == PeerOf(s, Other(role))
    ensures Pumped(s, role, step).clientIp == s.clientIp
  {
  }

  lemma StepKeepsKnown(s: Session, role: Role, step: Step, a: Address)
    requires Sound(PumpOf(s, role)) && Known(PumpOf(s, role), a)
    ensures Known(PumpOf(Pumped(s, role, step), role), a)
  {
  }

  lemma StepKeepsAim(s: Session, role: Role, step: Step)
    requires Sound(PumpOf(s, role)) && AimsAt(PumpOf(s, role), PumpOf(s, Other(role)))
    requires PeerOf(s, Other(role)).Some? ==> Known(PumpOf(s, Other(role)), PeerOf(s, Other(role)).value)
    ensures AimsAt(PumpOf(Pumped(s, role, step), role), PumpOf(s, Other(role)))
  {
    AdvancedKeepsAim(PumpOf(s, role), Expected(s, role), PeerOf(s, Other(role)), step, PumpOf(s, Other(role)));
    hide Advanced, AimsAt, Sound, Known;
  }

  lemma AdvancedKeepsAim(p: Pump, expected: Option<string>, peer: Option<Address>, step: Step, other: Pump)
    requires AimsAt(p, other) && (peer.Some? ==> Known(other, peer.value))
    ensures AimsAt(Advanced(p, expected, peer, step), other)
  {
    hide Known, IsAllowed;
  }

  lemma StepKeepsPeer(s: Session, role: Role, step: Step)
    requires Sound(PumpOf(s, role))
    requires PeerOf(s, role).Some? ==> Known(PumpOf(s, role), PeerOf(s, role).value)
    ensures var t := Pumped(s, role, step);
            PeerOf(t, role).Some? ==> Known(PumpOf(t, role), PeerOf(t, role).value)
  {
    var t := Pumped(s, role, step);
    if PeerOf(s, role) == PeerOf(t, role) && PeerOf(s, role).Some? {
      StepKeepsKnown(s, role, step, PeerOf(s, role).value);
    } else if PeerOf(t, role).Some? {
      var p := PumpOf(s, role);
      assert |p.received| - 1 in p.passed;
    }
  }

  lemma StepKeepsInvariant(s: Session, role: Role, step: Step)
    requires Invariant(s)
    ensures Invariant(Pumped(s, role, step))
  {
    hide Pumped, Sound, Known;
    var t := Pumped(s, role, step);
    StepKeepsPump(s, role, step);
    StepLeavesOther(s, role, step);
    StepKeepsAim(s, role, step);
    StepKeepsPeer(s, role, step);
    var other := PumpOf(s, Other(role));
    forall a: Address | Known(PumpOf(s, role), a) ensures Known(PumpOf(t, role), a) {
      StepKeepsKnown(s, role, step, a);
    }
    StepExpects(s, role, step);
  }

  lemma StepExpects(s: Session, role: Role, step: Step)
    requires forall i <- s.client.passed :: s.client.passed[i] == s.clientIp
    ensures var t := Pumped(s, role, step);
            forall i <- t.client.passed :: t.client.passed[i] == s.clientIp
  {
  }

  /** Whatever the interleaving of the pumps of all sessions with new sessions and activations: datagrams leave
      one side of a session unmodified, in order and at most once, only after they passed the check on the
      other side, and only towards an address that passed the check on the side they leave by. */
  lemma {:induction false} EveryRunForwards(events: seq<Event>)
    ensures forall id <- After(events) :: Invariant(After(events)[id])
  {
    hide Invariant, Pumped;
    if events != [] {
      var r, e := After(events[..|events| - 1]), events[|events| - 1];
      EveryRunForwards(events[..|events| - 1]);
      match e
      case Open(id, clientIp) =>
        NewIsInvariant(clientIp);
      case Activate(id, ip) =>
        if id in r {
          ActivationKeepsInvariant(r[id], ip);
        }
      case Pumping(id, role, step) =>
        if id in r {
          StepKeepsInvariant(r[id], role, step);
        }
    }
  }

  lemma NewIsInvariant(clientIp: Option<string>)
    ensures Invariant(Session(None, clientIp, None, None, NEW, NEW))
  {
  }

  lemma ActivationKeepsInvariant(s: Session, ip: string)
    requires Invariant(s)
    ensures Invariant(s.(bridgeIp := Some(ip)))
  {
  }

  /** At every loop head the counters of a pump are the number and the total size of what it sent; with a
      known client address, everything sent to the bridge came from it. */
  lemma CountersAtLoopHead(events: seq<Event>, id: string, role: Role)
    requires id in After(events) && PumpOf(After(events)[id], role).pc in {Head, Ended}
    ensures var p := PumpOf(After(events)[id], role);
            p.bytes == BytesOf(p.sent) && p.packets == |p.sent|
    ensures var s := After(events)[id];
            s.clientIp.Some? ==> forall x <- s.client.sent ::
              x.index < |s.client.received| && s.client.received[x.index].source.ip == s.clientIp.value
  {
    hide After;
    EveryRunForwards(events);
    var s := After(events)[id];
    assert Invariant(s);
    forall x <- s.client.sent
      ensures s.clientIp.Some? ==> x.index < |s.client.received| && s.client.received[x.index].source.ip == s.clientIp.value
    {
      assert x.index in s.client.passed;
    }
  }

  /** An event of one session leaves all others alone. */
  lemma SessionsAreIsolated(events: seq<Event>, e: Event, id: string)
    requires id in After(events) && e.id != id
    ensures id in After(events + [e]) && After(events + [e])[id] == After(events)[id]
  {
  }

  // ---------- The expected addresses ----------

  /** Whether a session was opened, and the address of its client that the first opening gave. */
  ghost predicate Opened(events: seq<Event>, id: string) {
    exists e <- events :: e.Open? && e.id == id
  }

  ghost function ClientGiven(events: seq<Event>, id: string): Option<string> {
    if events == [] then None
    else
      var init, e := events[..|events| - 1], events[|events| - 1];
      if !Opened(init, id) && e.Open? && e.id == id then e.clientIp else ClientGiven(init, id)
  }

  /** The address that the latest activation of an open session gave. */
  ghost function BridgeGiven(events: seq<Event>, id: string): Option<string> {
    if events == [] then None
    else
      var init, e := events[..|events| - 1], events[|events| - 1];
      if Opened(init, id) && e.Activate? && e.id == id then Some(e.ip) else BridgeGiven(init, id)
  }

  lemma {:induction false} NeverOpened(events: seq<Event>, id: string)
    requires !Opened(events, id)
    ensures BridgeGiven(events, id).None? && ClientGiven(events, id).None?
  {
    if events != [] {
      var init := events[..|events| - 1];
      assert forall e <- init :: e in events;
      assert events[|events| - 1] in events;
      NeverOpened(init, id);
    }
  }

  lemma OpenedMore(events: seq<Event>, id: string)
    requires events != []
    ensures var init, e := events[..|events| - 1], events[|events| - 1];
            Opened(events, id) <==> Opened(init, id) || (e.Open? && e.id == id)
  {
    var init, e := events[..|events| - 1], events[|events| - 1];
    assert events == init + [e];
    assert forall x :: x in events <==> x in init || x == e;
  }

  lemma StepKeepsAddresses(s: Session, role: Role, step: Step)
    ensures Pumped(s, role, step).bridgeIp == s.bridgeIp && Pumped(s, role, step).clientIp == s.clientIp
  {
  }

  /** An activation sets the address of the bridge of its session and leaves everything else as it was. */
  lemma ActivationSets(events: seq<Event>, id: string, ip: string)
    ensures var r, t := After(events), After(events + [Activate(id, ip)]);
            && t.Keys == r.Keys && (forall other <- r :: other != id ==> t[other] == r[other])
            && (id in r ==> t[id].bridgeIp == Some(ip) && t[id].clientIp == r[id].clientIp && t[id].bridge == r[id].bridge
                            && t[id].client == r[id].client && t[id].bridgePeer == r[id].bridgePeer && t[id].clientPeer == r[id].clientPeer)
  {
    assert (events + [Activate(id, ip)])[..|events|] == events;
  }

  /** Opening a session starts both pumps with nothing received, passed, sent or learned; opening it again does nothing. */
  lemma OpeningStarts(events: seq<Event>, id: string, clientIp: Option<string>)
    ensures var r, t := After(events), After(events + [Open(id, clientIp)]);
            && t.Keys == r.Keys + {id} && (forall other <- r :: t[other] == r[other])
            && (id !in r ==>
                  && t[id].clientIp == clientIp && t[id].bridgeIp.None? && t[id].bridgePeer.None? && t[id].clientPeer.None?
                  && forall p <- [t[id].bridge, t[id].client] ::
                       p.pc.Head? && p.received == [] && p.passed == map[] && p.sent == [] && p.bytes == 0 && p.packets == 0)
  {
    assert (events + [Open(id, clientIp)])[..|events|] == events;
  }

  /** The addresses that a session expects are those given by the events of the run. */
  lemma {:induction false} AddressesAreGiven(events: seq<Event>, id: string)
    ensures id in After(events) <==> Opened(events, id)
    ensures id in After(events) ==> After(events)[id].bridgeIp == BridgeGiven(events, id)
    ensures id in After(events) ==> After(events)[id].clientIp == ClientGiven(events, id)
  {
    if events != [] {
      var init, e := events[..|events| - 1], events[|events| - 1];
      AddressesAreGiven(init, id);
      OpenedMore(events, id);
      if !Opened(init, id) {
        NeverOpened(init, id);
      }
      hide Pumped, Opened;
      if e.Pumping? && id in After(init) {
        StepKeepsAddresses(After(init)[id], e.role, e.step);
      }
    }
  }

  /** Whether the pump of one side has let the datagram at this place pass. */
  ghost predicate PassedBridge(events: seq<Event>, id: string, i: nat) {
    id in After(events) && i in After(events)[id].bridge.passed
  }

  ghost predicate PassedClient(events: seq<Event>, id: string, i: nat) {
    id in After(events) && i in After(events)[id].client.passed
  }

  /** A check on the side of the bridge, before the first activation or after one that gave this address last. */
  ghost predicate CheckedBridge(events: seq<Event>, id: string, ip: string) {
    exists n :: 0 <= n < |events| && events[n] == Pumping(id, Bridge, Check)
                && (BridgeGiven(events[..n], id) == None || BridgeGiven(events[..n], id) == Some(ip))
  }

  lemma CheckedLater(init: seq<Event>, e: Event, id: string, ip: string)
    requires CheckedBridge(init, id, ip)
    ensures CheckedBridge(init + [e], id, ip)
  {
    var n :| 0 <= n < |init| && init[n] == Pumping(id, Bridge, Check)
             && (BridgeGiven(init[..n], id) == None || BridgeGiven(init[..n], id) == Some(ip));
    hide BridgeGiven;
    assert (init + [e])[n] == Pumping(id, Bridge, Check) && (init + [e])[..n] == init[..n];
  }

  lemma CheckedNow(init: seq<Event>, id: string, ip: string)
    requires BridgeGiven(init, id) == None || BridgeGiven(init, id) == Some(ip)
    ensures CheckedBridge(init + [Pumping(id, Bridge, Check)], id, ip)
  {
    var events := init + [Pumping(id, Bridge, Check)];
    hide BridgeGiven;
    assert events[|init|] == Pumping(id, Bridge, Check) && events[..|init|] == init;
  }

  lemma CheckPasses(s: Session, role: Role, step: Step, i: nat)
    ensures var t := Pumped(s, role, step);
            && s.bridge.received <= t.bridge.received && s.client.received <= t.client.received
            && (i in t.bridge.passed
                <==> (i in s.bridge.passed
                      || (role == Bridge && step == Check && s.bridge.pc == Received && i == |s.bridge.received| - 1
                          && (s.bridgeIp.None? || s.bridgeIp.value == s.bridge.received[i].source.ip))))
            && (i in t.client.passed
                <==> (i in s.client.passed
                      || (role == Client && step == Check && s.client.pc == Received && i == |s.client.received| - 1
                          && (s.clientIp.None? || s.clientIp.value == s.client.received[i].source.ip))))
  {
  }

  /** In every run: what passed on the side of the bridge came, at its check, from the address of the latest activation
      of that session, or was checked before its first activation. */
  lemma {:induction false} BridgeSideIsActivated(events: seq<Event>, id: string, i: nat)
    requires PassedBridge(events, id, i)
    ensures i < |After(events)[id].bridge.received|
    ensures CheckedBridge(events, id, After(events)[id].bridge.received[i].source.ip)
  {
    var last := |events| - 1;
    var init, e := events[..last], events[last];
    hide Pumped, Opened, CheckedBridge, BridgeGiven;
    assert events == init + [e];
    if e.Pumping? && e.id == id {
      CheckPasses(After(init)[id], e.role, e.step, i);
      AddressesAreGiven(init, id);
    }
    if PassedBridge(init, id, i) {
      BridgeSideIsActivated(init, id, i);
      CheckedLater(init, e, id, After(init)[id].bridge.received[i].source.ip);
    } else {
      CheckedNow(init, id, After(init)[id].bridge.received[i].source.ip);
    }
  }

  /** What passed on the side of the client came from the address that the session was opened with, if one was given. */
  lemma {:induction false} ClientSideIsOpened(events: seq<Event>, id: string, i: nat)
    requires PassedClient(events, id, i)
    ensures i < |After(events)[id].client.received|
    ensures ClientGiven(events, id) == None || ClientGiven(events, id) == Some(After(events)[id].client.received[i].source.ip)
  {
    hide Pumped, Opened;
    var last := |events| - 1;
    var init, e := events[..last], events[last];
    AddressesAreGiven(events, id);
    AddressesAreGiven(init, id);
    if e.Pumping? && e.id == id {
      CheckPasses(After(init)[id], e.role, e.step, i);
      StepKeepsAddresses(After(init)[id], e.role, e.step);
    }
    if PassedClient(init, id, i) {
      ClientSideIsOpened(init, id, i);
    }
  }

  /** An ended pump does nothing any more, and a pump ends at its loop head only. */
  lemma EndedIsOver(s: Session, role: Role, step: Step)
    ensures (if role.Bridge? then s.bridge else s.client).pc.Ended? ==> Pumped(s, role, step) == s
    ensures role.Bridge? ==>
              (Pumped(s, Bridge, step).bridge.pc.Ended? <==> s.bridge.pc.Ended? || (s.bridge.pc.Head? && step.End?))
    ensures role.Client? ==>
              (Pumped(s, Client, step).client.pc.Ended? <==> s.client.pc.Ended? || (s.client.pc.Head? && step.End?))
  {
  }

  function Screening(s: Session, role: Role, d: Datagram): Session {
    Pumped(Pumped(Pumped(s, role, Receive(d)), role, Check), role, SetPeer)
  }

  function Forwarding(s: Session, role: Role, fails: bool): Session {
    Pumped(Pumped(Pumped(Pumped(s, role, ReadTarget), role, Send(fails)), role, AddBytes), role, AddPackets)
  }

  /** One undisturbed turn of the loop on the side of the bridge: a datagram is learned from, and sent on if the client
      is known, exactly if it comes from the address of the activation or there was no activation yet. */
  lemma UndisturbedBridgeTurn(s: Session, d: Datagram, fails: bool)
    requires s.bridge.pc.Head?
    ensures var t := Forwarding(Screening(s, Bridge, d), Bridge, fails);
            var passes := s.bridgeIp.None? || s.bridgeIp.value == d.source.ip;
            var sends := passes && s.clientPeer.Some? && !fails;
            && t.bridge.pc.Head? && t.bridge.received == s.bridge.received + [d]
            && t.bridgePeer == (if passes then Some(d.source) else s.bridgePeer)
            && t.bridge.sent == s.bridge.sent + (if sends then [Sending(|s.bridge.received|, d.data, s.clientPeer.value)] else [])
            && t.bridge.bytes == s.bridge.bytes + (if sends then |d.data| else 0)
            && t.bridge.packets == s.bridge.packets + (if sends then 1 else 0)
            && t.client == s.client && t.clientPeer == s.clientPeer && t.bridgeIp == s.bridgeIp && t.clientIp == s.clientIp
  {
    hide Screening, Forwarding;
    AfterScreening(s, Bridge, d);
    AfterForwarding(Screening(s, Bridge, d), Bridge, fails);
  }

  /** On the side of the client the address is the one known since the session was created, if any. */
  lemma UndisturbedClientTurn(s: Session, d: Datagram, fails: bool)
    requires s.client.pc.Head?
    ensures var t := Forwarding(Screening(s, Client, d), Client, fails);
            var passes := s.clientIp.None? || s.clientIp.value == d.source.ip;
            var sends := passes && s.bridgePeer.Some? && !fails;
            && t.client.pc.Head? && t.client.received == s.client.received + [d]
            && t.clientPeer == (if passes then Some(d.source) else s.clientPeer)
            && t.client.sent == s.client.sent + (if sends then [Sending(|s.client.received|, d.data, s.bridgePeer.value)] else [])
            && t.client.bytes == s.client.bytes + (if sends then |d.data| else 0)
            && t.client.packets == s.client.packets + (if sends then 1 else 0)
            && t.bridge == s.bridge && t.bridgePeer == s.bridgePeer && t.bridgeIp == s.bridgeIp && t.clientIp == s.clientIp
  {
    hide Screening, Forwarding;
    AfterScreening(s, Client, d);
    AfterForwarding(Screening(s, Client, d), Client, fails);
  }

  lemma AfterScreening(s: Session, role: Role, d: Datagram)
    requires PumpOf(s, role).pc.Head?
    ensures var t := Screening(s, role, d);
            var p, q := PumpOf(s, role), PumpOf(t, role);
            && q.sent == p.sent && q.received == p.received + [d] && PeerOf(t, Other(role)) == PeerOf(s, Other(role))
            && q.bytes == p.bytes && q.packets == p.packets
            && PumpOf(t, Other(role)) == PumpOf(s, Other(role)) && t.bridgeIp == s.bridgeIp && t.clientIp == s.clientIp
            && if IsAllowed(Expected(s, role), d.source.ip) then q.pc.PeerKnown? && PeerOf(t, role) == Some(d.source)
               else q.pc.Head? && PeerOf(t, role) == PeerOf(s, role)
  {
  }

  lemma OwnStep(s: Session, role: Role, step: Step)
    requires !step.SetPeer?
    ensures var t := Pumped(s, role, step);
            && PumpOf(t, role) == Advanced(PumpOf(s, role), Expected(s, role), PeerOf(s, Other(role)), step)
            && Expected(t, role) == Expected(s, role)
            && PeerOf(t, role) == PeerOf(s, role) && PeerOf(t, Other(role)) == PeerOf(s, Other(role))
            && PumpOf(t, Other(role)) == PumpOf(s, Other(role)) && t.bridgeIp == s.bridgeIp && t.clientIp == s.clientIp
  {
    hide Advanced;
  }

  lemma PumpForwards(p: Pump, expected: Option<string>, peer: Option<Address>, fails: bool)
    requires p.pc in {Head, PeerKnown} && p.received != []
    ensures var p1 := Advanced(p, expected, peer, ReadTarget);
            var p2 := Advanced(p1, expected, peer, Send(fails));
            var p3 := Advanced(p2, expected, peer, AddBytes);
            var p4 := Advanced(p3, expected, peer, AddPackets);
            var sends := p.pc.PeerKnown? && peer.Some? && !fails;
            && p4.pc.Head? && p4.received == p.received
            && p4.sent == p.sent + (if sends then [Sending(|p.received| - 1, p.received[|p.received| - 1].data, peer.value)] else [])
            && p4.bytes == p.bytes + (if sends then |p.received[|p.received| - 1].data| else 0)
            && p4.packets == p.packets + (if sends then 1 else 0)
  {
  }

  lemma AfterForwarding(s: Session, role: Role, fails: bool)
    requires PumpOf(s, role).pc in {Head, PeerKnown} && PumpOf(s, role).received != []
    ensures var t := Forwarding(s, role, fails);
            var p, q, peer := PumpOf(s, role), PumpOf(t, role), PeerOf(s, Other(role));
            var sends := p.pc.PeerKnown? && peer.Some? && !fails;
            && q.pc.Head? && PeerOf(t, role) == PeerOf(s, role) && q.received == p.received
            && q.sent == p.sent + (if sends then [Sending(|p.received| - 1, p.received[|p.received| - 1].data, peer.value)] else [])
            && q.bytes == p.bytes + (if sends then |p.received[|p.received| - 1].data| else 0)
            && q.packets == p.packets + (if sends then 1 else 0)
            && PumpOf(t, Other(role)) == PumpOf(s, Other(role)) && PeerOf(t, Other(role)) == peer
            && t.bridgeIp == s.bridgeIp && t.clientIp == s.clientIp
  {
    hide Advanced, Pumped, PumpOf, PeerOf, Expected, Other;
    var s1 := Pumped(s, role, ReadTarget);
    var s2 := Pumped(s1, role, Send(fails));
    var s3 := Pumped(s2, role, AddBytes);
    OwnStep(s, role, ReadTarget);
    OwnStep(s1, role, Send(fails));
    OwnStep(s2, role, AddBytes);
    OwnStep(s3, role, AddPackets);
    PumpForwards(PumpOf(s, role), Expected(s, role), PeerOf(s, Other(role)), fails);
  }
}
