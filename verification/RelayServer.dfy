/**
 The session table of the relay (relay_server.py: `create_session`, `cleanup_sessions`, `_bind_udp_pair` and the
 control requests). Sessions are keyed by their random ids; the pumps are in RelayPump.
 */
module RelayServer {
  import opened Wrappers

  const MAX_SESSIONS: nat := 50
  const SESSION_IDLE_SECONDS: real := 90.0
  const SESSION_MAX_SECONDS: real := 86400.0
  const WAITING_SECONDS: real := 120.0

  datatype Status = WaitingBridge | Active

  datatype Session = Session(device: string, createdAt: real, lastActivity: real, status: Status,
                             clientIp: Option<string>, bridgeIp: Option<string>, bridgePort: nat, clientPort: nat)

  type Sessions = map<string, Session>

  predicate Expired(s: Session, now: real) {
    || now - s.createdAt > SESSION_MAX_SECONDS
    || (now - s.lastActivity > SESSION_IDLE_SECONDS && s.status == Active)
    || (now - s.createdAt > WAITING_SECONDS && s.status == WaitingBridge)
  }

  function Alive(sessions: Sessions, now: real): Sessions {
    map id | id in sessions && !Expired(sessions[id], now) :: sessions[id]
  }

  function Activated(sessions: Sessions, id: string, ip: string): Sessions {
    if id in sessions then sessions[id := sessions[id].(status := Active, bridgeIp := Some(ip))] else sessions
  }

  /** A pump has received an allowed datagram. */
  function Touched(sessions: Sessions, id: string, now: real): Sessions {
    if id in sessions then sessions[id := sessions[id].(lastActivity := now)] else sessions
  }

  /** The address that a client is expected at: `global` normalizes global addresses and knows no others. */
  function ExpectedClient(global: string -> Option<string>, address: string): Option<string> {
    if global(address).Some? then global(address) else if address != "" then Some(address) else None
  }

  function ExpectedBridge(global: string -> Option<string>, address: string): string {
    if global(address).Some? then global(address).value else address
  }

  function Waiting(sessions: Sessions): set<string> {
    set id | id in sessions && sessions[id].status == WaitingBridge
  }

  // ---------- Invariants ----------

  ghost predicate OnePerDevice(sessions: Sessions) {
    forall x, y :: x in sessions && y in sessions && sessions[x].device == sessions[y].device ==> x == y
  }

  function PortsOf(s: Session): set<nat> {
    {s.bridgePort, s.clientPort}
  }

  ghost predicate Apart(s: Session, t: Session) {
    PortsOf(s) !! PortsOf(t)
  }

  /** No UDP port serves two roles. */
  ghost predicate PortsDistinct(sessions: Sessions) {
    && (forall x <- sessions :: sessions[x].bridgePort != sessions[x].clientPort)
    && forall x, y :: x in sessions && y in sessions && x != y ==> Apart(sessions[x], sessions[y])
  }

  ghost predicate Consistent(sessions: Sessions) {
    |sessions| <= MAX_SESSIONS && OnePerDevice(sessions) && PortsDistinct(sessions)
  }

  /** A session lasts a day at most; an active one needs traffic every minute and a half, and one that waits for the
      bridge lasts two minutes. */
  ghost predicate Current(s: Session, now: real) {
    && now <= s.createdAt + 86400.0
    && (s.status == Active ==> now <= s.lastActivity + 90.0)
    && (s.status == WaitingBridge ==> now <= s.createdAt + 120.0)
  }

  /** Exactly the current sessions are left, unchanged. */
  ghost predicate Cleaned(sessions: Sessions, after: Sessions, now: real) {
    && (forall id :: id in after <==> id in sessions && Current(sessions[id], now))
    && forall id <- after :: after[id] == sessions[id]
  }

  lemma ExpiredMeans(s: Session, now: real)
    ensures Expired(s, now) <==> !Current(s, now)
  {
  }

  /** Cleaning up keeps the invariants and exactly the sessions that respect their age and idle bounds. */
  lemma CleanupKeeps(sessions: Sessions, now: real)
    requires Consistent(sessions)
    ensures Consistent(Alive(sessions, now)) && Alive(Alive(sessions, now), now) == Alive(sessions, now)
    ensures Cleaned(sessions, Alive(sessions, now), now)
  {
    hide Consistent;
    FewerKeep(sessions, Alive(sessions, now));
  }

  /** The invariants depend on ids, devices and ports alone, and hold of fewer sessions too. */
  lemma FewerKeep(sessions: Sessions, fewer: Sessions)
    requires Consistent(sessions) && fewer.Keys <= sessions.Keys
    requires forall x <- fewer :: fewer[x].device == sessions[x].device && fewer[x].bridgePort == sessions[x].bridgePort
                                  && fewer[x].clientPort == sessions[x].clientPort
    ensures Consistent(fewer)
  {
    FewerSessions(sessions, fewer);
    assert forall x <- fewer :: PortsOf(fewer[x]) == PortsOf(sessions[x]);
    assert forall x, y :: x in fewer && y in fewer ==> (Apart(fewer[x], fewer[y]) <==> Apart(sessions[x], sessions[y]));
    hide PortsOf, Apart;
  }

  lemma FewerSessions(sessions: Sessions, fewer: Sessions)
    requires fewer.Keys <= sessions.Keys
    ensures |fewer| <= |sessions|
  {
    assert sessions.Keys == fewer.Keys + (sessions.Keys - fewer.Keys);
    assert |fewer| == |fewer.Keys| && |sessions| == |sessions.Keys|;
  }

  function UsedPorts(sessions: Sessions): set<nat> {
    set x, p | x in sessions && p in PortsOf(sessions[x]) :: p
  }

  lemma FreeIsApart(sessions: Sessions, s: Session, used: set<nat>)
    requires UsedPorts(sessions) <= used && s.bridgePort !in used && s.clientPort !in used
    ensures forall x <- sessions :: Apart(sessions[x], s) && Apart(s, sessions[x])
  {
  }

  lemma AddedKeeps(sessions: Sessions, id: string, s: Session)
    requires PortsDistinct(sessions) && id !in sessions && |sessions| < MAX_SESSIONS && s.bridgePort != s.clientPort
    requires forall x <- sessions :: Apart(sessions[x], s) && Apart(s, sessions[x])
    ensures PortsDistinct(sessions[id := s]) && |sessions[id := s]| <= MAX_SESSIONS
  {
  }

  /** Adding a session for a device keeps one session per device exactly if none of it survived: with two
      readings of the clock one may survive the first and be expired at the second. */
  lemma SecondSession(sessions: Sessions, now: real, id: string, s: Session)
    requires OnePerDevice(sessions) && id !in sessions
    ensures OnePerDevice(Alive(sessions, now)[id := s])
            <==> forall x <- sessions :: sessions[x].device == s.device ==> Expired(sessions[x], now)
  {
    var after := Alive(sessions, now)[id := s];
    if x :| x in sessions && sessions[x].device == s.device && !Expired(sessions[x], now) {
      assert x in after && after[x].device == after[id].device;
    }
  }

  /** One session is active now and expects its bridge at this address; nothing else changed. */
  ghost predicate Admits(sessions: Sessions, after: Sessions, id: string, ip: string) {
    && after.Keys == sessions.Keys && (forall x <- sessions :: x != id ==> after[x] == sessions[x])
    && (id in sessions ==>
          var s, t := sessions[id], after[id];
          && t.status == Active && t.bridgeIp == Some(ip) && t.clientIp == s.clientIp && t.device == s.device
          && t.createdAt == s.createdAt && t.lastActivity == s.lastActivity
          && t.bridgePort == s.bridgePort && t.clientPort == s.clientPort)
  }

  /** Activation keeps the invariants and everything but the status and address of its session. */
  lemma ActivationKeeps(sessions: Sessions, id: string, ip: string)
    requires Consistent(sessions)
    ensures Consistent(Activated(sessions, id, ip))
    ensures Waiting(Activated(sessions, id, ip)) == Waiting(sessions) - {id}
    ensures Admits(sessions, Activated(sessions, id, ip), id, ip)
  {
    hide Consistent;
    var after := Activated(sessions, id, ip);
    FewerKeep(sessions, after);
  }

  /** Traffic keeps the invariants, and an active session alive for another 90 seconds, up to its greatest age. */
  lemma TouchKeeps(sessions: Sessions, id: string, now: real, t: real)
    requires Consistent(sessions) && id in sessions && sessions[id].status == Active && now <= t <= now + 90.0
    ensures Consistent(Touched(sessions, id, now)) && Waiting(Touched(sessions, id, now)) == Waiting(sessions)
    ensures id in Alive(Touched(sessions, id, now), t) <==> t <= sessions[id].createdAt + 86400.0
  {
    hide Consistent;
    FewerKeep(sessions, Touched(sessions, id, now));
  }

  // ---------- Ports ----------

  const UDP_START: nat := 40000
  const UDP_END: nat := 40199

  function AttemptsFor(ports: int): (r: nat)
    ensures 20 <= r <= 200 && (r == 20 <==> ports <= 20) && (r == 200 <==> ports >= 200)
    ensures 20 <= ports <= 200 ==> r == ports
  {
    if ports < 20 then 20 else if ports > 200 then 200 else ports
  }

  const ATTEMPTS: nat := AttemptsFor(UDP_END - UDP_START + 1)

  /** The range has two hundred ports, and that many pairs are tried. */
  lemma TwoHundredAttempts()
    ensures ATTEMPTS == 200
  {
  }

  ghost predicate Binds(pick: (nat, nat), used: set<nat>) {
    pick.0 != pick.1 && pick.0 !in used && pick.1 !in used
  }

  /** `picks` are the random choices; binding a port fails while it is in use. */
  method BindUdpPair(picks: seq<(nat, nat)>, used: set<nat>) returns (r: Option<(nat, nat)>)
    requires |picks| >= ATTEMPTS
    ensures r.Some? ==> exists i :: 0 <= i < ATTEMPTS && picks[i] == r.value && Binds(picks[i], used)
                                    && forall j :: 0 <= j < i ==> !Binds(picks[j], used)
    ensures r.None? ==> forall i :: 0 <= i < ATTEMPTS ==> !Binds(picks[i], used)
  {
    for i := 0 to ATTEMPTS
      invariant forall j :: 0 <= j < i ==> !Binds(picks[j], used)
    {
      var (first, second) := picks[i];
      if first == second {
        continue;
      }
      if first !in used && second !in used {
        assert Binds(picks[i], used);
        return Some((first, second));
      }
    }
    r := None;
  }

  datatype RelayError = NotConfigured | CapacityExhausted | NoPorts | SessionNotFound

  class Relay {
    var sessions: Sessions
    const publicHost: string
    const global: string -> Option<string>

    ghost predicate Valid()
      reads this
    {
      Consistent(sessions)
    }

    constructor (publicHost: string, global: string -> Option<string>)
      ensures Valid() && sessions == map[] && this.publicHost == publicHost && this.global == global
    {
      this.publicHost, this.global, sessions := publicHost, global, map[];
    }

    method Touch(id: string, now: real)
      requires Valid()
      modifies this
      ensures Valid() && sessions == Touched(old(sessions), id, now)
      ensures sessions.Keys == old(sessions).Keys && forall x <- sessions :: x != id ==> sessions[x] == old(sessions)[x]
      ensures id in sessions ==> sessions[id].lastActivity == now
                                 && sessions[id].(lastActivity := old(sessions)[id].lastActivity) == old(sessions)[id]
    {
      hide Consistent;
      FewerKeep(sessions, Touched(sessions, id, now));
      if id in sessions {
        sessions := sessions[id := sessions[id].(lastActivity := now)];
      }
    }

    method CleanupSessions(now: real)
      requires Valid()
      modifies this
      ensures Valid() && sessions == Alive(old(sessions), now) && Cleaned(old(sessions), sessions, now)
    {
      hide Consistent, Expired, Cleaned;
      CleanupKeeps(sessions, now);
      var stale := set id | id in sessions && Expired(sessions[id], now);
      while stale != {}
        invariant stale <= sessions.Keys <= old(sessions).Keys
        invariant forall id <- sessions :: sessions[id] == old(sessions)[id]
        invariant forall id <- old(sessions) ::
                    if Expired(old(sessions)[id], now) then id in stale <==> id in sessions else id in sessions
        decreases stale
      {
        var id :| id in stale;
        sessions := sessions - {id};
        stale := stale - {id};
      }
      assert sessions == Alive(old(sessions), now);
    }

    /** A device keeps its session; otherwise it gets a new one on free ports. Capacity is checked first, so a
        full relay refuses even a device that has a session. `now` is the clock of the cleanup, `later` that of
        the search for an existing session. */
    method CreateSession(device: string, clientAddress: string, now: real, later: real, id: string,
                         picks: seq<(nat, nat)>, foreign: set<nat>) returns (r: Result<string, RelayError>)
      requires Valid() && id !in sessions && |picks| >= ATTEMPTS
      modifies this
      ensures r.Ok? || r == Err(NotConfigured) || r == Err(CapacityExhausted) || r == Err(NoPorts)
      ensures r == Err(NotConfigured) <==> publicHost == ""
      ensures r == Err(NotConfigured) ==> sessions == old(sessions)
      ensures r != Err(NotConfigured) ==>
              var alive := Alive(old(sessions), now);
              && Cleaned(old(sessions), alive, now)
              && (r == Err(CapacityExhausted) <==> |alive| >= 50)
              && (r.Err? ==> sessions == alive)
              && (r == Err(NoPorts) ==> forall i :: 0 <= i < 200 ==> !Binds(picks[i], foreign + UsedPorts(alive)))
              && (r.Ok? && r.value in alive ==>
                    sessions == alive && alive[r.value].device == device && Current(alive[r.value], later))
              && (r.Ok? && r.value !in alive ==>
                    && r.value == id && id in sessions && sessions == alive[id := sessions[id]]
                    && sessions[id].device == device && sessions[id].createdAt == sessions[id].lastActivity == later
                    && sessions[id].status == WaitingBridge && sessions[id].bridgeIp == None
                    && (global(clientAddress).Some? ==> sessions[id].clientIp == global(clientAddress))
                    && (global(clientAddress).None? ==> sessions[id].clientIp == if clientAddress == "" then None else Some(clientAddress))
                    && (exists i :: 0 <= i < 200 && picks[i] == (sessions[id].bridgePort, sessions[id].clientPort)
                                    && Binds(picks[i], foreign + UsedPorts(alive)))
                    && forall x <- alive :: alive[x].device == device ==> !Current(alive[x], later))
      ensures |sessions| <= MAX_SESSIONS && PortsDistinct(sessions)
      ensures now == later ==> Valid()
    {
      hide Expired, PortsOf, Apart, UsedPorts, PortsDistinct, Current, Cleaned;
      TwoHundredAttempts();
      if publicHost == "" {
        return Err(NotConfigured);
      }
      CleanupSessions(now);
      forall x <- sessions ensures Expired(sessions[x], later) <==> !Current(sessions[x], later) {
        ExpiredMeans(sessions[x], later);
      }
      if |sessions| >= MAX_SESSIONS {
        return Err(CapacityExhausted);
      }
      if exists x <- sessions :: sessions[x].device == device && !Expired(sessions[x], later) {
        var x :| x in sessions && sessions[x].device == device && !Expired(sessions[x], later);
        return Ok(x);
      }
      r := OpenSession(device, ExpectedClient(global, clientAddress), later, id, picks, foreign);
      if r.Ok? {
        SecondSession(old(sessions), now, id, sessions[id]);
      }
    }

    method OpenSession(device: string, clientIp: Option<string>, now: real, id: string,
                       picks: seq<(nat, nat)>, foreign: set<nat>) returns (r: Result<string, RelayError>)
      requires PortsDistinct(sessions) && |sessions| < MAX_SESSIONS && id !in sessions && |picks| >= ATTEMPTS
      modifies this
      ensures PortsDistinct(sessions) && |sessions| <= MAX_SESSIONS
      ensures r == Ok(id) || (r == Err(NoPorts) && sessions == old(sessions))
      ensures r.Err? ==> forall i :: 0 <= i < ATTEMPTS ==> !Binds(picks[i], foreign + UsedPorts(old(sessions)))
      ensures r.Ok? ==>
                && id in sessions && sessions == old(sessions)[id := sessions[id]]
                && sessions[id] == Session(device, now, now, WaitingBridge, clientIp, None, sessions[id].bridgePort, sessions[id].clientPort)
                && exists i :: 0 <= i < ATTEMPTS && picks[i] == (sessions[id].bridgePort, sessions[id].clientPort)
                               && Binds(picks[i], foreign + UsedPorts(old(sessions)))
    {
      hide PortsOf, Apart, UsedPorts, PortsDistinct;
      var used := foreign + UsedPorts(sessions);
      var ports := BindUdpPair(picks, used);
      if ports.None? {
        return Err(NoPorts);
      }
      var added := Session(device, now, now, WaitingBridge, clientIp, None, ports.value.0, ports.value.1);
      FreeIsApart(sessions, added, used);
      AddedKeeps(sessions, id, added);
      sessions := sessions[id := added];
      r := Ok(id);
    }

    method Activate(id: string, address: string) returns (r: Result<Session, RelayError>)
      requires Valid()
      modifies this
      ensures Valid() && Admits(old(sessions), sessions, id, if global(address).Some? then global(address).value else address)
      ensures if id in old(sessions) then r == Ok(sessions[id]) else r == Err(SessionNotFound)
    {
      hide Consistent, Admits;
      var ip := ExpectedBridge(global, address);
      ActivationKeeps(sessions, id, ip);
      if id !in sessions {
        return Err(SessionNotFound);
      }
      sessions := sessions[id := sessions[id].(status := Active, bridgeIp := Some(ip))];
      r := Ok(sessions[id]);
    }

    method Requests(now: real) returns (waiting: set<string>)
      requires Valid()
      modifies this
      ensures Valid() && sessions == Alive(old(sessions), now) && Cleaned(old(sessions), sessions, now)
      ensures forall id :: id in waiting <==> id in sessions && sessions[id].status == WaitingBridge
    {
      hide Consistent, Expired, Cleaned;
      CleanupSessions(now);
      waiting := Waiting(sessions);
    }

    /** A device sees only its own session. */
    method GetStatus(device: string, id: string, now: real) returns (r: Result<Session, RelayError>)
      requires Valid()
      modifies this
      ensures Valid() && sessions == Alive(old(sessions), now) && Cleaned(old(sessions), sessions, now)
      ensures r == if id in sessions && sessions[id].device == device then Ok(sessions[id]) else Err(SessionNotFound)
    {
      hide Consistent, Expired, Cleaned;
      CleanupSessions(now);
      if id !in sessions || sessions[id].device != device {
        return Err(SessionNotFound);
      }
      r := Ok(sessions[id]);
    }
  }

  lemma AliveAmongNone(now: real)
    ensures Alive(map[], now) == map[] && UsedPorts(map[]) == {}
  {
  }

  method FirstSession(device: string, address: string, start: real, id: string) returns (relay: Relay)
    ensures fresh(relay) && relay.Valid() && relay.publicHost != ""
    ensures id in relay.sessions && relay.sessions.Keys == {id}
    ensures var s := relay.sessions[id];
            && s.device == device && s.createdAt == start && s.status == WaitingBridge
            && s.bridgePort == 40000 && s.clientPort == 40001
  {
    hide Consistent, PortsDistinct, Alive, UsedPorts, Expired;
    relay := new Relay("relay", _ => None);
    AliveAmongNone(start);
    var picks := seq(ATTEMPTS, _ => (40000, 40001));
    assert picks[0] == (40000, 40001) && Binds(picks[0], {} + UsedPorts(map[]));
    var r := relay.CreateSession(device, address, start, start, id, picks, {});
    assert r == Ok(id);
  }

  lemma AliveThenExpired(sessions: Sessions, id: string, now: real, later: real)
    requires sessions.Keys == {id} && sessions[id].status == WaitingBridge
    requires now <= sessions[id].createdAt + 120.0 < later
    ensures Alive(sessions, now) == sessions && |sessions| == 1 && Expired(sessions[id], later)
    ensures UsedPorts(sessions) == {sessions[id].bridgePort, sessions[id].clientPort}
  {
    assert |sessions| == |sessions.Keys|;
    assert forall p :: p in UsedPorts(sessions) <==> p in PortsOf(sessions[id]) by {
      assert id in sessions;
    }
  }

  /** Two sessions for one device: a waiting session is found alive by the cleanup and expired by the search, when the
      two readings of the clock fall on either side of its two minutes. */
  method TwoSessionsForOneDevice(device: string, address: string, start: real, now: real, later: real, first: string, second: string)
      returns (relay: Relay)
    requires first != second && start <= now <= start + 120.0 < later
    ensures fresh(relay) && !OnePerDevice(relay.sessions)
  {
    hide Consistent, PortsDistinct, Alive, UsedPorts, Expired;
    relay := FirstSession(device, address, start, first);
    AliveThenExpired(relay.sessions, first, now, later);
    var picks := seq(ATTEMPTS, _ => (40002, 40003));
    assert picks[0] == (40002, 40003) && Binds(picks[0], {} + UsedPorts(relay.sessions));
    var r := relay.CreateSession(device, address, now, later, second, picks, {});
    assert r == Ok(second);
    assert relay.sessions[first].device == relay.sessions[second].device;
  }
}
