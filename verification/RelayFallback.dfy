/**
 The relay fallback between Android clients, the relay and the Bridge (RelayFallbackClient.kt: `requestAndWait`,
 relay_server.py: the device and admin requests, relay_client.py: `activate_request`), interleaved at the
 granularity of one request or one command. Expiry may take away any sessions at any time.
 */
module RelayFallback {
  import opened Wrappers
  import Registry
  import RegistryIntegrity
  import Access

  // ---------- The client ----------

  datatype Plan = Plan(session: string, bridgeEndpoint: string)

  datatype Failure = TerminalStatus | RequestFailed | Timeout

  datatype Verdict = Deliver | Fail(failure: Failure) | Ask

  /** What a client does with a status when `left` polls remain. */
  function Look(status: string, left: nat): Verdict {
    if left == 0 then Fail(Timeout)
    else if status == "ACTIVE" then Deliver
    else if status == "FAILED" || status == "ERROR" || status == "EXPIRED" then Fail(TerminalStatus)
    else Ask
  }

  /** The status after `k` polls, if the last of them was answered. */
  function StatusAt(initial: string, replies: seq<Option<string>>, k: nat): Option<string>
    requires k <= |replies|
  {
    if k == 0 then Some(initial) else replies[k - 1]
  }

  ghost predicate Asks(status: Option<string>) {
    status.Some? && status.value !in {"ACTIVE", "FAILED", "ERROR", "EXPIRED"}
  }

  lemma LookMeans(status: string, left: nat)
    ensures Look(status, left) == Fail(Timeout) <==> left == 0
    ensures Look(status, left) == Deliver <==> left > 0 && status == "ACTIVE"
    ensures Look(status, left) == Fail(TerminalStatus) <==> left > 0 && status in {"FAILED", "ERROR", "EXPIRED"}
    ensures Look(status, left) == Ask <==> left > 0 && Asks(Some(status))
  {
  }

  /** Every status before the `k`-th made the client ask again, and the `k`-th is `status`. */
  ghost predicate Reaches(initial: string, replies: seq<Option<string>>, k: nat, status: string) {
    && k <= |replies| && StatusAt(initial, replies, k) == Some(status)
    && forall j :: 0 <= j < k ==> Asks(StatusAt(initial, replies, j))
  }

  /** `replies` are the answers to the polls, `None` where a request fails. The plan is delivered exactly if the
      status becomes ACTIVE before the last poll: what that one answers is never looked at. */
  method RequestAndWait(initial: string, plan: Plan, replies: seq<Option<string>>, attempts: nat) returns (r: Result<Plan, Failure>)
    requires attempts >= 1 && |replies| >= attempts
    ensures r.Ok? ==> r.value == plan
    ensures r.Ok? <==> exists k :: 0 <= k < attempts && Reaches(initial, replies, k, "ACTIVE")
    ensures r == Err(Timeout) <==> exists status :: Reaches(initial, replies, attempts, status)
    ensures r == Err(TerminalStatus)
            <==> exists k, status :: 0 <= k < attempts && Reaches(initial, replies, k, status) && status in {"FAILED", "ERROR", "EXPIRED"}
  {
    var status := initial;
    for i := 0 to attempts
      invariant Reaches(initial, replies, i, status)
    {
      if status == "ACTIVE" {
        return Ok(plan);
      }
      if status == "FAILED" || status == "ERROR" || status == "EXPIRED" {
        assert !Asks(StatusAt(initial, replies, i));
        return Err(TerminalStatus);
      }
      assert Asks(StatusAt(initial, replies, i));
      if replies[i].None? {
        assert !Asks(StatusAt(initial, replies, i + 1)) && StatusAt(initial, replies, i + 1) == None;
        return Err(RequestFailed);
      }
      status := replies[i].value;
    }
    assert !Asks(Some("ACTIVE"));
    r := Err(Timeout);
  }

  // ---------- The system ----------

  datatype Session = Session(device: string, endpoint: string, active: bool)

  /** A device waits for its session with `left` polls remaining. */
  datatype Client = Waiting(device: string, session: string, endpoint: string, status: string, left: nat)
                  | Returned(device: string, plan: Plan)
                  | Failed(failure: Failure)

  datatype Request = Request(session: string, device: string, endpoint: string)

  /** A monitor of the Bridge between two commands. */
  datatype Monitor = Fetched(requests: seq<Request>) | Activating(request: Request, requests: seq<Request>)

  /** A successful `wg set`. */
  datatype Setting = Setting(request: Request, found: Registry.Device)

  datatype System = System(sessions: map<string, Session>,
                           clients: map<nat, Client>,
                           monitors: map<nat, Monitor>,
                           devices: seq<Registry.Device>,
                           issued: map<string, Request>,
                           settings: seq<Setting>)

  const START := System(map[], map[], map[], [], map[], [])

  datatype Event =
    | DeviceAsks(client: nat, device: string, id: string, endpoint: string, polls: nat)
    | DeviceAsksAgain(client: nat, device: string, id: string, polls: nat)
    | Polls(client: nat)
    | RequestFails(client: nat)
    | Expires(ids: set<string>)
    | MonitorFetches(monitor: nat)
    | MonitorSets(monitor: nat, today: int, succeeds: bool)
    | MonitorActivates(monitor: nat, arrives: bool)
    | MonitorFails(monitor: nat)
    | RegistryChanges(devices: seq<Registry.Device>)

  function StatusOf(s: Session): string {
    if s.active then "ACTIVE" else "WAITING_BRIDGE"
  }

  /** The client looks at its status and delivers, fails or goes on waiting. */
  function Looked(device: string, session: string, endpoint: string, status: string, left: nat): Client {
    match Look(status, left)
    case Deliver => Returned(device, Plan(session, endpoint))
    case Fail(f) => Failed(f)
    case Ask => Waiting(device, session, endpoint, status, left)
  }

  /** All waiting sessions, in any order. */
  ghost predicate ListsWaiting(requests: seq<Request>, sessions: map<string, Session>) {
    forall r :: r in requests <==>
      r.session in sessions && !sessions[r.session].active && r == RequestOf(r.session, sessions[r.session])
  }

  function RequestOf(id: string, s: Session): Request {
    Request(id, s.device, s.endpoint)
  }

  /** One event; fresh ids are ids that were never issued. */
  ghost predicate Next(s: System, e: Event, t: System) {
    match e
    case DeviceAsks(c, device, id, endpoint, polls) =>
      && id !in s.issued
      && t == s.(sessions := s.sessions[id := Session(device, endpoint, false)],
                 issued := s.issued[id := Request(id, device, endpoint)],
                 clients := s.clients[c := Looked(device, id, endpoint, "WAITING_BRIDGE", polls)])
    case DeviceAsksAgain(c, device, id, polls) =>
      && id in s.sessions && s.sessions[id].device == device
      && t == s.(clients := s.clients[c := Looked(device, id, s.sessions[id].endpoint, StatusOf(s.sessions[id]), polls)])
    case Polls(c) =>
      && c in s.clients && s.clients[c].Waiting? && s.clients[c].left > 0
      && var w := s.clients[c];
         t == s.(clients := s.clients[c :=
           if w.session in s.sessions && s.sessions[w.session].device == w.device
           then Looked(w.device, w.session, w.endpoint, StatusOf(s.sessions[w.session]), w.left - 1)
           else Failed(RequestFailed)])
    case RequestFails(c) => c in s.clients && s.clients[c].Waiting? && t == s.(clients := s.clients[c := Failed(RequestFailed)])
    case Expires(ids) => t == s.(sessions := s.sessions - ids)
    case MonitorFetches(m) =>
      && (m in s.monitors ==> s.monitors[m] == Fetched([]))
      && exists requests :: ListsWaiting(requests, s.sessions) && t == s.(monitors := s.monitors[m := Fetched(requests)])
    case MonitorSets(m, today, succeeds) =>
      && m in s.monitors && s.monitors[m].Fetched? && s.monitors[m].requests != []
      && var r, rest := s.monitors[m].requests[0], s.monitors[m].requests[1..];
         var found := Registry.FindDevice(s.devices, r.device);
         t == if r.session == "" || r.device == "" || r.endpoint == "" || found.None?
                 || !Access.IsActive(s.devices[found.value], today) || s.devices[found.value].publicKey == "" || !succeeds
              then s.(monitors := s.monitors[m := Fetched(rest)])
              else s.(monitors := s.monitors[m := Activating(r, rest)], settings := s.settings + [Setting(r, s.devices[found.value])])
    case MonitorActivates(m, arrives) =>
      && m in s.monitors && s.monitors[m].Activating?
      && var id := s.monitors[m].request.session;
         t == s.(monitors := s.monitors[m := Fetched(s.monitors[m].requests)],
                 sessions := if arrives && id in s.sessions then s.sessions[id := s.sessions[id].(active := true)] else s.sessions)
    case MonitorFails(m) => m in s.monitors && t == s.(monitors := s.monitors - {m})
    case RegistryChanges(devices) => t == s.(devices := devices)
  }

  /** The Bridge set the endpoint of the request for a device that answers to the device id of the request. */
  ghost predicate Set(settings: seq<Setting>, r: Request) {
    exists x <- settings :: x.request == r && (x.found.id == r.device || x.found.name == r.device) && x.found.publicKey != ""
  }

  ghost predicate Known(s: System, r: Request) {
    r.session in s.issued && s.issued[r.session] == r
  }

  ghost predicate SessionFits(s: System, id: string, x: Session) {
    Known(s, RequestOf(id, x)) && (x.active ==> Set(s.settings, RequestOf(id, x)))
  }

  ghost predicate ClientFits(s: System, c: Client) {
    match c
    case Waiting(device, session, endpoint, status, left) => Known(s, Request(session, device, endpoint)) && status != "ACTIVE" && left > 0
    case Returned(device, plan) => Set(s.settings, Request(plan.session, device, plan.bridgeEndpoint))
    case Failed(_) => true
  }

  ghost predicate MonitorFits(s: System, m: Monitor) {
    && (forall r <- m.requests :: Known(s, r))
    && (m.Activating? ==> Known(s, m.request) && Set(s.settings, m.request))
  }

  ghost predicate Invariant(s: System) {
    && (forall id <- s.sessions :: SessionFits(s, id, s.sessions[id]))
    && (forall c <- s.clients :: ClientFits(s, s.clients[c]))
    && (forall m <- s.monitors :: MonitorFits(s, s.monitors[m]))
    && forall id <- s.issued :: s.issued[id].session == id
  }

  ghost predicate Extends(s: System, t: System) {
    s.settings <= t.settings && (forall id <- s.issued :: id in t.issued && t.issued[id] == s.issued[id])
  }

  lemma FitsGrows(s: System, t: System)
    requires Extends(s, t)
    ensures forall id, x :: SessionFits(s, id, x) ==> SessionFits(t, id, x)
    ensures forall c :: ClientFits(s, c) ==> ClientFits(t, c)
    ensures forall m :: MonitorFits(s, m) ==> MonitorFits(t, m)
  {
  }

  lemma NextExtends(s: System, e: Event, t: System)
    requires Next(s, e, t)
    ensures Extends(s, t)
  {
    hide ListsWaiting, Looked, StatusOf, RequestOf, Registry.FindDevice, Access.IsActive;
    match e
    case DeviceAsks(c, device, id, endpoint, polls) =>
    case MonitorSets(m, today, succeeds) =>
    case _ =>
  }

  lemma LookedFits(s: System, device: string, session: string, endpoint: string, status: string, left: nat)
    requires Known(s, Request(session, device, endpoint))
    requires status == "ACTIVE" ==> Set(s.settings, Request(session, device, endpoint))
    ensures ClientFits(s, Looked(device, session, endpoint, status, left))
  {
    hide Set;
  }

  lemma ClientEventKeeps(s: System, e: Event, t: System)
    requires Invariant(s) && Next(s, e, t) && (e.DeviceAsks? || e.DeviceAsksAgain? || e.Polls? || e.RequestFails?)
    ensures Invariant(t)
  {
    hide Set, Looked, Known, Extends, ListsWaiting, SessionFits, ClientFits, MonitorFits, RequestOf, StatusOf,
         Registry.FindDevice, Access.IsActive;
    NextExtends(s, e, t);
    FitsGrows(s, t);
    match e
    case DeviceAsks(c, device, id, endpoint, polls) =>
      NewFits(t, device, id, endpoint, polls);
    case DeviceAsksAgain(c, device, id, polls) =>
      SessionLooks(s, t, id, polls);
    case Polls(c) =>
      PollFits(s, t, c);
    case RequestFails(c) =>
      FailedFits(t, RequestFailed);
  }

  lemma NextKeeps(s: System, e: Event, t: System)
    requires Invariant(s) && Next(s, e, t)
    ensures Invariant(t)
  {
    hide Set, Looked, Known, Extends, ListsWaiting, SessionFits, ClientFits, MonitorFits, RequestOf, StatusOf,
         Registry.FindDevice, Access.IsActive;
    if e.DeviceAsks? || e.DeviceAsksAgain? || e.Polls? || e.RequestFails? {
      ClientEventKeeps(s, e, t);
    } else {
      NextExtends(s, e, t);
      FitsGrows(s, t);
      match e
      case MonitorFetches(m) =>
        FetchFits(s, t, m);
      case MonitorSets(m, today, succeeds) =>
        SettingFits(s, t, m, today, succeeds);
      case MonitorActivates(m, arrives) =>
        ActivationFits(s, t, m, arrives);
      case _ =>
    }
  }

  lemma NewFits(t: System, device: string, id: string, endpoint: string, polls: nat)
    requires id in t.issued && t.issued[id] == Request(id, device, endpoint)
    ensures SessionFits(t, id, Session(device, endpoint, false))
    ensures ClientFits(t, Looked(device, id, endpoint, "WAITING_BRIDGE", polls))
  {
  }

  lemma SessionLooks(s: System, t: System, id: string, polls: nat)
    requires Invariant(s) && id in s.sessions && t.issued == s.issued && t.settings == s.settings
    ensures var x := s.sessions[id]; ClientFits(t, Looked(x.device, id, x.endpoint, StatusOf(x), polls))
  {
    hide Set;
    assert SessionFits(s, id, s.sessions[id]);
    LookedFits(t, s.sessions[id].device, id, s.sessions[id].endpoint, StatusOf(s.sessions[id]), polls);
  }

  lemma PollFits(s: System, t: System, c: nat)
    requires Invariant(s) && Next(s, Polls(c), t)
    ensures ClientFits(t, t.clients[c])
  {
    hide Set, Looked, ListsWaiting;
    var w := s.clients[c];
    assert ClientFits(s, w);
    if w.session in s.sessions && s.sessions[w.session].device == w.device {
      assert SessionFits(s, w.session, s.sessions[w.session]);
      LookedFits(t, w.device, w.session, w.endpoint, StatusOf(s.sessions[w.session]), w.left - 1);
    }
  }

  lemma FailedFits(t: System, f: Failure)
    ensures ClientFits(t, Failed(f))
  {
  }

  lemma FetchFits(s: System, t: System, m: nat)
    requires Invariant(s) && Next(s, MonitorFetches(m), t)
    ensures MonitorFits(t, t.monitors[m])
  {
  }

  lemma SettingFits(s: System, t: System, m: nat, today: int, succeeds: bool)
    requires Invariant(s) && Next(s, MonitorSets(m, today, succeeds), t)
    ensures MonitorFits(t, t.monitors[m])
  {
    hide ListsWaiting;
    assert MonitorFits(s, s.monitors[m]);
    var r := s.monitors[m].requests[0];
    assert r in s.monitors[m].requests;
    assert forall q <- s.monitors[m].requests[1..] :: q in s.monitors[m].requests;
    if t.monitors[m].Activating? {
      assert t.settings[|s.settings|] in t.settings;
    }
  }

  lemma ActivationFits(s: System, t: System, m: nat, arrives: bool)
    requires Invariant(s) && Next(s, MonitorActivates(m, arrives), t)
    ensures MonitorFits(t, t.monitors[m])
    ensures var id := s.monitors[m].request.session; id in t.sessions ==> SessionFits(t, id, t.sessions[id])
  {
  }

  /** A run of the system. */
  ghost predicate Run(states: seq<System>, events: seq<Event>) {
    && |states| == |events| + 1 && states[0] == START
    && forall i :: 0 <= i < |events| ==> Next(states[i], events[i], states[i + 1])
  }

  lemma {:induction false} RunKeeps(states: seq<System>, events: seq<Event>, n: nat)
    requires Run(states, events) && n < |states|
    ensures Invariant(states[n])
  {
    hide Next, Invariant;
    if n == 0 {
      StartIsInvariant();
    } else {
      RunKeeps(states, events, n - 1);
      NextKeeps(states[n - 1], events[n - 1], states[n]);
    }
  }

  lemma StartIsInvariant()
    ensures Invariant(START)
  {
  }

  /** In every interleaving: when a client has its plan, the Bridge has, before that, successfully set the peer
      endpoint of a device answering to its id to the bridge endpoint of that very session. */
  lemma PlanComesAfterSetting(states: seq<System>, events: seq<Event>, n: nat, c: nat)
    requires Run(states, events) && n < |states| && c in states[n].clients && states[n].clients[c].Returned?
    ensures var r := states[n].clients[c];
            Set(states[n].settings, Request(r.plan.session, r.device, r.plan.bridgeEndpoint))
  {
    hide Run, Set;
    RunKeeps(states, events, n);
    assert ClientFits(states[n], states[n].clients[c]);
  }

  /** What a poll comes to: the plan, if the session is active and this was not the last poll, or a failure when the polls
      are used up or the session is gone; otherwise the device waits with one poll less. */
  lemma PollMeans(s: System, c: nat, t: System)
    requires Next(s, Polls(c), t)
    ensures c in s.clients && c in t.clients
    ensures var w, x := s.clients[c], t.clients[c];
            var own := w.session in s.sessions && s.sessions[w.session].device == w.device;
            && w.Waiting? && w.left > 0
            && (x.Returned? <==> own && w.left > 1 && s.sessions[w.session].active)
            && (x.Returned? ==> x.device == w.device && x.plan == Plan(w.session, w.endpoint))
            && (x == Failed(Timeout) <==> own && w.left == 1)
            && (x == Failed(RequestFailed) <==> !own)
            && (x.Waiting? <==> own && w.left > 1 && !s.sessions[w.session].active)
            && (x.Waiting? ==> x == Waiting(w.device, w.session, w.endpoint, "WAITING_BRIDGE", w.left - 1))
  {
    hide ListsWaiting, Registry.FindDevice, Access.IsActive;
  }

  /** A device that asks gets a new waiting session, and one that asks again for its own session an immediate plan if that is
      active. */
  lemma AskMeans(s: System, c: nat, device: string, id: string, endpoint: string, polls: nat, t: System)
    ensures Next(s, DeviceAsks(c, device, id, endpoint, polls), t) ==>
              && id !in s.issued && t.sessions.Keys == s.sessions.Keys + {id} && t.sessions[id] == Session(device, endpoint, false)
              && (forall other <- s.sessions :: other != id ==> t.sessions[other] == s.sessions[other])
              && c in t.clients
              && t.clients[c] == (if polls == 0 then Failed(Timeout) else Waiting(device, id, endpoint, "WAITING_BRIDGE", polls))
    ensures Next(s, DeviceAsksAgain(c, device, id, polls), t) ==>
              && id in s.sessions && s.sessions[id].device == device && t.sessions == s.sessions && c in t.clients
              && var x := s.sessions[id];
                 t.clients[c] == if polls == 0 then Failed(Timeout)
                                 else if x.active then Returned(device, Plan(id, x.endpoint))
                                 else Waiting(device, id, x.endpoint, "WAITING_BRIDGE", polls)
  {
    hide ListsWaiting, Registry.FindDevice, Access.IsActive;
  }

  /** A monitor fetches exactly the sessions that wait, and its activation makes active, if it arrives, the session of its
      request and no other. */
  lemma MonitorMeans(s: System, m: nat, arrives: bool, t: System)
    ensures Next(s, MonitorFetches(m), t) ==>
              && t.sessions == s.sessions && m in t.monitors && t.monitors[m].Fetched?
              && forall r :: r in t.monitors[m].requests <==>
                   && r.session in s.sessions && !s.sessions[r.session].active
                   && r.device == s.sessions[r.session].device && r.endpoint == s.sessions[r.session].endpoint
    ensures Next(s, MonitorActivates(m, arrives), t) ==>
              && m in s.monitors && s.monitors[m].Activating? && t.sessions.Keys == s.sessions.Keys && t.clients == s.clients
              && forall id <- s.sessions ::
                   && (t.sessions[id].active <==> s.sessions[id].active || (arrives && id == s.monitors[m].request.session))
                   && t.sessions[id].device == s.sessions[id].device && t.sessions[id].endpoint == s.sessions[id].endpoint
  {
    hide Registry.FindDevice, Access.IsActive;
  }

  /** The first device with this id or name. */
  ghost predicate First(devices: seq<Registry.Device>, i: nat, identifier: string) {
    && i < |devices| && (devices[i].id == identifier || devices[i].name == identifier)
    && forall j :: 0 <= j < i ==> devices[j].id != identifier && devices[j].name != identifier
  }

  /** The Bridge can serve a request: `i` is the device that it finds. */
  ghost predicate Servable(devices: seq<Registry.Device>, i: nat, r: Request, today: int) {
    && r.session != "" && r.device != "" && r.endpoint != "" && First(devices, i, r.device)
    && devices[i].enabled && (devices[i].expiry.Never? || today <= devices[i].expiry.day) && devices[i].publicKey != ""
  }

  lemma FindsFirst(devices: seq<Registry.Device>, identifier: string)
    ensures var found := Registry.FindDevice(devices, identifier);
            (found.Some? ==> First(devices, found.value, identifier)) && forall i: nat :: First(devices, i, identifier) ==> found == Some(i)
  {
    if i: nat :| First(devices, i, identifier) {
      assert devices[i] in devices;
    }
  }

  /** The Bridge sets a peer for a request exactly if the request is complete, the first device with that id or name is
      enabled, not expired and has a key, and the command succeeds. */
  lemma SettingMeans(s: System, m: nat, today: int, succeeds: bool, t: System)
    requires Next(s, MonitorSets(m, today, succeeds), t)
    ensures var r := s.monitors[m].requests[0];
            && (forall i: nat :: succeeds && Servable(s.devices, i, r, today) ==>
                  t.settings == s.settings + [Setting(r, s.devices[i])] && t.monitors[m] == Activating(r, s.monitors[m].requests[1..]))
            && (!succeeds || !(exists i: nat :: Servable(s.devices, i, r, today)) ==>
                  t.settings == s.settings && t.monitors[m] == Fetched(s.monitors[m].requests[1..]))
    ensures t.sessions == s.sessions && t.clients == s.clients
  {
    hide ListsWaiting, Registry.FindDevice, First;
    var r := s.monitors[m].requests[0];
    FindsFirst(s.devices, r.device);
    if t.settings != s.settings {
      assert Servable(s.devices, Registry.FindDevice(s.devices, r.device).value, r, today);
    }
  }

  /** A setting of a run was made at some event for a device that was registered, enabled and not expired then. */
  ghost predicate MadeAt(states: seq<System>, events: seq<Event>, x: Setting, k: nat) {
    && k < |events| && k < |states| && events[k].MonitorSets? && events[k].succeeds && x.found in states[k].devices
    && x.found.enabled && (x.found.expiry.Never? || events[k].today <= x.found.expiry.day) && x.found.publicKey != ""
  }

  /** In every run. */
  lemma {:induction false} SettingsAreActive(states: seq<System>, events: seq<Event>, n: nat, x: Setting) returns (k: nat)
    requires Run(states, events) && n < |states| && x in states[n].settings
    ensures k < n && MadeAt(states, events, x, k)
  {
    if n > 0 {
      k := n - 1;
      hide Next;
      if x in states[k].settings {
        k := SettingsAreActive(states, events, k, x);
      } else {
        NextSettingIsActive(states[k], events[k], states[n], x);
      }
    }
  }

  lemma NextSettingIsActive(s: System, e: Event, t: System, x: Setting)
    requires Next(s, e, t) && x in t.settings && x !in s.settings
    ensures e.MonitorSets? && e.succeeds && x.found in s.devices && x.found.publicKey != ""
    ensures x.found.enabled && (x.found.expiry.Never? || e.today <= x.found.expiry.day)
  {
    hide ListsWaiting, Looked, StatusOf, RequestOf, Registry.FindDevice;
    if e.MonitorSets? {
      SettingMeans(s, e.monitor, e.today, e.succeeds, t);
    }
  }

  /** The device that is found for an id, if any, has that id. */
  ghost predicate FindsOwn(devices: seq<Registry.Device>, id: string) {
    var found := Registry.FindDevice(devices, id);
    found.Some? ==> devices[found.value].id == id
  }

  /** In particular when the id is registered and no device is named like the id of another. */
  lemma NamesAreNotIds(devices: seq<Registry.Device>, id: string)
    requires id in Registry.DeviceIds(devices)
    requires forall d <- devices, e <- devices :: d.name == e.id ==> d.id == e.id
    ensures FindsOwn(devices, id)
  {
  }

  /** As long as that holds, every setting for an id was made for the device with that id. */
  lemma {:induction false} SettingsAreOwn(states: seq<System>, events: seq<Event>, n: nat, id: string)
    requires Run(states, events) && n < |states|
    requires forall i :: 0 <= i < n ==> FindsOwn(states[i].devices, id)
    ensures forall x <- states[n].settings :: x.request.device == id ==> x.found.id == id
  {
    if n > 0 {
      hide Next, FindsOwn;
      SettingsAreOwn(states, events, n - 1, id);
      assert FindsOwn(states[n - 1].devices, id);
      NextSettingIsOwn(states[n - 1], events[n - 1], states[n], id);
    }
  }

  lemma NextSettingIsOwn(s: System, e: Event, t: System, id: string)
    requires Next(s, e, t) && FindsOwn(s.devices, id)
    requires forall x <- s.settings :: x.request.device == id ==> x.found.id == id
    ensures forall x <- t.settings :: x.request.device == id ==> x.found.id == id
  {
    hide ListsWaiting, Looked, StatusOf, RequestOf, Access.IsActive;
    if e.MonitorSets? {
      var r := s.monitors[e.monitor].requests[0];
      var found := Registry.FindDevice(s.devices, r.device);
      assert found.Some? ==> s.devices[found.value] in s.devices && Registry.Matches(s.devices[found.value], r.device);
    }
  }

  /** So when a client has its plan, the Bridge has before that successfully set the peer of that very device to the
      bridge endpoint of that very session, if no other device was ever found for its id. */
  lemma PlanComesAfterOwnSetting(states: seq<System>, events: seq<Event>, n: nat, c: nat)
    requires Run(states, events) && n < |states| && c in states[n].clients && states[n].clients[c].Returned?
    requires forall i :: 0 <= i < n ==> FindsOwn(states[i].devices, states[n].clients[c].device)
    ensures var r := states[n].clients[c];
            exists x <- states[n].settings ::
              && x.request == Request(r.plan.session, r.device, r.plan.bridgeEndpoint)
              && x.found.id == r.device && x.found.publicKey != ""
  {
    hide Run, FindsOwn;
    PlanComesAfterSetting(states, events, n, c);
    SettingsAreOwn(states, events, n, states[n].clients[c].device);
  }

  /** The device found for an id is the one with that id exactly if no earlier one has it as its name. */
  lemma FoundByItsOwnId(devices: seq<Registry.Device>, i: nat)
    requires i < |devices| && Registry.UniqueDevices(devices)
    ensures Registry.FindDevice(devices, devices[i].id) == Some(i) <==> forall j :: 0 <= j < i ==> devices[j].name != devices[i].id
  {
    assert Registry.Matches(devices[i], devices[i].id) && devices[i] in devices;
    var found := Registry.FindDevice(devices, devices[i].id);
    assert found.value <= i;
    if !forall j :: 0 <= j < i ==> devices[j].name != devices[i].id {
      var j :| 0 <= j < i && devices[j].name == devices[i].id;
      assert Registry.Matches(devices[j], devices[i].id);
    }
  }

  ghost predicate Reachable(s: System) {
    exists states, events :: Run(states, events) && states[|events|] == s
  }

  lemma StepReaches(s: System, e: Event, t: System)
    requires Reachable(s) && Next(s, e, t)
    ensures Reachable(t)
  {
    hide Next;
    var states, events :| Run(states, events) && states[|events|] == s;
    assert Run(states + [t], events + [e]);
  }

  lemma Asked(devices: seq<Registry.Device>, r: Request)
    ensures Reachable(System(map[r.session := Session(r.device, r.endpoint, false)],
                             map[0 := Waiting(r.device, r.session, r.endpoint, "WAITING_BRIDGE", 2)],
                             map[], devices, map[r.session := r], []))
  {
    assert Run([START], []);
    var s := START.(devices := devices);
    StepReaches(START, RegistryChanges(devices), s);
    var t := System(map[r.session := Session(r.device, r.endpoint, false)],
                    map[0 := Waiting(r.device, r.session, r.endpoint, "WAITING_BRIDGE", 2)], map[], devices, map[r.session := r], []);
    StepReaches(s, DeviceAsks(0, r.device, r.session, r.endpoint, 2), t);
  }

  lemma Fetches(s: System, r: Request)
    requires Reachable(s) && s.sessions == map[r.session := Session(r.device, r.endpoint, false)] && s.monitors == map[]
    ensures Reachable(s.(monitors := map[0 := Fetched([r])]))
  {
    hide Reachable;
    assert ListsWaiting([r], s.sessions);
    StepReaches(s, MonitorFetches(0), s.(monitors := map[0 := Fetched([r])]));
  }

  lemma Sets(s: System, i: nat, r: Request, today: int)
    requires Reachable(s) && s.monitors == map[0 := Fetched([r])] && Servable(s.devices, i, r, today)
    ensures Reachable(s.(monitors := map[0 := Activating(r, [])], settings := s.settings + [Setting(r, s.devices[i])]))
  {
    hide Reachable, Registry.FindDevice, First;
    FindsFirst(s.devices, r.device);
    assert [r][1..] == [];
    StepReaches(s, MonitorSets(0, today, true),
                s.(monitors := map[0 := Activating(r, [])], settings := s.settings + [Setting(r, s.devices[i])]));
  }

  lemma Activates(s: System, r: Request)
    requires Reachable(s) && s.sessions == map[r.session := Session(r.device, r.endpoint, false)]
    requires s.monitors == map[0 := Activating(r, [])]
    ensures Reachable(s.(monitors := map[0 := Fetched([])], sessions := map[r.session := Session(r.device, r.endpoint, true)]))
  {
    hide Reachable;
    StepReaches(s, MonitorActivates(0, true),
                s.(monitors := map[0 := Fetched([])], sessions := map[r.session := Session(r.device, r.endpoint, true)]));
  }

  /** A run has delivered the plan of a request after one setting, for the given device. */
  ghost predicate Delivered(s: System, r: Request, d: Registry.Device) {
    Reachable(s) && s.clients == map[0 := Returned(r.device, Plan(r.session, r.endpoint))] && s.settings == [Setting(r, d)]
  }

  /** The protocol does deliver: undisturbed, a servable device gets its plan after one poll. */
  lemma UndisturbedRunDelivers(devices: seq<Registry.Device>, i: nat, r: Request, today: int)
    requires Servable(devices, i, r, today)
    ensures exists s :: Delivered(s, r, devices[i]) && s.devices == devices
  {
    hide Reachable, Looked, Access.IsActive, Registry.FindDevice;
    Asked(devices, r);
    var s := System(map[r.session := Session(r.device, r.endpoint, false)],
                map[0 := Waiting(r.device, r.session, r.endpoint, "WAITING_BRIDGE", 2)], map[], devices, map[r.session := r], []);
    Fetches(s, r);
    s := s.(monitors := map[0 := Fetched([r])]);
    Sets(s, i, r, today);
    assert s.settings + [Setting(r, devices[i])] == [Setting(r, devices[i])];
    s := s.(monitors := map[0 := Activating(r, [])], settings := [Setting(r, devices[i])]);
    Activates(s, r);
    s := s.(monitors := map[0 := Fetched([])], sessions := map[r.session := Session(r.device, r.endpoint, true)]);
    Delivers(r.device, r);
    assert s.clients[0 := Returned(r.device, Plan(r.session, r.endpoint))] == map[0 := Returned(r.device, Plan(r.session, r.endpoint))];
    StepReaches(s, Polls(0), s.(clients := map[0 := Returned(r.device, Plan(r.session, r.endpoint))]));
    s := s.(clients := map[0 := Returned(r.device, Plan(r.session, r.endpoint))]);
    assert Delivered(s, r, devices[i]);
  }

  lemma Delivers(device: string, r: Request)
    ensures Looked(device, r.session, r.endpoint, "ACTIVE", 1) == Returned(device, Plan(r.session, r.endpoint))
  {
  }

  // ---------- The wrong device ----------

  /** Two devices that are added with their own names, the first of which is then renamed to the id of the second. */
  ghost predicate Confusable(rules: Registry.Rules, a: Registry.Device, b: Registry.Device) {
    && rules.name(a.name) && rules.name(b.name) && rules.name(b.id) && Registry.ValidInfo(rules, a.expiry, a.info) && Registry.ValidInfo(rules, b.expiry, b.info)
    && a.id != "" && b.id != "" && a.id != b.id && a.name != b.name && b.id != a.name && b.id != b.name
  }

  function Confusing(a: Registry.Device, b: Registry.Device): seq<Registry.Operation> {
    [Registry.AddingDevice(a), Registry.AddingDevice(b), Registry.RenamingDevice(a.id, b.id)]
  }

  lemma ConfusingRun(rules: Registry.Rules, a: Registry.Device, b: Registry.Device)
    requires Confusable(rules, a, b)
    ensures Registry.After(rules, Confusing(a, b)).devices == [a.(name := b.id, host := 2), b.(host := 3)]
  {
    hide Registry.After, Registry.AddDevice, Registry.RenameDevice;
    FirstAdded(rules, a);
    SecondAdded(rules, a.(host := 2), b);
    FirstRenamed(rules, a.(host := 2), b.(host := 3));
    AfterNone(rules);
    AfterMore(rules, [], Registry.AddingDevice(a));
    AfterMore(rules, [Registry.AddingDevice(a)], Registry.AddingDevice(b));
    AfterMore(rules, [Registry.AddingDevice(a), Registry.AddingDevice(b)], Registry.RenamingDevice(a.id, b.id));
    assert [] + [Registry.AddingDevice(a)] == [Registry.AddingDevice(a)];
    assert [Registry.AddingDevice(a)] + [Registry.AddingDevice(b)] == [Registry.AddingDevice(a), Registry.AddingDevice(b)];
    assert [Registry.AddingDevice(a), Registry.AddingDevice(b)] + [Registry.RenamingDevice(a.id, b.id)] == Confusing(a, b);
  }

  lemma AfterNone(rules: Registry.Rules)
    ensures Registry.After(rules, []) == Registry.EMPTY
  {
  }

  lemma AfterMore(rules: Registry.Rules, ops: seq<Registry.Operation>, op: Registry.Operation)
    ensures var s := Registry.After(rules, ops);
            Registry.After(rules, ops + [op]) == if Registry.Apply(rules, s, op).Ok? then Registry.Apply(rules, s, op).value else s
  {
    hide Registry.Apply;
    assert (ops + [op])[..|ops|] == ops;
  }

  lemma FirstAdded(rules: Registry.Rules, a: Registry.Device)
    requires rules.name(a.name) && Registry.ValidInfo(rules, a.expiry, a.info)
    ensures Registry.AddDevice(rules, Registry.EMPTY, a) == Ok(Registry.State([a.(host := 2)], [], []))
  {
    assert Registry.UsedHosts([]) == {} && Registry.DeviceNames([]) == {} && Registry.DeviceIds([]) == {};
    assert Registry.NextHost({}, 2) == Some(2);
    assert Registry.EMPTY.devices + [a.(host := 2)] == [a.(host := 2)];
  }

  lemma SecondAdded(rules: Registry.Rules, a: Registry.Device, b: Registry.Device)
    requires rules.name(b.name) && Registry.ValidInfo(rules, b.expiry, b.info) && a.host == 2 && a.name != b.name && a.id != b.id
    ensures Registry.AddDevice(rules, Registry.State([a], [], []), b) == Ok(Registry.State([a, b.(host := 3)], [], []))
  {
    assert Registry.UsedHosts([a]) == {2} && Registry.DeviceNames([a]) == {a.name} && Registry.DeviceIds([a]) == {a.id};
    assert Registry.NextHost({2}, 3) == Some(3);
    assert [a] + [b.(host := 3)] == [a, b.(host := 3)];
  }

  lemma FirstRenamed(rules: Registry.Rules, a: Registry.Device, b: Registry.Device)
    requires rules.name(b.id) && a.name != b.id && b.name != b.id && a.id != b.id
    ensures Registry.RenameDevice(rules, Registry.State([a, b], [], []), a.id, b.id)
            == Ok(Registry.State([a.(name := b.id), b], [], []))
  {
    assert [a, b][..1] == [a] && [a][..0] == [];
    assert Registry.FindDevice([a], a.id) == Some(0);
    assert Registry.FindDevice([a, b], a.id) == Some(0);
    assert [a, b][0 := a.(name := b.id)] == [a.(name := b.id), b];
  }

  /** The condition can fail: renaming compares names only, and ids are acceptable names. In registries that the
      operations reach, a run delivers the plan of one device although the only setting was made for another. */
  lemma WrongDeviceIsSet(rules: Registry.Rules, a: Registry.Device, b: Registry.Device, r: Request, today: int)
    requires Confusable(rules, a, b) && a.enabled && (a.expiry.Never? || today <= a.expiry.day) && a.publicKey != ""
    requires r.device == b.id && r.session != "" && r.endpoint != ""
    ensures exists s :: Delivered(s, r, a.(name := b.id, host := 2)) && s.settings[0].found.id != r.device
              && s.devices == Registry.After(rules, Confusing(a, b)).devices
  {
    hide Reachable, Registry.After;
    ConfusingRun(rules, a, b);
    var devices := [a.(name := b.id, host := 2), b.(host := 3)];
    assert devices[..1] == [devices[0]] && devices[..1][..0] == [];
    assert Registry.FindDevice(devices[..1], b.id) == Some(0);
    assert Registry.FindDevice(devices, b.id) == Some(0);
    UndisturbedRunDelivers(devices, 0, r, today);
  }
}
