/**
 The Android tunnel controller (AndroidWireGuard.kt: `AndroidWireGuardController`). Callers, callbacks and the
 single executor thread interleave at the granularity of lock sections and of the steps of a task. Permission,
 the network and the backend answer from outside; the backend never comes up by itself.
 */
module Tunnel {
  import opened Wrappers
  import opened ReconnectPolicy

  /** A scheduled `connectAttempt` that has not started. */
  datatype Attempt = Attempt(force: bool, delay: int)

  /** What the executor thread is doing. */
  datatype Running =
    | Idle
    | Down
    | Entered(force: bool)
    | Wanted(force: bool)
    | Cycling
    | Raising
    | Caught
    | Rescheduling

  /** `connects` are the attempts that have neither started nor been cancelled, `stops` the stops between their
      lock section and their task, `downs` the tasks of stops that have not started. `started` logs the delays of
      the attempts that were started. */
  datatype Controller = Controller(
    desired: bool,
    configured: bool,
    retryAttempt: int,
    retryFuture: Option<nat>,
    connects: map<nat, Attempt>,
    nextId: nat,
    stops: nat,
    downs: nat,
    running: Running,
    up: bool,
    started: seq<int>)

  const INITIAL := Controller(false, false, 0, None, map[], 0, 0, 0, Idle, false, [])

  datatype Event =
    | Start
    | Restore(desired: bool)
    | Stop
    | StopTask
    | Forget
    | Schedule(force: bool, immediate: bool)
    | BackendWentUp
    | BackendDropped
    | TakeConnect(id: nat)
    | TakeDown
    | BringDown
    | CheckDesired
    | CheckPermission(granted: bool)
    | Cycle(fails: bool)
    | Raise(fails: bool)
    | Recover
    | Reschedule

  /** The lock section of `scheduleReconnect`. */
  function Scheduled(p: Policy, c: Controller, force: bool, immediate: bool): Controller {
    if !c.desired || !c.configured then c
    else
      var kept := if c.retryFuture.Some? then c.connects - {c.retryFuture.value} else c.connects;
      var attempt := if c.retryAttempt + 1 >= 1 then c.retryAttempt + 1 else 1;
      c.(connects := kept[c.nextId := Attempt(force, if immediate then 0 else Delay(p, attempt))],
         retryFuture := Some(c.nextId), nextId := c.nextId + 1)
  }

  /** One step; a step that is not possible does nothing. */
  function Happened(p: Policy, c: Controller, e: Event): Controller {
    match e
    case Start => c.(desired := true, configured := true, retryAttempt := 0)
    case Restore(desired) => c.(desired := desired, configured := true, retryAttempt := 0)
    case Stop =>
      c.(desired := false, retryAttempt := 0, retryFuture := None, stops := c.stops + 1,
         connects := if c.retryFuture.Some? then c.connects - {c.retryFuture.value} else c.connects)
    case StopTask => if c.stops > 0 then c.(stops := c.stops - 1, downs := c.downs + 1) else c
    case Forget => c.(configured := false)
    case Schedule(force, immediate) => Scheduled(p, c, force, immediate)
    case BackendWentUp => c.(retryAttempt := 0)
    case BackendDropped => c.(up := false)
    case TakeConnect(id) =>
      if c.running.Idle? && id in c.connects then
        c.(connects := c.connects - {id}, running := Entered(c.connects[id].force), started := c.started + [c.connects[id].delay])
      else c
    case TakeDown => if c.running.Idle? && c.downs > 0 then c.(downs := c.downs - 1, running := Down) else c
    case BringDown => if c.running.Down? then c.(up := false, running := Idle) else c
    case CheckDesired =>
      if c.running.Entered? then c.(running := if c.configured && c.desired then Wanted(c.running.force) else Idle) else c
    case CheckPermission(granted) =>
      if c.running.Wanted? then
        c.(running := if !granted then Idle else if c.running.force && c.up then Cycling else Raising)
      else c
    case Cycle(fails) =>
      if c.running.Cycling? then (if fails then c.(running := Caught) else c.(up := false, running := Raising)) else c
    case Raise(fails) =>
      if c.running.Raising? then (if fails then c.(running := Caught) else c.(up := true, retryAttempt := 0, running := Idle)) else c
    case Recover =>
      if c.running.Caught? then
        var n := c.retryAttempt + 1;
        c.(retryAttempt := n, running := if !c.desired || n >= p.maxAttempts then Idle else Rescheduling)
      else c
    case Reschedule => if c.running.Rescheduling? then Scheduled(p, c, false, false).(running := Idle) else c
  }

  function After(p: Policy, c: Controller, events: seq<Event>): Controller {
    if events == [] then c else Happened(p, After(p, c, events[..|events| - 1]), events[|events| - 1])
  }

  // ---------- What moves each part ----------

  /** What the caller wants changes in lock sections only; an attempt, its success or its failure never changes it. */
  lemma WishMeans(p: Policy, c: Controller, e: Event)
    ensures var t := Happened(p, c, e);
            && (t.desired <==> e.Start? || (e.Restore? && e.desired) || (c.desired && !e.Restore? && !e.Stop?))
            && (t.configured <==> e.Start? || e.Restore? || (c.configured && !e.Forget?))
  {
    hide Scheduled;
    ScheduledMeans(p, c, e.Schedule? && e.force, e.Schedule? && e.immediate);
  }

  /** The backend comes up by a raise that succeeds, and goes down when it drops, when a stop brings it down, or in a
      cycle that succeeds. */
  lemma BackendMeans(p: Policy, c: Controller, e: Event)
    ensures Happened(p, c, e).up
            <==> ((e == Raise(false) && c.running.Raising?)
                  || (c.up && !e.BackendDropped? && !(e.BringDown? && c.running.Down?) && !(e == Cycle(false) && c.running.Cycling?)))
  {
    hide Scheduled;
    ScheduledMeans(p, c, e.Schedule? && e.force, e.Schedule? && e.immediate);
  }

  /** The failures are counted by recoveries, and forgotten by whatever the caller does and by every success. */
  lemma CountMeans(p: Policy, c: Controller, e: Event)
    ensures Happened(p, c, e).retryAttempt
            == (if e.Start? || e.Restore? || e.Stop? || e.BackendWentUp? || (e == Raise(false) && c.running.Raising?) then 0
                else if e.Recover? && c.running.Caught? then c.retryAttempt + 1 else c.retryAttempt)
  {
    hide Scheduled;
    ScheduledMeans(p, c, e.Schedule? && e.force, e.Schedule? && e.immediate);
  }

  /** Scheduling does something only for a wanted tunnel with a configuration: the pending attempt gives way to a new
      one, at once or after the delay for the next failure. */
  lemma ScheduledMeans(p: Policy, c: Controller, force: bool, immediate: bool)
    ensures var t := Scheduled(p, c, force, immediate);
            && (!c.desired || !c.configured ==> t == c)
            && t.desired == c.desired && t.configured == c.configured && t.retryAttempt == c.retryAttempt && t.stops == c.stops
            && t.downs == c.downs && t.running == c.running && t.up == c.up && t.started == c.started
            && (c.desired && c.configured ==>
                  && t.retryFuture == Some(c.nextId) && t.nextId == c.nextId + 1 && c.nextId in t.connects
                  && t.connects[c.nextId].force == force
                  && (c.retryAttempt >= 0 ==> t.connects[c.nextId].delay == if immediate then 0 else Delay(p, c.retryAttempt + 1))
                  && forall id :: id != c.nextId ==>
                       (id in t.connects <==> id in c.connects && c.retryFuture != Some(id)))
  {
    hide Delay;
  }

  /** The executor takes a task when it is idle. Without the wish, the configuration or the permission an attempt ends, and
      after a failure it ends if the tunnel is no longer wanted or the attempts are used up. */
  lemma ExecutorMeans(p: Policy, c: Controller, e: Event)
    ensures var r, t := c.running, Happened(p, c, e).running;
            && (t.Idle? <==>
                  if r.Idle? then !(e.TakeConnect? && e.id in c.connects) && !(e.TakeDown? && c.downs > 0)
                  else || (r.Down? && e.BringDown?) || (r.Entered? && e.CheckDesired? && !(c.desired && c.configured))
                       || (r.Wanted? && e == CheckPermission(false)) || (r.Raising? && e == Raise(false))
                       || (r.Caught? && e.Recover? && (!c.desired || c.retryAttempt + 1 >= p.maxAttempts))
                       || (r.Rescheduling? && e.Reschedule?))
            && (t.Down? <==> (r.Idle? && e.TakeDown? && c.downs > 0) || (r.Down? && !e.BringDown?))
            && (t.Rescheduling? <==> || (r.Caught? && e.Recover? && c.desired && c.retryAttempt + 1 < p.maxAttempts)
                                     || (r.Rescheduling? && !e.Reschedule?))
  {
    hide Scheduled;
    ScheduledMeans(p, c, e.Schedule? && e.force, e.Schedule? && e.immediate);
    ScheduledMeans(p, c, false, false);
  }

  /** A started attempt goes through its checks in order; a forced one takes a backend that is up through a cycle. */
  lemma AttemptMeans(p: Policy, c: Controller, e: Event)
    ensures var r, t := c.running, Happened(p, c, e).running;
            && (t.Entered? <==> (r.Idle? && e.TakeConnect? && e.id in c.connects) || (r.Entered? && !e.CheckDesired?))
            && (t.Entered? ==> t.force == if r.Idle? then c.connects[e.id].force else r.force)
            && (t.Wanted? <==> (r.Entered? && e.CheckDesired? && c.desired && c.configured) || (r.Wanted? && !e.CheckPermission?))
            && (t.Wanted? ==> t.force == r.force)
            && (t.Cycling? <==> (r.Wanted? && e == CheckPermission(true) && r.force && c.up) || (r.Cycling? && !e.Cycle?))
            && (t.Raising? <==> || (r.Wanted? && e == CheckPermission(true) && !(r.force && c.up))
                                || (r.Cycling? && e == Cycle(false)) || (r.Raising? && !e.Raise?))
            && (t.Caught? <==> || (r.Cycling? && e == Cycle(true)) || (r.Raising? && e == Raise(true)) || (r.Caught? && !e.Recover?))
  {
    hide Scheduled;
    ScheduledMeans(p, c, e.Schedule? && e.force, e.Schedule? && e.immediate);
    ScheduledMeans(p, c, false, false);
  }

  /** What waits for the executor: a stop takes the pending attempt away and later brings a task, and taking something up
      takes it off. */
  lemma TasksMean(p: Policy, c: Controller, e: Event)
    requires !e.Schedule? && !e.Reschedule?
    ensures var t := Happened(p, c, e);
            && (forall id :: id in t.connects <==>
                  (id in c.connects && !(e.Stop? && c.retryFuture == Some(id)) && !(e == TakeConnect(id) && c.running.Idle?)))
            && t.started == c.started + (if e.TakeConnect? && c.running.Idle? && e.id in c.connects then [c.connects[e.id].delay] else [])
            && t.retryFuture == (if e.Stop? then None else c.retryFuture)
            && t.stops + t.downs == c.stops + c.downs + (if e.Stop? then 1 else 0)
                                    - (if e.TakeDown? && c.running.Idle? && c.downs > 0 then 1 else 0)
            && t.stops == c.stops + (if e.Stop? then 1 else 0) - (if e.StopTask? && c.stops > 0 then 1 else 0)
  {
    hide Scheduled;
  }

  // ---------- No attempt without its checks ----------

  predicate Working(r: Running) {
    r.Wanted? || r.Cycling? || r.Raising?
  }

  /** The attempt in hand found the tunnel wanted and configured at event `i`, and has been in hand since. */
  ghost predicate WantedAt(p: Policy, events: seq<Event>, i: nat) {
    && i < |events| && events[i] == CheckDesired
    && After(p, INITIAL, events[..i]).desired && After(p, INITIAL, events[..i]).configured
    && forall k :: i < k <= |events| ==> Working(After(p, INITIAL, events[..k]).running)
  }

  /** It was permitted at a later event. */
  ghost predicate PermittedAfter(events: seq<Event>, i: nat) {
    exists j :: i < j < |events| && events[j] == CheckPermission(true)
  }

  lemma WantedLater(p: Policy, init: seq<Event>, e: Event, i: nat)
    requires WantedAt(p, init, i) && Working(After(p, INITIAL, init + [e]).running)
    ensures WantedAt(p, init + [e], i)
  {
    hide After, Working;
    var events := init + [e];
    assert events[..i] == init[..i];
    forall k | i < k <= |events| ensures Working(After(p, INITIAL, events[..k]).running) {
      if k <= |init| {
        assert events[..k] == init[..k];
      } else {
        assert events[..k] == events;
      }
    }
  }

  lemma PermittedLater(init: seq<Event>, e: Event, i: nat)
    requires i < |init| && (PermittedAfter(init, i) || e == CheckPermission(true))
    ensures PermittedAfter(init + [e], i)
  {
    var events := init + [e];
    if j :| i < j < |init| && init[j] == CheckPermission(true) {
      assert events[j] == CheckPermission(true);
    } else {
      assert events[|init|] == e;
    }
  }

  lemma WantedNow(p: Policy, init: seq<Event>)
    requires After(p, INITIAL, init).desired && After(p, INITIAL, init).configured
    requires Working(After(p, INITIAL, init + [CheckDesired]).running)
    ensures WantedAt(p, init + [CheckDesired], |init|)
  {
    hide After, Working;
    var events := init + [CheckDesired];
    assert events[..|init|] == init && events[..|events|] == events;
  }

  /** In every run, the backend is only ever cycled or raised by an attempt that, since it started, found the tunnel wanted
      and configured and after that the permission granted. */
  lemma {:induction false} RaisesAreChecked(p: Policy, events: seq<Event>) returns (i: nat)
    ensures var r := After(p, INITIAL, events).running;
            && (Working(r) ==> WantedAt(p, events, i))
            && (r.Cycling? || r.Raising? ==> PermittedAfter(events, i))
  {
    i := 0;
    if events != [] {
      var init, e := events[..|events| - 1], events[|events| - 1];
      assert events == init + [e];
      i := RaisesAreChecked(p, init);
      var c := After(p, INITIAL, init);
      AttemptMeans(p, c, e);
      hide Happened, WantedAt, PermittedAfter;
      if Working(After(p, INITIAL, events).running) {
        if c.running.Entered? {
          i := |init|;
          WantedNow(p, init);
        } else {
          WantedLater(p, init, e, i);
          if !After(p, INITIAL, events).running.Wanted? {
            IsPlace(p, init, i);
            PermittedLater(init, e, i);
          }
        }
      }
    }
  }

  lemma IsPlace(p: Policy, events: seq<Event>, i: nat)
    requires WantedAt(p, events, i)
    ensures i < |events|
  {
  }

  // ---------- At most one pending attempt ----------

  /** The only attempt that can still start is the one that `retryFuture` refers to. */
  ghost predicate OnlyRetry(c: Controller) {
    && (forall id <- c.connects :: c.retryFuture == Some(id))
    && (forall id <- c.connects :: id < c.nextId)
  }

  lemma StepKeepsOnlyRetry(p: Policy, c: Controller, e: Event)
    requires OnlyRetry(c)
    ensures OnlyRetry(Happened(p, c, e))
  {
  }

  lemma {:induction false} AtMostOneAttempt(p: Policy, events: seq<Event>)
    ensures OnlyRetry(After(p, INITIAL, events)) && |After(p, INITIAL, events).connects| <= 1
  {
    hide Happened;
    if events != [] {
      AtMostOneAttempt(p, events[..|events| - 1]);
      StepKeepsOnlyRetry(p, After(p, INITIAL, events[..|events| - 1]), events[|events| - 1]);
    }
    OneKey(After(p, INITIAL, events));
  }

  lemma OneKey(c: Controller)
    requires OnlyRetry(c)
    ensures |c.connects| <= 1
  {
    if id :| id in c.connects {
      assert c.connects.Keys == {id};
      assert |c.connects| == |c.connects.Keys|;
    }
  }

  // ---------- Stopping ----------

  predicate Starts(e: Event) {
    e.Start? || (e.Restore? && e.desired)
  }

  predicate Connecting(r: Running) {
    !r.Idle? && !r.Down?
  }

  predicate Drained(c: Controller) {
    c.stops == 0 && c.downs == 0 && c.running.Idle?
  }

  /** No attempt can start any more, and the backend is down unless a stop still has to bring it down. */
  ghost predicate Stopped(c: Controller) {
    && !c.desired && c.connects == map[]
    && (c.stops + c.downs == 0 && !c.running.Down? ==> !c.up && !Connecting(c.running))
  }

  lemma StopBegins(p: Policy, c: Controller)
    requires OnlyRetry(c)
    ensures Stopped(Happened(p, c, Stop))
  {
    var t := Happened(p, c, Stop);
    assert forall id :: id !in t.connects;
    assert t.connects.Keys == {};
  }

  lemma StepKeepsStopped(p: Policy, c: Controller, e: Event)
    requires Stopped(c) && !Starts(e)
    ensures Stopped(Happened(p, c, e))
  {
  }

  lemma {:induction false} RunKeepsStopped(p: Policy, c: Controller, events: seq<Event>)
    requires Stopped(c) && forall e <- events :: !Starts(e)
    ensures Stopped(After(p, c, events))
  {
    hide Happened, Stopped;
    if events != [] {
      var init, e := events[..|events| - 1], events[|events| - 1];
      assert e in events && forall x <- init :: x in events;
      RunKeepsStopped(p, c, init);
      StepKeepsStopped(p, After(p, c, init), e);
    }
  }

  /** Whatever happened before a stop, and whatever network events, callbacks and further stops follow it: as long
      as nothing starts the tunnel again, no attempt is pending and, once the executor is drained, the backend is down. */
  lemma StopHolds(p: Policy, before: seq<Event>, later: seq<Event>)
    requires forall e <- later :: !Starts(e)
    ensures var c := After(p, Happened(p, After(p, INITIAL, before), Stop), later);
            c.connects == map[] && (Drained(c) ==> !c.up)
  {
    hide After, Happened;
    AtMostOneAttempt(p, before);
    StopBegins(p, After(p, INITIAL, before));
    RunKeepsStopped(p, Happened(p, After(p, INITIAL, before), Stop), later);
  }

  // ---------- Giving up ----------

  /** The executor between two attempts, `n` of which have failed, with the next one pending. */
  ghost predicate Between(c: Controller, n: nat, force: bool, delay: int) {
    && c.desired && c.configured && c.retryAttempt == n && c.running.Idle? && c.downs == 0
    && c.connects.Keys == {c.nextId - 1} && c.nextId > 0 && c.retryFuture == Some(c.nextId - 1)
    && c.connects[c.nextId - 1] == Attempt(force, delay)
  }

  /** What the executor does by itself when permission is granted and the backend always refuses. */
  ghost function Alone(p: Policy, c: Controller): Controller {
    match c.running
    case Idle => if c.nextId > 0 && c.nextId - 1 in c.connects then Happened(p, c, TakeConnect(c.nextId - 1)) else c
    case Entered(_) => Happened(p, c, CheckDesired)
    case Wanted(_) => Happened(p, c, CheckPermission(true))
    case Cycling => Happened(p, c, Cycle(false))
    case Raising => Happened(p, c, Raise(true))
    case Caught => Happened(p, c, Recover)
    case Rescheduling => Happened(p, c, Reschedule)
    case Down => Happened(p, c, BringDown)
  }

  ghost function Steps(p: Policy, c: Controller, n: nat): Controller
    decreases n
  {
    if n == 0 then c else Steps(p, Alone(p, c), n - 1)
  }

  lemma {:induction false} StepsCompose(p: Policy, c: Controller, m: nat, n: nat)
    ensures Steps(p, Steps(p, c, m), n) == Steps(p, c, m + n)
    decreases m
  {
    hide Alone;
    if m > 0 {
      StepsCompose(p, Alone(p, c), m - 1, n);
    }
  }

  lemma OneMore(p: Policy, c: Controller, k: nat)
    ensures Steps(p, c, k + 1) == Alone(p, Steps(p, c, k))
  {
    hide Alone;
    StepsCompose(p, c, k, 1);
    assert Steps(p, Alone(p, Steps(p, c, k)), 0) == Alone(p, Steps(p, c, k));
  }

  /** An attempt has started and the backend is about to be asked. */
  ghost predicate Asking(c: Controller, n: nat) {
    c.running.Raising? && c.desired && c.configured && c.retryAttempt == n && c.downs == 0 && c.connects == map[]
  }

  lemma TakesPending(p: Policy, c: Controller, n: nat, force: bool, delay: int)
    requires Between(c, n, force, delay)
    ensures Alone(p, c) == c.(connects := map[], running := Entered(force), started := c.started + [delay])
  {
    hide Scheduled;
    var rest := c.connects - {c.nextId - 1};
    assert rest.Keys == {};
    assert rest == map[];
  }

  lemma ChecksDesired(p: Policy, c: Controller)
    requires c.running.Entered? && c.configured && c.desired
    ensures Alone(p, c) == c.(running := Wanted(c.running.force))
  {
    hide Scheduled;
  }

  lemma ChecksPermission(p: Policy, c: Controller)
    requires c.running.Wanted?
    ensures Alone(p, c) == c.(running := if c.running.force && c.up then Cycling else Raising)
  {
    hide Scheduled;
  }

  lemma Cycles(p: Policy, c: Controller)
    requires c.running.Cycling?
    ensures Alone(p, c) == c.(up := false, running := Raising)
  {
    hide Scheduled;
  }

  lemma AttemptAsks(p: Policy, c: Controller, n: nat, force: bool, delay: int) returns (k: nat)
    requires Between(c, n, force, delay)
    ensures var t := Steps(p, c, k); Asking(t, n) && t.started == c.started + [delay]
  {
    hide Delay, Steps, Alone;
    StepsNone(p, c);
    OneMore(p, c, 0);
    OneMore(p, c, 1);
    OneMore(p, c, 2);
    OneMore(p, c, 3);
    TakesPending(p, c, n, force, delay);
    var c1 := Alone(p, c);
    ChecksDesired(p, c1);
    var c2 := Alone(p, c1);
    ChecksPermission(p, c2);
    var c3 := Alone(p, c2);
    if c3.running.Cycling? {
      Cycles(p, c3);
      k := 4;
    } else {
      k := 3;
    }
  }

  lemma StepsNone(p: Policy, c: Controller)
    ensures Steps(p, c, 0) == c
  {
  }

  lemma IsRefused(p: Policy, c: Controller)
    requires c.running.Raising?
    ensures Alone(p, c) == c.(running := Caught)
  {
    hide Scheduled;
  }

  lemma Recovers(p: Policy, c: Controller)
    requires c.running.Caught? && c.desired
    ensures Alone(p, c) == c.(retryAttempt := c.retryAttempt + 1,
                              running := if c.retryAttempt + 1 >= p.maxAttempts then Idle else Rescheduling)
  {
    hide Scheduled;
  }

  lemma Reschedules(p: Policy, c: Controller, n: nat)
    requires c.running.Rescheduling? && c.desired && c.configured && c.retryAttempt == n && c.downs == 0 && c.connects == map[]
    ensures Between(Alone(p, c), n, false, Delay(p, n + 1)) && Alone(p, c).started == c.started
  {
    hide Delay;
    assert Alone(p, c).connects == map[][c.nextId := Attempt(false, Delay(p, n + 1))];
  }

  lemma RefusalRetries(p: Policy, c: Controller, n: nat) returns (k: nat)
    requires Asking(c, n) && n < p.maxAttempts
    ensures var t := Steps(p, c, k);
            && t.started == c.started
            && if n + 1 < p.maxAttempts then Between(t, n + 1, false, Delay(p, n + 2))
               else t.running.Idle? && t.connects == map[] && t.retryAttempt == n + 1
  {
    hide Delay, Steps, Alone, Between;
    StepsNone(p, c);
    OneMore(p, c, 0);
    OneMore(p, c, 1);
    OneMore(p, c, 2);
    IsRefused(p, c);
    Recovers(p, Alone(p, c));
    var c2 := Alone(p, Alone(p, c));
    if n + 1 < p.maxAttempts {
      Reschedules(p, c2, n + 1);
      k := 3;
    } else {
      k := 2;
    }
  }

  /** The delays of attempts `n + 1` to `last`, the first of which is given. */
  ghost function Delays(p: Policy, n: nat, last: nat): seq<int>
    requires n <= last
  {
    if n == last then [] else Delays(p, n, last - 1) + [Delay(p, last)]
  }

  lemma {:induction false} GivesUp(p: Policy, c: Controller, n: nat, force: bool, delay: int) returns (k: nat)
    requires Between(c, n, force, delay) && n < p.maxAttempts
    ensures var t := Steps(p, c, k);
            && t.started == c.started + [delay] + Delays(p, n + 1, p.maxAttempts)
            && t.running.Idle? && t.connects == map[] && t.retryAttempt == p.maxAttempts
    decreases p.maxAttempts - n
  {
    hide Between, Asking, Steps, Alone, Delay;
    var j := AttemptAsks(p, c, n, force, delay);
    var i := RefusalRetries(p, Steps(p, c, j), n);
    StepsCompose(p, c, j, i);
    k := j + i;
    var t := Steps(p, c, k);
    if n + 1 < p.maxAttempts {
      var more := GivesUp(p, t, n + 1, false, Delay(p, n + 2));
      StepsCompose(p, c, k, more);
      DelaysFirst(p, n + 1, p.maxAttempts);
      k := k + more;
    }
  }

  lemma {:induction false} DelaysFirst(p: Policy, n: nat, last: nat)
    requires n < last
    ensures Delays(p, n, last) == [Delay(p, n + 1)] + Delays(p, n + 1, last)
  {
    hide Delay;
    if n + 1 < last {
      DelaysFirst(p, n, last - 1);
    }
  }

  /** From a fresh start, if every attempt fails and nothing else happens, exactly `maxAttempts` attempts are made:
      at once, then after the delays for attempts 2 to `maxAttempts`. */
  lemma FreshStartGivesUp(p: Policy, c: Controller, force: bool) returns (k: nat)
    requires OnlyRetry(c) && c.running.Idle? && c.downs == 0 && p.maxAttempts >= 1
    ensures var t := Steps(p, Happened(p, Happened(p, c, Start), Schedule(force, true)), k);
            && t.started == c.started + [0] + Delays(p, 1, p.maxAttempts)
            && |t.started| == |c.started| + p.maxAttempts
            && t.running.Idle? && t.connects == map[]
  {
    hide Steps, Delay;
    var s := Happened(p, Happened(p, c, Start), Schedule(force, true));
    assert Between(s, 0, force, 0);
    k := GivesUp(p, s, 0, force, 0);
    DelaysLength(p, 1, p.maxAttempts);
  }

  lemma {:induction false} DelaysLength(p: Policy, n: nat, last: nat)
    requires n <= last
    ensures |Delays(p, n, last)| == last - n
  {
    if n < last {
      DelaysLength(p, n, last - 1);
    }
  }

  /** Those delays are the exponential backoff: twice the initial delay after the first failure, up to the maximum. */
  lemma {:induction false} DelaysAreBackoffs(p: Policy, last: nat, i: nat)
    requires ValidPolicy(p) && 2 * p.maxDelay <= LONG_MAX && 1 <= last && i + 1 < last
    ensures |Delays(p, 1, last)| == last - 1
    ensures Delays(p, 1, last)[i] == Backoff(p, if i < 30 then i + 1 else 30)
  {
    hide Backoff, Delay;
    DelaysLength(p, 1, last);
    if i + 2 == last {
      DelayIsBackoff(p, last);
    } else {
      DelaysAreBackoffs(p, last - 1, i);
    }
  }

  /** A success starts the count anew: when the backend drops later, again `maxAttempts` attempts are made, the
      first after the delay for attempt 1. */
  lemma SuccessStartsOver(p: Policy, c: Controller, n: nat) returns (k: nat)
    requires Asking(c, n) && OnlyRetry(c) && p.maxAttempts >= 1
    ensures var up := Happened(p, c, Raise(false));
            var t := Steps(p, Happened(p, Happened(p, up, BackendDropped), Schedule(false, false)), k);
            && up.up && up.running.Idle?
            && t.started == c.started + [Delay(p, 1)] + Delays(p, 1, p.maxAttempts)
            && t.running.Idle? && t.connects == map[]
  {
    hide Steps, Delay;
    var s := Happened(p, Happened(p, Happened(p, c, Raise(false)), BackendDropped), Schedule(false, false));
    assert Between(s, 0, false, Delay(p, 1));
    k := GivesUp(p, s, 0, false, Delay(p, 1));
  }
}
