/**
 Restart limiting of self_healing.py (`heal_resource`, `_run_self_heal_locked`), with runs that may die
 anywhere. A run reads the clock once, at its start, and records that epoch; its restarts happen later, each at
 its own instant. A lock keeps runs apart.
 */
module SelfHealing {
  import opened SlidingWindow

  const RESTART_LIMIT: nat := 3
  const RESTART_WINDOW := Window(600.0, false)

  type Attempts = map<string, seq<real>>

  datatype Resource = Resource(name: string, enabled: bool, selfHeal: bool, unit: string)

  datatype Health = Online | Offline | Timeout | OtherState

  /** Where the process dies, if it does: saving is atomic, so it dies before or after it. */
  datatype Crash = Never | BeforeSave | AfterSave | AfterRestart

  /** What the outside world answers while one resource is handled, and when a restart of it would happen. */
  datatype World = World(health: Health, unitLoaded: bool, restarts: bool, recovers: bool, crash: Crash, at: real)

  datatype Outcome =
    | Skipped
    | ConfigError
    | NoAction
    | RateLimited(retryAfter: int)
    | UnitNotLoaded
    | WouldRestart
    | Died
    | RestartFailed
    | Recovered
    | StillUnhealthy

  function Stored(state: Attempts, name: string): seq<real> {
    if name in state then state[name] else []
  }

  // ---------- Pruning ----------

  function Insert(t: real, times: seq<real>): seq<real> {
    if times == [] then [t]
    else if t >= times[|times| - 1] then times + [t]
    else Insert(t, times[..|times| - 1]) + [times[|times| - 1]]
  }

  /** The values from the last ten minutes, and up to a minute ahead, sorted. */
  function PruneAttempts(values: seq<real>, now: real): seq<real> {
    if values == [] then []
    else
      var last := |values| - 1;
      var rest := PruneAttempts(values[..last], now);
      if now - 600.0 < values[last] <= now + 60.0 then Insert(values[last], rest) else rest
  }

  lemma {:induction false} InsertMembers(t: real, times: seq<real>)
    ensures forall x :: x in Insert(t, times) <==> x == t || x in times
  {
    if times != [] {
      InsertMembers(t, times[..|times| - 1]);
      assert times == times[..|times| - 1] + [times[|times| - 1]];
    }
  }

  lemma {:induction false} InsertSorted(t: real, times: seq<real>)
    requires Sorted(times)
    ensures Sorted(Insert(t, times))
  {
    if times != [] && t < times[|times| - 1] {
      var init, last := times[..|times| - 1], times[|times| - 1];
      InsertSorted(t, init);
      InsertMembers(t, init);
      var rest := Insert(t, init);
      assert Insert(t, times) == rest + [last];
      hide Insert;
      forall i | 0 <= i < |rest| ensures rest[i] <= last {
        assert rest[i] in rest;
        NoneIsLater(times, rest[i]);
      }
    }
  }

  lemma NoneIsLater(times: seq<real>, x: real)
    requires times != [] && Sorted(times)
    ensures x in times[..|times| - 1] ==> x <= times[|times| - 1]
  {
  }

  /** The code keeps the values of the last ten minutes and of the next one, in order. */
  lemma {:induction false} PruneAttemptsMeans(values: seq<real>, now: real)
    ensures Sorted(PruneAttempts(values, now))
    ensures forall t :: t in PruneAttempts(values, now) <==> t in values && now - 600.0 < t && t <= now + 60.0
  {
    if values != [] {
      hide Insert;
      var init, last := values[..|values| - 1], values[|values| - 1];
      assert values == init + [last];
      PruneAttemptsMeans(init, now);
      InsertMembers(last, PruneAttempts(init, now));
      InsertSorted(last, PruneAttempts(init, now));
    }
  }

  lemma {:induction false} PruneAttemptsIsPrune(values: seq<real>, now: real)
    requires Sorted(values) && Past(values, now)
    ensures PruneAttempts(values, now) == Prune(values, RESTART_WINDOW, now)
  {
    if values != [] {
      hide Insert;
      var init, t := values[..|values| - 1], values[|values| - 1];
      PruneAttemptsIsPrune(init, now);
      PruneIsSorted(init, RESTART_WINDOW, now);
      var rest := Prune(init, RESTART_WINDOW, now);
      assert rest != [] ==> rest[|rest| - 1] in rest;
      InsertAtEnd(t, rest);
    }
  }

  lemma InsertAtEnd(t: real, times: seq<real>)
    requires times != [] ==> t >= times[|times| - 1]
    ensures Insert(t, times) == times + [t]
  {
  }

  /** Names whose attempts have all expired disappear. */
  function PruneState(state: Attempts, now: real): Attempts {
    map name | name in state && PruneAttempts(state[name], now) != [] :: PruneAttempts(state[name], now)
  }

  // ---------- retry_after ----------

  function RetryAfter(oldest: real, now: real): int {
    var left := (oldest + 600.0 - now).Floor;
    if left > 0 then left else 0
  }

  /** A resource with three attempts in its window stays limited strictly before `retry_after` has passed,
      and is free when it has passed exactly if the remaining time is a whole number of seconds. */
  lemma RetryAfterIsExact(attempts: seq<real>, now: real)
    requires |attempts| == RESTART_LIMIT && Sorted(attempts) && Past(attempts, now)
    requires Prune(attempts, RESTART_WINDOW, now) == attempts
    ensures var wait := RetryAfter(attempts[0], now) as real;
            && (forall t | now <= t < now + wait :: |Prune(attempts, RESTART_WINDOW, t)| >= RESTART_LIMIT)
            && (|Prune(attempts, RESTART_WINDOW, now + wait)| < RESTART_LIMIT
                <==> attempts[0] + 600.0 - now == (attempts[0] + 600.0 - now).Floor as real)
  {
    var oldest := attempts[0];
    InsideAll(attempts, now);
    var wait := RetryAfter(oldest, now) as real;
    forall t | now <= t < oldest + 600.0 ensures Prune(attempts, RESTART_WINDOW, t) == attempts {
      DropIsPrune(attempts, RESTART_WINDOW, t, 0);
    }
    if wait == oldest + 600.0 - now {
      PruneShrinks(attempts, now + wait);
    }
  }

  lemma InsideAll(attempts: seq<real>, now: real)
    requires attempts != [] && Prune(attempts, RESTART_WINDOW, now) == attempts
    ensures Recent(RESTART_WINDOW, now, attempts[0])
  {
    PruneOnlyRecent(attempts, now);
    assert attempts[0] in attempts;
  }

  lemma {:induction false} PruneOnlyRecent(attempts: seq<real>, now: real)
    ensures forall t <- Prune(attempts, RESTART_WINDOW, now) :: Recent(RESTART_WINDOW, now, t)
    ensures |Prune(attempts, RESTART_WINDOW, now)| <= |attempts|
  {
    if attempts != [] {
      PruneOnlyRecent(attempts[..|attempts| - 1], now);
    }
  }

  lemma PruneShrinks(attempts: seq<real>, t: real)
    requires attempts != [] && !Recent(RESTART_WINDOW, t, attempts[0])
    ensures |Prune(attempts, RESTART_WINDOW, t)| < |attempts|
  {
  }

  // ---------- Runs ----------

  /** What one resource gets, when `recent` attempts of it are in the window and the first was at `oldest`. */
  function Decide(r: Resource, recent: seq<real>, now: real, dryRun: bool, world: World): Outcome {
    if !r.enabled || !r.selfHeal then Skipped
    else if r.unit == "" then ConfigError
    else if world.health != Offline && world.health != Timeout then NoAction
    else if |recent| >= RESTART_LIMIT then RateLimited(RetryAfter(recent[0], now))
    else if !world.unitLoaded then UnitNotLoaded
    else if dryRun then WouldRestart
    else if world.crash != Never then Died
    else if !world.restarts then RestartFailed
    else if world.recovers then Recovered
    else StillUnhealthy
  }

  predicate Recorded(o: Outcome, world: World) {
    (o == Died && world.crash != BeforeSave) || o == RestartFailed || o == Recovered || o == StillUnhealthy
  }

  predicate Commanded(o: Outcome, world: World) {
    (o == Died && world.crash == AfterRestart) || o == RestartFailed || o == Recovered || o == StillUnhealthy
  }

  /** Whether a restart is due: the resource wants it, it is offline or does not answer, its unit is there, this is no
      rehearsal, and fewer than three attempts of its whole history are less than ten minutes old. */
  ghost predicate Due(r: Resource, history: seq<real>, now: real, dryRun: bool, w: World) {
    && r.enabled && r.selfHeal && r.unit != "" && (w.health == Offline || w.health == Timeout)
    && (|history| < 3 || now - history[|history| - 3] >= 600.0) && w.unitLoaded && !dryRun
  }

  /** What each outcome says about the resource, the world and the history of its attempts. */
  ghost predicate OutcomeMeans(o: Outcome, r: Resource, history: seq<real>, now: real, dryRun: bool, w: World) {
    var wanted := r.enabled && r.selfHeal && r.unit != "" && (w.health == Offline || w.health == Timeout);
    var free := |history| < 3 || now - history[|history| - 3] >= 600.0;
    var due := Due(r, history, now, dryRun, w);
    && (o == Skipped <==> !r.enabled || !r.selfHeal)
    && (o == ConfigError <==> r.enabled && r.selfHeal && r.unit == "")
    && (o == NoAction <==> r.enabled && r.selfHeal && r.unit != "" && (w.health == Online || w.health == OtherState))
    && (o.RateLimited? <==> wanted && !free)
    && (o.RateLimited? ==> o.retryAfter == (history[|history| - 3] + 600.0 - now).Floor)
    && (o == UnitNotLoaded <==> wanted && free && !w.unitLoaded)
    && (o == WouldRestart <==> wanted && free && w.unitLoaded && dryRun)
    && (o == Died <==> due && w.crash != Never)
    && (o == RestartFailed <==> due && w.crash == Never && !w.restarts)
    && (o == Recovered <==> due && w.crash == Never && w.restarts && w.recovers)
    && (o == StillUnhealthy <==> due && w.crash == Never && w.restarts && !w.recovers)
  }

  lemma DecideMeans(r: Resource, history: seq<real>, now: real, dryRun: bool, w: World)
    requires Sorted(history) && Past(history, now) && Limited(history, RESTART_WINDOW, RESTART_LIMIT)
    ensures OutcomeMeans(Decide(r, Inside(history, RESTART_WINDOW, now), now, dryRun, w), r, history, now, dryRun, w)
  {
    FreeMeans(history, RESTART_WINDOW, RESTART_LIMIT, now);
    assert |Inside(history, RESTART_WINDOW, now)| <= RESTART_LIMIT;
    if |Inside(history, RESTART_WINDOW, now)| == RESTART_LIMIT {
      FullMeans(history, RESTART_WINDOW, RESTART_LIMIT, now);
    }
    hide Inside, Sorted, Past, Limited;
  }

  ghost predicate GoodFor(times: seq<real>, recorded: seq<real>, commanded: seq<real>, now: real) {
    && Keeps(times, recorded, RESTART_WINDOW, RESTART_LIMIT, now)
    && forall t :: |Inside(commanded, RESTART_WINDOW, t)| <= |Inside(recorded, RESTART_WINDOW, t)|
  }

  /** A state, in memory or in the file, against what was recorded and commanded over the whole run. */
  ghost predicate Good(state: Attempts, recorded: Attempts, commanded: Attempts, now: real) {
    forall name :: GoodFor(Stored(state, name), Stored(recorded, name), Stored(commanded, name), now)
  }

  lemma GoodPrune(times: seq<real>, recorded: seq<real>, commanded: seq<real>, clock: real, now: real)
    requires GoodFor(times, recorded, commanded, clock) && clock <= now
    ensures GoodFor(times, recorded, commanded, now)
    ensures GoodFor(PruneAttempts(times, now), recorded, commanded, now)
    ensures PruneAttempts(times, now) == Inside(recorded, RESTART_WINDOW, now)
  {
    KeepsLater(times, recorded, RESTART_WINDOW, RESTART_LIMIT, clock, now);
    PruneAttemptsIsPrune(times, now);
  }

  lemma GoodRecord(times: seq<real>, recorded: seq<real>, commanded: seq<real>, now: real, command: bool)
    requires GoodFor(times, recorded, commanded, now) && |Inside(recorded, RESTART_WINDOW, now)| < RESTART_LIMIT
    ensures GoodFor(times + [now], recorded + [now], commanded + if command then [now] else [], now)
  {
    KeepsAccepted(times, recorded, RESTART_WINDOW, RESTART_LIMIT, now);
    var commanded' := commanded + if command then [now] else [];
    forall t ensures |Inside(commanded', RESTART_WINDOW, t)| <= |Inside(recorded + [now], RESTART_WINDOW, t)| {
      InsideAppend(recorded, RESTART_WINDOW, now, t);
      if command {
        InsideAppend(commanded, RESTART_WINDOW, now, t);
      } else {
        assert commanded' == commanded;
      }
    }
  }

  lemma GoodLater(state: Attempts, recorded: Attempts, commanded: Attempts, clock: real, now: real)
    requires Good(state, recorded, commanded, clock) && clock <= now
    ensures Good(state, recorded, commanded, now)
    ensures Good(PruneState(state, now), recorded, commanded, now)
  {
    hide GoodFor;
    forall name
      ensures GoodFor(Stored(state, name), Stored(recorded, name), Stored(commanded, name), now)
      ensures GoodFor(Stored(PruneState(state, now), name), Stored(recorded, name), Stored(commanded, name), now)
    {
      GoodPrune(Stored(state, name), Stored(recorded, name), Stored(commanded, name), clock, now);
    }
  }

  function Extend(history: Attempts, name: string, now: real, extended: bool): Attempts {
    if extended then history[name := Stored(history, name) + [now]] else history
  }

  lemma GoodAttempt(state: Attempts, recorded: Attempts, commanded: Attempts, name: string, now: real, command: bool)
    requires Good(state, recorded, commanded, now)
    requires |Inside(Stored(recorded, name), RESTART_WINDOW, now)| < RESTART_LIMIT
    ensures Good(state[name := PruneAttempts(Stored(state, name), now) + [now]],
                 Extend(recorded, name, now, true), Extend(commanded, name, now, command), now)
  {
    hide GoodFor;
    var state' := state[name := PruneAttempts(Stored(state, name), now) + [now]];
    var recorded', commanded' := Extend(recorded, name, now, true), Extend(commanded, name, now, command);
    forall other ensures GoodFor(Stored(state', other), Stored(recorded', other), Stored(commanded', other), now) {
      if other == name {
        GoodPrune(Stored(state, name), Stored(recorded, name), Stored(commanded, name), now, now);
        GoodRecord(PruneAttempts(Stored(state, name), now), Stored(recorded, name), Stored(commanded, name), now, command);
        assert Stored(commanded', name) == Stored(commanded, name) + if command then [now] else [];
      } else {
        assert Stored(state', other) == Stored(state, other);
      }
    }
  }

  // ---------- Whole runs ----------

  /** Over all runs: the epochs of recorded attempts, those of restarts that were commanded, and when they happened. */
  datatype Histories = Histories(recorded: Attempts, commanded: Attempts, instants: Attempts)

  function Acted(h: Histories, name: string, now: real, o: Outcome, world: World): Histories {
    Histories(Extend(h.recorded, name, now, Recorded(o, world)),
              Extend(h.commanded, name, now, Commanded(o, world)),
              Extend(h.instants, name, world.at, Commanded(o, world)))
  }

  /** What one resource adds to the histories: an attempt is recorded unless the process dies before it saves, a restart
      is commanded unless it dies before that. */
  ghost predicate Extends(h: Histories, after: Histories, r: Resource, now: real, dryRun: bool, w: World) {
    var due := Due(r, Stored(h.recorded, r.name), now, dryRun, w);
    && Stored(after.recorded, r.name)
       == Stored(h.recorded, r.name) + (if due && w.crash != BeforeSave then [now] else [])
    && Stored(after.commanded, r.name)
       == Stored(h.commanded, r.name) + (if due && (w.crash == Never || w.crash == AfterRestart) then [now] else [])
    && Stored(after.instants, r.name)
       == Stored(h.instants, r.name) + (if due && (w.crash == Never || w.crash == AfterRestart) then [w.at] else [])
  }

  ghost predicate Unchanged(h: Histories, after: Histories, name: string) {
    && Stored(after.recorded, name) == Stored(h.recorded, name) && Stored(after.commanded, name) == Stored(h.commanded, name)
    && Stored(after.instants, name) == Stored(h.instants, name)
  }

  lemma ActedMeans(h: Histories, r: Resource, now: real, o: Outcome, dryRun: bool, w: World)
    requires OutcomeMeans(o, r, Stored(h.recorded, r.name), now, dryRun, w)
    ensures Extends(h, Acted(h, r.name, now, o, w), r, now, dryRun, w)
    ensures forall name :: name != r.name ==> Unchanged(h, Acted(h, r.name, now, o, w), name)
  {
  }

  datatype Progress = Progress(results: seq<Outcome>, histories: Histories)

  predicate Ended(p: Progress) {
    p.results != [] && p.results[|p.results| - 1] == Died
  }

  function Handled(r: Resource, now: real, dryRun: bool, world: World, p: Progress): Progress {
    var o := Decide(r, Inside(Stored(p.histories.recorded, r.name), RESTART_WINDOW, now), now, dryRun, world);
    Progress(p.results + [o], Acted(p.histories, r.name, now, o, world))
  }

  /** What a run over some resources comes to, after the histories so far. */
  function Progressed(resources: seq<Resource>, only: seq<string>, worlds: seq<World>, now: real, dryRun: bool, h: Histories): Progress
    requires |worlds| == |resources|
  {
    if resources == [] then Progress([], h)
    else
      var last := |resources| - 1;
      var p := Progressed(resources[..last], only, worlds[..last], now, dryRun, h);
      if Ended(p) || (only != [] && resources[last].name != only[0]) then p
      else Handled(resources[last], now, dryRun, worlds[last], p)
  }

  lemma NothingProgressed(only: seq<string>, now: real, dryRun: bool, h: Histories)
    ensures Progressed([], only, [], now, dryRun, h) == Progress([], h)
  {
  }

  lemma ProgressedMore(resources: seq<Resource>, only: seq<string>, worlds: seq<World>, now: real, dryRun: bool, h: Histories, i: nat)
    requires |worlds| == |resources| && i < |resources|
    ensures var p := Progressed(resources[..i], only, worlds[..i], now, dryRun, h);
            Progressed(resources[..i + 1], only, worlds[..i + 1], now, dryRun, h)
            == if Ended(p) || (only != [] && resources[i].name != only[0]) then p
               else Handled(resources[i], now, dryRun, worlds[i], p)
  {
    hide Handled, Ended;
    assert resources[..i + 1][..i] == resources[..i] && worlds[..i + 1][..i] == worlds[..i];
  }

  lemma {:induction false} EndedStays(resources: seq<Resource>, only: seq<string>, worlds: seq<World>, now: real, dryRun: bool,
                                      h: Histories, n: nat)
    requires |worlds| == |resources| && n <= |resources|
    requires Ended(Progressed(resources[..n], only, worlds[..n], now, dryRun, h))
    ensures Progressed(resources, only, worlds, now, dryRun, h) == Progressed(resources[..n], only, worlds[..n], now, dryRun, h)
  {
    hide Handled, Ended;
    if n == |resources| {
      assert resources[..n] == resources && worlds[..n] == worlds;
    } else {
      var last := |resources| - 1;
      assert resources[..last][..n] == resources[..n] && worlds[..last][..n] == worlds[..n];
      EndedStays(resources[..last], only, worlds[..last], now, dryRun, h, n);
    }
  }

  // ---------- What a run does ----------

  ghost predicate UniqueNames(resources: seq<Resource>) {
    forall i, j :: 0 <= i < j < |resources| ==> resources[i].name != resources[j].name
  }

  /** What a run over resources of different names comes to: each outcome and each entry of the histories is the one that
      the resource, its world and the histories before the run call for, until the process dies. */
  ghost predicate RunMeans(resources: seq<Resource>, worlds: seq<World>, now: real, dryRun: bool, h: Histories,
                           results: seq<Outcome>, after: Histories)
    requires |worlds| == |resources|
  {
    && |results| <= |resources|
    && (forall i :: 0 <= i < |results| ==>
          OutcomeMeans(results[i], resources[i], Stored(h.recorded, resources[i].name), now, dryRun, worlds[i]))
    && (forall i :: 0 <= i < |results| - 1 ==> results[i] != Died)
    && (|results| < |resources| ==> results != [] && results[|results| - 1] == Died)
    && (forall i :: 0 <= i < |results| ==> Extends(h, after, resources[i], now, dryRun, worlds[i]))
    && forall name :: (forall i :: 0 <= i < |results| ==> resources[i].name != name) ==> Unchanged(h, after, name)
  }

  lemma OneIsUnique(r: Resource)
    ensures UniqueNames([r])
  {
  }

  ghost predicate Kept(recorded: Attempts, now: real) {
    forall name ::
      var history := Stored(recorded, name);
      Sorted(history) && Past(history, now) && Limited(history, RESTART_WINDOW, RESTART_LIMIT)
  }

  lemma HandledMeans(r: Resource, now: real, dryRun: bool, w: World, p: Progress, h: Histories)
    requires Kept(h.recorded, now) && Unchanged(h, p.histories, r.name)
    ensures var q := Handled(r, now, dryRun, w, p);
            && |q.results| == |p.results| + 1 && q.results[..|p.results|] == p.results
            && OutcomeMeans(q.results[|p.results|], r, Stored(h.recorded, r.name), now, dryRun, w)
            && Extends(h, q.histories, r, now, dryRun, w)
            && forall name :: name != r.name ==> Unchanged(p.histories, q.histories, name)
  {
    var history := Stored(h.recorded, r.name);
    assert Sorted(history) && Past(history, now) && Limited(history, RESTART_WINDOW, RESTART_LIMIT);
    DecideMeans(r, history, now, dryRun, w);
    var o := Decide(r, Inside(history, RESTART_WINDOW, now), now, dryRun, w);
    hide Decide, Acted, OutcomeMeans, Inside, Kept;
    ActedMeans(p.histories, r, now, o, dryRun, w);
  }

  lemma ExtendsStays(h: Histories, after: Histories, later: Histories, r: Resource, now: real, dryRun: bool, w: World)
    requires Extends(h, after, r, now, dryRun, w) && Unchanged(after, later, r.name)
    ensures Extends(h, later, r, now, dryRun, w)
  {
  }

  lemma UnchangedStays(h: Histories, after: Histories, later: Histories, name: string)
    requires Unchanged(h, after, name) && Unchanged(after, later, name)
    ensures Unchanged(h, later, name)
  {
  }

  /** One more resource, when the run is still alive. */
  lemma RunMeansMore(resources: seq<Resource>, worlds: seq<World>, now: real, dryRun: bool, h: Histories,
                     results: seq<Outcome>, after: Histories, r: Resource, w: World, o: Outcome, later: Histories)
    requires |worlds| == |resources| == |results| && UniqueNames(resources + [r])
    requires RunMeans(resources, worlds, now, dryRun, h, results, after) && !Ended(Progress(results, after))
    requires OutcomeMeans(o, r, Stored(h.recorded, r.name), now, dryRun, w) && Extends(h, later, r, now, dryRun, w)
    requires forall name :: name != r.name ==> Unchanged(after, later, name)
    ensures RunMeans(resources + [r], worlds + [w], now, dryRun, h, results + [o], later)
  {
    hide OutcomeMeans, Extends, Unchanged;
    OthersMeant(resources, worlds, now, dryRun, h, results, after, r, later);
    forall name | forall i :: 0 <= i < |resources| + 1 ==> (resources + [r])[i].name != name ensures Unchanged(h, later, name) {
      assert (resources + [r])[|resources|].name != name;
      assert forall i :: 0 <= i < |resources| ==> (resources + [r])[i] == resources[i];
    }
  }

  lemma OthersMeant(resources: seq<Resource>, worlds: seq<World>, now: real, dryRun: bool, h: Histories,
                    results: seq<Outcome>, after: Histories, r: Resource, later: Histories)
    requires |worlds| == |resources| == |results| && UniqueNames(resources + [r])
    requires RunMeans(resources, worlds, now, dryRun, h, results, after)
    requires forall name :: name != r.name ==> Unchanged(after, later, name)
    ensures forall i :: 0 <= i < |resources| ==> Extends(h, later, resources[i], now, dryRun, worlds[i])
    ensures forall name :: name != r.name && (forall i :: 0 <= i < |resources| ==> resources[i].name != name) ==> Unchanged(h, later, name)
  {
    hide OutcomeMeans, Extends, Unchanged;
    forall i | 0 <= i < |resources| ensures Extends(h, later, resources[i], now, dryRun, worlds[i]) {
      assert (resources + [r])[i].name != (resources + [r])[|resources|].name;
      ExtendsStays(h, after, later, resources[i], now, dryRun, worlds[i]);
    }
    forall name | name != r.name && forall i :: 0 <= i < |resources| ==> resources[i].name != name ensures Unchanged(h, later, name) {
      UnchangedStays(h, after, later, name);
    }
  }

  lemma RunMeansEnded(resources: seq<Resource>, worlds: seq<World>, now: real, dryRun: bool, h: Histories,
                      p: Progress, r: Resource, w: World)
    requires |worlds| == |resources| && RunMeans(resources, worlds, now, dryRun, h, p.results, p.histories) && Ended(p)
    ensures RunMeans(resources + [r], worlds + [w], now, dryRun, h, p.results, p.histories)
  {
    hide OutcomeMeans, Extends, Unchanged;
  }

  lemma {:induction false} RunIsMeant(resources: seq<Resource>, worlds: seq<World>, now: real, dryRun: bool, h: Histories)
    requires |worlds| == |resources| && UniqueNames(resources) && Kept(h.recorded, now)
    ensures var p := Progressed(resources, [], worlds, now, dryRun, h);
            RunMeans(resources, worlds, now, dryRun, h, p.results, p.histories)
  {
    if resources == [] {
      NothingMeant(now, dryRun, h);
    } else {
      var last := |resources| - 1;
      var p := Progressed(resources[..last], [], worlds[..last], now, dryRun, h);
      assert resources[..last] + [resources[last]] == resources && worlds[..last] + [worlds[last]] == worlds;
      RunIsMeant(resources[..last], worlds[..last], now, dryRun, h);
      if Ended(p) {
        RunMeansEnded(resources[..last], worlds[..last], now, dryRun, h, p, resources[last], worlds[last]);
      } else {
        AliveMeans(resources[..last], worlds[..last], now, dryRun, h, p, resources[last]);
        HandledMeans(resources[last], now, dryRun, worlds[last], p, h);
        hide RunMeans, Handled, OutcomeMeans, Extends, Unchanged, Kept, UniqueNames, Ended;
        var q := Handled(resources[last], now, dryRun, worlds[last], p);
        assert q.results == p.results + [q.results[last]];
        RunMeansMore(resources[..last], worlds[..last], now, dryRun, h, p.results, p.histories,
                     resources[last], worlds[last], q.results[last], q.histories);
      }
    }
  }

  lemma NothingMeant(now: real, dryRun: bool, h: Histories)
    ensures RunMeans([], [], now, dryRun, h, [], h)
  {
  }

  lemma AliveMeans(resources: seq<Resource>, worlds: seq<World>, now: real, dryRun: bool, h: Histories, p: Progress, r: Resource)
    requires |worlds| == |resources| && RunMeans(resources, worlds, now, dryRun, h, p.results, p.histories) && !Ended(p)
    requires UniqueNames(resources + [r])
    ensures |p.results| == |resources| && Unchanged(h, p.histories, r.name)
  {
    hide OutcomeMeans, Extends, Unchanged;
    var n := |resources|;
    forall i | 0 <= i < n ensures resources[i].name != r.name {
      assert (resources + [r])[i].name != (resources + [r])[n].name;
    }
  }

  lemma {:induction false} NoneNamed(resources: seq<Resource>, name: string, worlds: seq<World>, now: real, dryRun: bool, h: Histories)
    requires |worlds| == |resources| && forall r <- resources :: r.name != name
    ensures Progressed(resources, [name], worlds, now, dryRun, h) == Progress([], h)
  {
    hide Handled;
    if resources != [] {
      NoneNamed(resources[..|resources| - 1], name, worlds[..|resources| - 1], now, dryRun, h);
    }
  }

  /** A run over the one resource of a name is the run over it alone. */
  lemma {:induction false} OnlyOne(resources: seq<Resource>, k: nat, worlds: seq<World>, now: real, dryRun: bool, h: Histories)
    requires |worlds| == |resources| && UniqueNames(resources) && k < |resources|
    ensures Progressed(resources, [resources[k].name], worlds, now, dryRun, h)
            == Progressed([resources[k]], [], [worlds[k]], now, dryRun, h)
  {
    hide Handled;
    var last := |resources| - 1;
    if k < last {
      OnlyOne(resources[..last], k, worlds[..last], now, dryRun, h);
    } else {
      NoneNamed(resources[..last], resources[k].name, worlds[..last], now, dryRun, h);
      assert [resources[k]][..0] == [] && [worlds[k]][..0] == [];
      NothingProgressed([], now, dryRun, h);
    }
  }

  ghost predicate Drifts(h: Histories, span: real) {
    forall name :: Follows(Stored(h.instants, name), Stored(h.commanded, name), span)
  }

  lemma ActedDrifts(h: Histories, span: real, name: string, now: real, o: Outcome, world: World)
    requires Drifts(h, span) && now <= world.at <= now + span
    ensures Drifts(Acted(h, name, now, o, world), span)
  {
    var h' := Acted(h, name, now, o, world);
    forall other ensures Follows(Stored(h'.instants, other), Stored(h'.commanded, other), span) {
      assert Follows(Stored(h.instants, other), Stored(h.commanded, other), span);
      if other != name {
        assert Stored(h'.instants, other) == Stored(h.instants, other) && Stored(h'.commanded, other) == Stored(h.commanded, other);
      }
    }
  }

  /** The bound on restarts as they happen: the window is shorter by the longest run. */
  ghost predicate Spaced(instants: Attempts, span: real) {
    forall name :: Limited(Stored(instants, name), RESTART_WINDOW.(length := RESTART_WINDOW.length - span), RESTART_LIMIT)
  }

  lemma DriftsAreSpaced(h: Histories, span: real)
    requires Drifts(h, span) && forall name :: Limited(Stored(h.commanded, name), RESTART_WINDOW, RESTART_LIMIT)
    ensures Spaced(h.instants, span)
  {
    hide Follows, Limited;
    forall name ensures Limited(Stored(h.instants, name), RESTART_WINDOW.(length := RESTART_WINDOW.length - span), RESTART_LIMIT) {
      DriftedStaysLimited(Stored(h.instants, name), Stored(h.commanded, name), RESTART_WINDOW, RESTART_LIMIT, span);
    }
  }

  class Healer {
    /** The state file, as it reads back. */
    var file: Attempts

    ghost var histories: Histories
    /** The epoch of the last run, and when it was over. */
    ghost var clock: real
    ghost var over: real
    /** No run takes longer. */
    ghost const span: real

    ghost predicate Valid()
      reads this
    {
      && Good(file, histories.recorded, histories.commanded, clock)
      && Drifts(histories, span)
    }

    constructor (now: real, ghost span: real)
      ensures Valid() && clock == over == now && histories == Histories(map[], map[], map[]) && this.span == span
    {
      file, histories, clock, over, this.span := map[], Histories(map[], map[], map[]), now, now, span;
      KeepsNothing(RESTART_WINDOW, RESTART_LIMIT, now);
    }

    /** One resource. The decision is the one that the whole history of recorded attempts calls for, although
        the code only sees what the file kept; an attempt is in the file before its restart is commanded. */
    method HealResource(r: Resource, state: Attempts, now: real, dryRun: bool, world: World)
      returns (o: Outcome, state': Attempts)
      requires Valid() && clock == now && Good(state, histories.recorded, histories.commanded, now)
      requires now <= world.at <= now + span
      modifies this`file, this`histories
      ensures Valid() && (o != Died ==> Good(state', histories.recorded, histories.commanded, now))
      ensures o == Decide(r, Inside(Stored(old(histories).recorded, r.name), RESTART_WINDOW, now), now, dryRun, world)
      ensures histories == Acted(old(histories), r.name, now, o, world)
      ensures OutcomeMeans(o, r, Stored(old(histories).recorded, r.name), now, dryRun, world)
      ensures Extends(old(histories), histories, r, now, dryRun, world)
      ensures forall name :: name != r.name ==> Unchanged(old(histories), histories, name)
    {
      Meant(r, state, now, dryRun, world);
      hide Good, GoodFor, Keeps, PruneAttempts, Inside, PruneState, RetryAfter, Drifts, OutcomeMeans, Extends, Unchanged, Acted;
      state' := state;
      if !r.enabled {
        return Skipped, state';
      }
      if !r.selfHeal {
        return Skipped, state';
      }
      if r.unit == "" {
        return ConfigError, state';
      }
      if world.health != Offline && world.health != Timeout {
        return NoAction, state';
      }
      var attempts := PruneAttempts(Stored(state, r.name), now);
      AttemptsAreRecent(state, histories.recorded, histories.commanded, r.name, now);
      state' := state'[r.name := attempts];
      if |attempts| >= RESTART_LIMIT {
        return RateLimited(RetryAfter(attempts[0], now)), state';
      }
      if !world.unitLoaded {
        return UnitNotLoaded, state';
      }
      if dryRun {
        return WouldRestart, state';
      }
      o, state' := Attempt(r.name, state, attempts, now, world);
    }

    /** What the decision for one resource means. */
    lemma Meant(r: Resource, state: Attempts, now: real, dryRun: bool, world: World)
      requires Good(state, histories.recorded, histories.commanded, now)
      ensures var o := Decide(r, Inside(Stored(histories.recorded, r.name), RESTART_WINDOW, now), now, dryRun, world);
              var after := Acted(histories, r.name, now, o, world);
              && OutcomeMeans(o, r, Stored(histories.recorded, r.name), now, dryRun, world)
              && Extends(histories, after, r, now, dryRun, world)
              && (forall name :: name != r.name ==> Unchanged(histories, after, name))
              && (!Recorded(o, world) && !Commanded(o, world) ==> after == histories)
    {
      GoodIsLimited(state, histories.recorded, histories.commanded, now);
      DecideMeans(r, Stored(histories.recorded, r.name), now, dryRun, world);
      hide OutcomeMeans, Decide, Good;
      ActedMeans(histories, r, now, Decide(r, Inside(Stored(histories.recorded, r.name), RESTART_WINDOW, now), now, dryRun, world), dryRun, world);
    }

    /** Record the attempt, then restart. */
    method Attempt(name: string, state: Attempts, attempts: seq<real>, now: real, world: World)
      returns (o: Outcome, state': Attempts)
      requires Valid() && clock == now && Good(state, histories.recorded, histories.commanded, now)
      requires attempts == PruneAttempts(Stored(state, name), now) && now <= world.at <= now + span
      requires |Inside(Stored(histories.recorded, name), RESTART_WINDOW, now)| < RESTART_LIMIT
      modifies this`file, this`histories
      ensures Valid() && (o != Died ==> Good(state', histories.recorded, histories.commanded, now))
      ensures o == if world.crash != Never then Died else if !world.restarts then RestartFailed
                   else if world.recovers then Recovered else StillUnhealthy
      ensures histories == Acted(old(histories), name, now, o, world)
    {
      hide Good, GoodFor, Keeps, PruneAttempts, Inside, PruneState, Drifts;
      GoodAttempt(state, histories.recorded, histories.commanded, name, now, world.crash != AfterSave);
      state' := state[name := attempts + [now]];
      if world.crash == BeforeSave {
        return Died, state';
      }
      o := if world.crash != Never then Died else if !world.restarts then RestartFailed
           else if world.recovers then Recovered else StillUnhealthy;
      ActedDrifts(histories, span, name, now, o, world);
      histories := Acted(histories, name, now, o, world);
      GoodLater(state', histories.recorded, histories.commanded, now, now);
      file := PruneState(state', now);
    }

    /** A run over all resources, or over the one named, from `now` until `finish`: it may die at any resource, or
        before its last save. Every window of ten minutes keeps to the limit for recorded attempts, and every window
        that is shorter by the longest run keeps to it for the restarts as they happen. */
    method Run(resources: seq<Resource>, only: seq<string>, now: real, finish: real, dryRun: bool, worlds: seq<World>, lastSave: bool)
      returns (results: seq<Outcome>, found: bool)
      requires Valid() && clock <= over <= now <= finish <= now + span && |worlds| == |resources| && |only| <= 1
      requires forall w <- worlds :: now <= w.at <= finish
      modifies this
      ensures Valid() && clock == now && over == finish
      ensures found <==> only == [] || exists r <- resources :: r.name == only[0]
      ensures if found then Progress(results, histories) == Progressed(resources, only, worlds, now, dryRun, old(histories))
              else results == [] && histories == old(histories)
      ensures only == [] && UniqueNames(resources) ==>
                RunMeans(resources, worlds, now, dryRun, old(histories), results, histories)
      ensures UniqueNames(resources) ==>
                forall k :: 0 <= k < |resources| && only == [resources[k].name] ==>
                  RunMeans([resources[k]], [worlds[k]], now, dryRun, old(histories), results, histories)
      ensures forall name ::
        && Limited(Stored(histories.recorded, name), RESTART_WINDOW, RESTART_LIMIT)
        && Limited(Stored(histories.commanded, name), RESTART_WINDOW, RESTART_LIMIT)
      ensures Spaced(histories.instants, span)
      ensures dryRun ==> histories == old(histories)
    {
      hide Good, GoodFor, Keeps, Drifts, Decide, Acted, Spaced, Ended, RunMeans, UniqueNames, Progressed, Kept;
      results := [];
      GoodLater(file, histories.recorded, histories.commanded, clock, now);
      GoodIsLimited(file, histories.recorded, histories.commanded, now);
      if UniqueNames(resources) {
        if only == [] {
          RunIsMeant(resources, worlds, now, dryRun, histories);
        }
        forall k | 0 <= k < |resources| && only == [resources[k].name]
          ensures var p := Progressed(resources, only, worlds, now, dryRun, histories);
                  RunMeans([resources[k]], [worlds[k]], now, dryRun, histories, p.results, p.histories)
        {
          OnlyOne(resources, k, worlds, now, dryRun, histories);
          OneIsUnique(resources[k]);
          RunIsMeant([resources[k]], [worlds[k]], now, dryRun, histories);
        }
      }
      clock, over := now, finish;
      found := only == [] || exists r <- resources :: r.name == only[0];
      if found {
        results := RunOver(resources, only, now, dryRun, worlds, lastSave);
      }
      GoodIsLimited(file, histories.recorded, histories.commanded, now);
      DriftsAreSpaced(histories, span);
      if dryRun {
        DryRunChangesNothing(resources, only, worlds, now, old(histories));
      }
    }

    method RunOver(resources: seq<Resource>, only: seq<string>, now: real, dryRun: bool, worlds: seq<World>, lastSave: bool)
      returns (results: seq<Outcome>)
      requires Valid() && clock == now && |worlds| == |resources|
      requires forall w <- worlds :: now <= w.at <= now + span
      modifies this`file, this`histories
      ensures Valid() && Progress(results, histories) == Progressed(resources, only, worlds, now, dryRun, old(histories))
    {
      hide Good, GoodFor, Keeps, Drifts, Decide, Acted, Progressed, Inside, OutcomeMeans, Extends, Unchanged, PruneState;
      results := [];
      NothingProgressed(only, now, dryRun, histories);
      var state := PruneState(file, now);
      GoodLater(file, histories.recorded, histories.commanded, now, now);
      for i := 0 to |resources|
        invariant Valid() && Good(state, histories.recorded, histories.commanded, now)
        invariant Progress(results, histories) == Progressed(resources[..i], only, worlds[..i], now, dryRun, old(histories))
        invariant !Ended(Progress(results, histories))
      {
        ProgressedMore(resources, only, worlds, now, dryRun, old(histories), i);
        assert worlds[i] in worlds;
        if only == [] || resources[i].name == only[0] {
          var o;
          o, state := HealResource(resources[i], state, now, dryRun, worlds[i]);
          results := results + [o];
          if o == Died {
            EndedStays(resources, only, worlds, now, dryRun, old(histories), i + 1);
            return;
          }
        }
      }
      assert resources[..|resources|] == resources && worlds[..|worlds|] == worlds;
      if lastSave {
        GoodLater(state, histories.recorded, histories.commanded, now, now);
        file := PruneState(state, now);
      }
    }
  }

  lemma {:induction false} DryRunChangesNothing(resources: seq<Resource>, only: seq<string>, worlds: seq<World>, now: real, h: Histories)
    requires |worlds| == |resources|
    ensures Progressed(resources, only, worlds, now, true, h).histories == h
  {
    if resources != [] {
      DryRunChangesNothing(resources[..|resources| - 1], only, worlds[..|resources| - 1], now, h);
    }
  }

  // ---------- The bound is exact ----------

  lemma RestartOfOne(r: Resource, w: World, now: real, h: Histories)
    requires r.enabled && r.selfHeal && r.unit != "" && w.health == Offline && w.unitLoaded && w.restarts && w.recovers && w.crash == Never
    requires |Inside(Stored(h.recorded, r.name), RESTART_WINDOW, now)| < RESTART_LIMIT
    ensures Progressed([r], [], [w], now, false, h) == Progress([Recovered], Acted(h, r.name, now, Recovered, w))
  {
    assert [r][..0] == [] && [w][..0] == [];
    assert Progressed([], [], [], now, false, h) == Progress([], h);
    assert [] + [Recovered] == [Recovered];
  }

  lemma InsideIsPart(history: seq<real>, w: Window, t: real)
    ensures |Inside(history, w, t)| <= |history|
  {
  }

  /** A run from `now` until `at` that restarts one resource at its end. */
  method RestartOnce(h: Healer, r: Resource, now: real, at: real)
    requires h.Valid() && h.clock <= h.over <= now <= at <= now + h.span && r.enabled && r.selfHeal && r.unit != ""
    requires |Inside(Stored(h.histories.recorded, r.name), RESTART_WINDOW, now)| < RESTART_LIMIT
    modifies h
    ensures h.Valid() && h.clock == now && h.over == at
    ensures Stored(h.histories.recorded, r.name) == Stored(old(h.histories).recorded, r.name) + [now]
    ensures Stored(h.histories.instants, r.name) == Stored(old(h.histories).instants, r.name) + [at]
  {
    hide Good, Drifts, Spaced, Progressed, Limited, Decide, Inside;
    RestartOfOne(r, At(at), now, h.histories);
    var results, found := h.Run([r], [], now, at, false, [At(at)], true);
  }

  /** A restart at the end of the longest run, and three ten minutes after its start: in any window that is longer
      than the bound allows there can be four. */
  method FourRestarts(r: Resource, span: real, length: real) returns (h: Healer)
    requires r.enabled && r.selfHeal && r.unit != "" && 0.0 <= span <= 600.0 && length > 600.0 - span
    ensures fresh(h) && h.Valid() && h.span == span
    ensures !Limited(Stored(h.histories.instants, r.name), Window(length, false), RESTART_LIMIT)
  {
    hide Good, Drifts, Limited, Inside;
    var s := (length - 600.0 + span) / 4.0;
    h := new Healer(0.0, span);
    InsideIsPart([], RESTART_WINDOW, 0.0);
    RestartOnce(h, r, 0.0, span);
    assert Stored(h.histories.recorded, r.name) == [0.0];
    InsideIsPart([0.0], RESTART_WINDOW, 600.0);
    RestartOnce(h, r, 600.0, 600.0);
    assert Stored(h.histories.recorded, r.name) == [0.0, 600.0];
    InsideIsPart([0.0, 600.0], RESTART_WINDOW, 600.0 + s);
    RestartOnce(h, r, 600.0 + s, 600.0 + s);
    assert Stored(h.histories.recorded, r.name) == [0.0, 600.0, 600.0 + s];
    FourthIsFree(s);
    RestartOnce(h, r, 600.0 + 2.0 * s, 600.0 + 2.0 * s);
    assert Stored(h.histories.instants, r.name) == [span, 600.0, 600.0 + s, 600.0 + 2.0 * s];
    FourInWindow(span, s, length);
  }

  function At(instant: real): World {
    World(Offline, true, true, true, Never, instant)
  }

  lemma FourthIsFree(s: real)
    requires s > 0.0
    ensures |Inside([0.0, 600.0, 600.0 + s], RESTART_WINDOW, 600.0 + 2.0 * s)| < RESTART_LIMIT
  {
    var all := [0.0, 600.0, 600.0 + s];
    assert all[..2] == [0.0, 600.0] && all[..2][..1] == [0.0] && all[..2][..1][..0] == [];
    assert Inside([0.0], RESTART_WINDOW, 600.0 + 2.0 * s) == [];
  }

  lemma FourInWindow(span: real, s: real, length: real)
    requires s == (length - 600.0 + span) / 4.0 && s > 0.0 && span <= 600.0
    ensures !Limited([span, 600.0, 600.0 + s, 600.0 + 2.0 * s], Window(length, false), RESTART_LIMIT)
  {
    var all, w, t := [span, 600.0, 600.0 + s, 600.0 + 2.0 * s], Window(length, false), 600.0 + 2.0 * s;
    assert forall x <- all :: x <= t && Recent(w, t, x);
    AllInside(all, w, t);
    assert |Inside(all, w, t)| == 4;
  }

  lemma {:induction false} AllInside(times: seq<real>, w: Window, t: real)
    requires forall x <- times :: x <= t && Recent(w, t, x)
    ensures Inside(times, w, t) == times
  {
    if times != [] {
      var init, last := times[..|times| - 1], times[|times| - 1];
      assert times == init + [last] && last in times && forall x <- init :: x in times;
      AllInside(init, w, t);
    }
  }

  lemma AttemptsAreRecent(state: Attempts, recorded: Attempts, commanded: Attempts, name: string, now: real)
    requires Good(state, recorded, commanded, now)
    ensures var attempts := PruneAttempts(Stored(state, name), now);
            && attempts == Inside(Stored(recorded, name), RESTART_WINDOW, now)
            && Good(state[name := attempts], recorded, commanded, now)
  {
    hide GoodFor;
    GoodPrune(Stored(state, name), Stored(recorded, name), Stored(commanded, name), now, now);
    var state' := state[name := PruneAttempts(Stored(state, name), now)];
    forall other ensures GoodFor(Stored(state', other), Stored(recorded, other), Stored(commanded, other), now) {
      assert other != name ==> Stored(state', other) == Stored(state, other);
    }
  }

  lemma GoodIsLimited(state: Attempts, recorded: Attempts, commanded: Attempts, now: real)
    requires Good(state, recorded, commanded, now)
    ensures Kept(recorded, now)
    ensures forall name ::
      && Limited(Stored(recorded, name), RESTART_WINDOW, RESTART_LIMIT)
      && Limited(Stored(commanded, name), RESTART_WINDOW, RESTART_LIMIT)
  {
  }
}
