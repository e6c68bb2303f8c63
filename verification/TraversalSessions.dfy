/**
 Traversal sessions and their rate limit (p2p.py: `_cleanup`, `_rate_limit`, `prepare_traversal`), with
 fresh random session ids. A request reads the clock for the limit and, at most `lag` later, for its session.
 */
module TraversalSessions {
  import opened SlidingWindow

  const RATE_LIMIT: nat := 6
  const RATE_WINDOW := Window(60.0, false)
  const SESSION_TTL := 90.0

  datatype Session = Session(device: string, createdAt: real, expiresAt: real)

  // ---------- Counting ----------

  ghost function Places(history: seq<real>, w: Window, t: real): set<nat> {
    set i: nat | i < |history| && history[i] <= t && Recent(w, t, history[i])
  }

  lemma {:induction false} PlacesCount(history: seq<real>, w: Window, t: real)
    ensures |Places(history, w, t)| == |Inside(history, w, t)|
  {
    if history == [] {
      assert Places(history, w, t) == {};
    } else {
      var last: nat := |history| - 1;
      PlacesCount(history[..last], w, t);
      var init := Places(history[..last], w, t);
      if history[last] <= t && Recent(w, t, history[last]) {
        assert Places(history, w, t) == init + {last};
      } else {
        assert Places(history, w, t) == init;
      }
    }
  }

  lemma {:induction false} InjectionCount(ids: set<string>, place: map<string, nat>, places: set<nat>)
    requires forall id <- ids :: id in place && place[id] in places
    requires forall a, b | a in ids && b in ids && a != b :: place[a] != place[b]
    ensures |ids| <= |places|
    decreases |ids|
  {
    if ids != {} {
      var id :| id in ids;
      InjectionCount(ids - {id}, place, places - {place[id]});
    }
  }

  lemma {:induction false} LongerHoldsMore(history: seq<real>, w: Window, length: real, t: real)
    requires w.length <= length
    ensures |Inside(history, w, t)| <= |Inside(history, w.(length := length), t)|
  {
    if history != [] {
      LongerHoldsMore(history[..|history| - 1], w, length, t);
    }
  }

  /** Six accepted requests a minute allow at most twelve in 90 seconds, and still in two minutes. */
  lemma TwelveInTtl(history: seq<real>, lag: real, t: real)
    requires Limited(history, RATE_WINDOW, RATE_LIMIT) && lag <= 30.0
    ensures |Inside(history, Window(SESSION_TTL + lag, false), t)| <= 2 * RATE_LIMIT
  {
    LongerHoldsMore(history, Window(SESSION_TTL + lag, false), 120.0, t);
    DoubleWindow(history, RATE_WINDOW, t);
    assert |Inside(history, RATE_WINDOW, t)| <= RATE_LIMIT;
    assert |Inside(history, RATE_WINDOW, t - 60.0)| <= RATE_LIMIT;
  }

  // ---------- State ----------

  function Live(sessions: map<string, Session>, now: real): map<string, Session> {
    map id | id in sessions && sessions[id].expiresAt > now :: sessions[id]
  }

  ghost function LiveOf(sessions: map<string, Session>, device: string, now: real): set<string> {
    set id | id in sessions && sessions[id].device == device && sessions[id].expiresAt > now
  }

  function Stored(times: map<string, seq<real>>, device: string): seq<real> {
    if device in times then times[device] else []
  }

  /** Whole-run bookkeeping: the accepted requests of each device, the one that each session stems from, and those
      whose session is not stored yet. */
  datatype Ledger = Ledger(accepted: map<string, seq<real>>, place: map<string, nat>, open: set<(string, nat)>)

  /** Every session stems from its own accepted request, at most `lag` before it. */
  ghost predicate Backed(sessions: map<string, Session>, l: Ledger, lag: real, clock: real) {
    && (forall id <- sessions ::
          var s := sessions[id];
          && id in l.place && l.place[id] < |Stored(l.accepted, s.device)| && (s.device, l.place[id]) !in l.open
          && Stored(l.accepted, s.device)[l.place[id]] <= s.createdAt <= Stored(l.accepted, s.device)[l.place[id]] + lag
          && s.createdAt <= clock && s.expiresAt == s.createdAt + SESSION_TTL)
    && (forall a, b | a in sessions && b in sessions && a != b && sessions[a].device == sessions[b].device ::
          l.place[a] != l.place[b])
    && forall x <- l.open :: x.1 < |Stored(l.accepted, x.0)|
  }

  lemma LiveIsBounded(sessions: map<string, Session>, l: Ledger, lag: real, device: string, now: real)
    requires Backed(sessions, l, lag, now) && lag <= 30.0
    requires Limited(Stored(l.accepted, device), RATE_WINDOW, RATE_LIMIT)
    ensures |LiveOf(sessions, device, now)| <= 2 * RATE_LIMIT
  {
    var history, w := Stored(l.accepted, device), Window(SESSION_TTL + lag, false);
    InjectionCount(LiveOf(sessions, device, now), l.place, Places(history, w, now));
    PlacesCount(history, w, now);
    TwelveInTtl(history, lag, now);
  }

  function Accepting(l: Ledger, device: string, now: real): Ledger {
    var history := Stored(l.accepted, device);
    l.(accepted := l.accepted[device := history + [now]], open := l.open + {(device, |history|)})
  }

  function Storing(l: Ledger, device: string, ticket: nat, id: string): Ledger {
    l.(place := l.place[id := ticket], open := l.open - {(device, ticket)})
  }

  lemma BackedAfterAccept(sessions: map<string, Session>, l: Ledger, lag: real, device: string, now: real)
    requires Backed(sessions, l, lag, now)
    ensures Backed(sessions, Accepting(l, device, now), lag, now)
  {
    var l' := Accepting(l, device, now);
    forall d ensures Stored(l.accepted, d) <= Stored(l'.accepted, d) {
      assert d != device ==> Stored(l'.accepted, d) == Stored(l.accepted, d);
    }
    hide Stored;
  }

  lemma BackedAfterStore(sessions: map<string, Session>, l: Ledger, lag: real, device: string, ticket: nat, id: string, now: real)
    requires Backed(sessions, l, lag, now) && id !in sessions && (device, ticket) in l.open
    requires ticket < |Stored(l.accepted, device)| && Stored(l.accepted, device)[ticket] <= now <= Stored(l.accepted, device)[ticket] + lag
    ensures Backed(sessions[id := Session(device, now, now + SESSION_TTL)], Storing(l, device, ticket, id), lag, now)
  {
  }

  lemma BackedWhileLive(sessions: map<string, Session>, l: Ledger, lag: real, clock: real, now: real)
    requires Backed(sessions, l, lag, clock) && clock <= now
    ensures Backed(Live(sessions, now), l, lag, now)
  {
  }

  /** The sessions are those ever stored whose lifetime is not over. */
  ghost predicate Lasting(sessions: map<string, Session>, issued: map<string, Session>, clock: real) {
    && (forall id <- issued :: issued[id].expiresAt == issued[id].createdAt + 90.0)
    && (forall id :: id in sessions <==> id in issued && clock < issued[id].expiresAt)
    && forall id <- sessions :: sessions[id] == issued[id]
  }

  lemma LastingWhileLive(sessions: map<string, Session>, issued: map<string, Session>, clock: real, now: real)
    requires Lasting(sessions, issued, clock) && clock <= now
    ensures Lasting(Live(sessions, now), issued, now)
    ensures forall id :: id in Live(sessions, now) <==> id in sessions && now < sessions[id].expiresAt
    ensures forall id <- Live(sessions, now) :: Live(sessions, now)[id] == sessions[id]
  {
  }

  lemma LastingAfterStore(sessions: map<string, Session>, issued: map<string, Session>, id: string, s: Session, now: real)
    requires Lasting(sessions, issued, now) && s.createdAt == now && s.expiresAt == now + 90.0
    ensures Lasting(sessions[id := s], issued[id := s], now)
  {
  }

  class Registry {
    var sessions: map<string, Session>
    var attempts: map<string, seq<real>>
    ghost var ledger: Ledger
    /** The session last stored under each id, over the whole run. */
    ghost var issued: map<string, Session>
    ghost var clock: real
    /** The longest time between the two readings of a request. */
    ghost const lag: real

    ghost predicate Valid()
      reads this
    {
      && (forall device ::
            Keeps(Stored(attempts, device), Stored(ledger.accepted, device), RATE_WINDOW, RATE_LIMIT, clock))
      && Backed(sessions, ledger, lag, clock)
      && Lasting(sessions, issued, clock)
    }

    constructor (now: real, ghost lag: real)
      ensures Valid() && clock == now && sessions == map[] && ledger == Ledger(map[], map[], {}) && this.lag == lag
      ensures issued == map[]
    {
      sessions, attempts, ledger, issued, clock, this.lag := map[], map[], Ledger(map[], map[], {}), map[], now, lag;
      KeepsNothing(RATE_WINDOW, RATE_LIMIT, now);
    }

    /** Exactly the expired sessions go, and only recent attempts stay. */
    method Cleanup(now: real)
      requires Valid() && clock <= now
      modifies this
      ensures Valid() && clock == now && ledger == old(ledger) && issued == old(issued)
      ensures forall id :: id in sessions <==> id in old(sessions) && now < old(sessions)[id].expiresAt
      ensures forall id <- sessions :: sessions[id] == old(sessions)[id]
      ensures forall device :: Stored(attempts, device) == Inside(Stored(ledger.accepted, device), RATE_WINDOW, now)
    {
      hide Keeps, Inside, Backed, Lasting, Live;
      BackedWhileLive(sessions, ledger, lag, clock, now);
      LastingWhileLive(sessions, issued, clock, now);
      sessions := Live(sessions, now);
      forall device ensures
          && Keeps(Prune(Stored(attempts, device), RATE_WINDOW, now), Stored(ledger.accepted, device), RATE_WINDOW, RATE_LIMIT, now)
          && Prune(Stored(attempts, device), RATE_WINDOW, now) == Inside(Stored(ledger.accepted, device), RATE_WINDOW, now)
      {
        KeepsLater(Stored(attempts, device), Stored(ledger.accepted, device), RATE_WINDOW, RATE_LIMIT, clock, now);
      }
      ghost var before := attempts;
      attempts := map device | device in attempts && Prune(attempts[device], RATE_WINDOW, now) != []
                    :: Prune(attempts[device], RATE_WINDOW, now);
      assert forall device :: Stored(attempts, device) == Prune(Stored(before, device), RATE_WINDOW, now);
      clock := now;
    }

    /** The first critical section: accepted exactly when fewer than six requests of the device were accepted in the
        last minute of the whole run. */
    method RateLimit(device: string, now: real) returns (accepts: bool)
      requires Valid() && clock <= now
      modifies this
      ensures Valid() && clock == now && issued == old(issued)
      ensures forall id :: id in sessions <==> id in old(sessions) && now < old(sessions)[id].expiresAt
      ensures var h := Stored(old(ledger).accepted, device); accepts <==> |h| < 6 || now - h[|h| - 6] >= 60.0
      ensures ledger == if accepts then Accepting(old(ledger), device, now) else old(ledger)
    {
      hide Keeps, Inside, Backed;
      Cleanup(now);
      var values := Stored(attempts, device);
      assert Keeps(values, Stored(ledger.accepted, device), RATE_WINDOW, RATE_LIMIT, now);
      KeepsFree(values, Stored(ledger.accepted, device), RATE_WINDOW, RATE_LIMIT, now);
      accepts := |values| < RATE_LIMIT;
      if accepts {
        KeepsAccepted(values, Stored(ledger.accepted, device), RATE_WINDOW, RATE_LIMIT, now);
        BackedAfterAccept(sessions, ledger, lag, device, now);
        ghost var attempts0, ledger0 := attempts, ledger;
        attempts := attempts[device := values + [now]];
        ledger := Accepting(ledger, device, now);
        forall d ensures Keeps(Stored(attempts, d), Stored(ledger.accepted, d), RATE_WINDOW, RATE_LIMIT, now) {
          if d != device {
            assert Stored(attempts, d) == Stored(attempts0, d) && Stored(ledger.accepted, d) == Stored(ledger0.accepted, d);
          }
        }
      }
    }

    /** The second critical section, for an accepted request; others may come between the two. */
    method StoreSession(device: string, id: string, ghost ticket: nat, now: real)
      requires Valid() && clock <= now && id !in sessions && (device, ticket) in ledger.open
      requires ticket < |Stored(ledger.accepted, device)| && Stored(ledger.accepted, device)[ticket] <= now
      requires now <= Stored(ledger.accepted, device)[ticket] + lag
      modifies this
      ensures Valid() && clock == now && ledger == Storing(old(ledger), device, ticket, id)
      ensures issued == old(issued)[id := Session(device, now, now + 90.0)]
      ensures id in sessions && sessions[id] == Session(device, now, now + 90.0)
      ensures forall other | other != id :: other in sessions <==> other in old(sessions) && now < old(sessions)[other].expiresAt
    {
      hide Keeps, Inside, Backed, Lasting;
      Cleanup(now);
      LastingAfterStore(sessions, issued, id, Session(device, now, now + SESSION_TTL), now);
      BackedAfterStore(sessions, ledger, lag, device, ticket, id, now);
      sessions, issued := sessions[id := Session(device, now, now + SESSION_TTL)], issued[id := Session(device, now, now + SESSION_TTL)];
      ledger := Storing(ledger, device, ticket, id);
    }

    /** A prepare request of an authenticated device, undisturbed. A session that was stored is there for ninety
        seconds, whatever other requests come in between, and is gone at the first request after that. If the two
        readings of every request are at most half a minute apart, a device never has more than twelve live sessions. */
    method Prepare(device: string, id: string, now: real, later: real) returns (accepts: bool)
      requires Valid() && clock <= now <= later <= now + lag && id !in sessions
      modifies this
      ensures Valid() && clock == if accepts then later else now
      ensures var h := Stored(old(ledger).accepted, device); accepts <==> |h| < 6 || now - h[|h| - 6] >= 60.0
      ensures issued == if accepts then old(issued)[id := Session(device, later, later + 90.0)] else old(issued)
      ensures forall other :: other in sessions <==> other in issued && clock < issued[other].createdAt + 90.0
      ensures forall other <- sessions :: sessions[other] == issued[other]
      ensures !accepts ==> ledger == old(ledger)
      ensures accepts ==> ledger.accepted == old(ledger).accepted[device := Stored(old(ledger).accepted, device) + [now]]
      ensures forall d :: Limited(Stored(ledger.accepted, d), RATE_WINDOW, RATE_LIMIT)
      ensures lag <= 30.0 ==> forall d :: |LiveOf(sessions, d, clock)| <= 2 * RATE_LIMIT
    {
      hide Keeps, Inside, Backed;
      ghost var ticket := |Stored(ledger.accepted, device)|;
      accepts := RateLimit(device, now);
      if accepts {
        StoreSession(device, id, ticket, later);
      }
      Consequences();
    }

    /** At the end of every critical section, in any order of the requests: a session stored at some time is in the
        registry if and only if less than ninety seconds have passed since. */
    lemma Consequences()
      requires Valid()
      ensures forall id :: id in sessions <==> id in issued && clock < issued[id].createdAt + 90.0
      ensures forall id <- sessions :: sessions[id] == issued[id]
      ensures forall d :: Limited(Stored(ledger.accepted, d), RATE_WINDOW, RATE_LIMIT)
      ensures lag <= 30.0 ==> forall d :: |LiveOf(sessions, d, clock)| <= 2 * RATE_LIMIT
    {
      forall d
        ensures Limited(Stored(ledger.accepted, d), RATE_WINDOW, RATE_LIMIT)
        ensures lag <= 30.0 ==> |LiveOf(sessions, d, clock)| <= 2 * RATE_LIMIT
      {
        assert Keeps(Stored(attempts, d), Stored(ledger.accepted, d), RATE_WINDOW, RATE_LIMIT, clock);
        if lag <= 30.0 {
          LiveIsBounded(sessions, ledger, lag, d, clock);
        }
      }
    }
  }
}
