/**
 The request gate of the enrollment server (pairing_server.py, `allowed_request`): at most 20 requests
 per address in any closed 60-second window.
 */
module RequestGate {
  import opened SlidingWindow

  const RATE_LIMIT: nat := 20
  const RATE_WINDOW := Window(60.0, true)

  method DropOld(times: seq<real>, now: real) returns (q: seq<real>)
    requires Sorted(times)
    ensures q == Prune(times, RATE_WINDOW, now)
  {
    q := times;
    ghost var dropped := 0;
    while q != [] && now - q[0] > RATE_WINDOW.length
      invariant dropped <= |times| && q == times[dropped..]
      invariant forall i :: 0 <= i < dropped ==> !Recent(RATE_WINDOW, now, times[i])
      decreases |q|
    {
      q := q[1..];
      dropped := dropped + 1;
    }
    DropIsPrune(times, RATE_WINDOW, now, dropped);
  }

  class Gate {
    var attempts: map<string, seq<real>>
    /** What each address was allowed over the whole run, and the latest clock reading. */
    ghost var accepted: map<string, seq<real>>
    ghost var clock: real

    ghost function Deque(ip: string): seq<real>
      reads this
    {
      if ip in attempts then attempts[ip] else []
    }

    ghost function History(ip: string): seq<real>
      reads this
    {
      if ip in accepted then accepted[ip] else []
    }

    ghost predicate Valid()
      reads this
    {
      forall ip :: Keeps(Deque(ip), History(ip), RATE_WINDOW, RATE_LIMIT, clock)
    }

    constructor (now: real)
      ensures Valid() && clock == now && forall ip :: History(ip) == []
    {
      attempts := map[];
      accepted := map[];
      clock := now;
      KeepsNothing(RATE_WINDOW, RATE_LIMIT, now);
    }

    /** A request is allowed exactly when fewer than 20 were allowed to its address in the closed minute that
        ends now, counted over the whole run; every window of the run stays within the limit. */
    method AllowedRequest(ip: string, now: real) returns (allowed: bool)
      requires Valid() && clock <= now
      modifies this
      ensures Valid() && clock == now
      ensures var h := old(History(ip)); allowed <==> |h| < 20 || now - h[|h| - 20] > 60.0
      ensures History(ip) == old(History(ip)) + if allowed then [now] else []
      ensures forall other | other != ip :: History(other) == old(History(other)) && Deque(other) == old(Deque(other))
    {
      hide Keeps, Inside, Prune, Sorted;
      var q := if ip in attempts then attempts[ip] else [];
      ghost var stored, history := q, History(ip);
      KeepsLater(stored, history, RATE_WINDOW, RATE_LIMIT, clock, now);
      KeepsFree(stored, history, RATE_WINDOW, RATE_LIMIT, now);
      q := DropOld(q, now);
      if |q| >= RATE_LIMIT {
        allowed := false;
      } else {
        KeepsAccepted(q, history, RATE_WINDOW, RATE_LIMIT, now);
        q := q + [now];
        accepted := accepted[ip := history + [now]];
        allowed := true;
      }
      attempts := attempts[ip := q];
      clock := now;
      forall other | other != ip ensures Keeps(Deque(other), History(other), RATE_WINDOW, RATE_LIMIT, now) {
        assert Deque(other) == old(Deque(other)) && History(other) == old(History(other));
        KeepsLater(Deque(other), History(other), RATE_WINDOW, RATE_LIMIT, old(clock), now);
      }
    }
  }
}
