/**
 Sliding windows over a history of accepted times, shared by the request gate of the enrollment server,
 the traversal rate limit and the restart limit of self-healing. A history is what a limiter accepted over
 a whole run; the list that it actually stores only has to agree with the history on what is recent.
 */
module SlidingWindow {
  /** A window reaches `length` back in time; a closed one includes its far end. */
  datatype Window = Window(length: real, closed: bool)

  predicate Recent(w: Window, now: real, t: real) {
    if w.closed then now - t <= w.length else now - t < w.length
  }

  /** The stored times that are still recent, as every limiter computes them. */
  function Prune(times: seq<real>, w: Window, now: real): seq<real> {
    if times == [] then []
    else
      var last := |times| - 1;
      Prune(times[..last], w, now) + if Recent(w, now, times[last]) then [times[last]] else []
  }

  /** The times of a history inside the window that ends at `t`. */
  function Inside(history: seq<real>, w: Window, t: real): seq<real> {
    if history == [] then []
    else
      var last := |history| - 1;
      Inside(history[..last], w, t)
      + if history[last] <= t && Recent(w, t, history[last]) then [history[last]] else []
  }

  ghost predicate Sorted(times: seq<real>) {
    forall i, j :: 0 <= i < j < |times| ==> times[i] <= times[j]
  }

  ghost predicate Past(times: seq<real>, now: real) {
    forall i :: 0 <= i < |times| ==> times[i] <= now
  }

  /** No window of this shape, wherever it ends, holds more than `limit` accepted times. */
  ghost predicate Limited(history: seq<real>, w: Window, limit: nat) {
    forall t :: |Inside(history, w, t)| <= limit
  }

  /** From `clock` on, pruning the stored times gives exactly the recent part of the history. */
  ghost predicate Stores(times: seq<real>, history: seq<real>, w: Window, clock: real) {
    forall now :: clock <= now ==> Prune(times, w, now) == Inside(history, w, now)
  }

  lemma {:induction false} LaterHoldsFewer(history: seq<real>, w: Window, now: real, t: real)
    requires Past(history, now) && now <= t
    ensures |Inside(history, w, t)| <= |Inside(history, w, now)|
  {
    if history != [] {
      LaterHoldsFewer(history[..|history| - 1], w, now, t);
    }
  }

  lemma InsideAppend(history: seq<real>, w: Window, now: real, t: real)
    ensures Inside(history + [now], w, t)
            == Inside(history, w, t) + if now <= t && Recent(w, t, now) then [now] else []
  {
    assert (history + [now])[..|history|] == history;
  }

  lemma PruneAppend(times: seq<real>, w: Window, now: real, t: real)
    ensures Prune(times + [t], w, now) == Prune(times, w, now) + if Recent(w, now, t) then [t] else []
  {
  }

  /** Accepting a time keeps every window within the limit, if the window that ends now was not full. */
  lemma AcceptKeepsLimit(history: seq<real>, w: Window, limit: nat, now: real)
    requires Past(history, now) && Limited(history, w, limit) && |Inside(history, w, now)| < limit
    ensures Limited(history + [now], w, limit)
  {
    forall t ensures |Inside(history + [now], w, t)| <= limit {
      InsideAppend(history, w, now, t);
      if now <= t {
        LaterHoldsFewer(history, w, now, t);
      }
    }
  }

  /** Accepting when the window is full breaks the limit: the test is the weakest possible one. */
  lemma FullWindowMustRefuse(history: seq<real>, w: Window, limit: nat, now: real)
    requires w.length > 0.0 && |Inside(history, w, now)| >= limit
    ensures !Limited(history + [now], w, limit)
  {
    InsideAppend(history, w, now, now);
  }

  lemma {:induction false} PruneTwice(times: seq<real>, w: Window, t: real, now: real)
    requires t <= now
    ensures Prune(Prune(times, w, t), w, now) == Prune(times, w, now)
  {
    if times != [] {
      var last := |times| - 1;
      PruneTwice(times[..last], w, t, now);
      if Recent(w, t, times[last]) {
        PruneAppend(Prune(times[..last], w, t), w, now, times[last]);
      } else {
        assert Prune(times[..last], w, t) + [] == Prune(times[..last], w, t);
      }
    }
  }

  lemma PruneKeepsStored(times: seq<real>, history: seq<real>, w: Window, clock: real, now: real)
    requires clock <= now && Stores(times, history, w, clock)
    ensures Stores(Prune(times, w, now), history, w, now)
  {
    forall t | now <= t ensures Prune(Prune(times, w, now), w, t) == Inside(history, w, t) {
      PruneTwice(times, w, now, t);
    }
  }

  lemma AcceptKeepsStored(times: seq<real>, history: seq<real>, w: Window, now: real)
    requires Stores(times, history, w, now)
    ensures Stores(times + [now], history + [now], w, now)
  {
  }

  lemma {:induction false} PruneIsSorted(times: seq<real>, w: Window, now: real)
    requires Sorted(times)
    ensures Sorted(Prune(times, w, now)) && forall t <- Prune(times, w, now) :: t in times
  {
    if times != [] {
      var last := |times| - 1;
      PruneIsSorted(times[..last], w, now);
      var init := Prune(times[..last], w, now);
      forall i | 0 <= i < |init| ensures init[i] <= times[last] {
        assert init[i] in init;
      }
    }
  }

  /** On sorted times, what is recent is a suffix: dropping from the front until the first recent time prunes. */
  lemma {:induction false} DropIsPrune(times: seq<real>, w: Window, now: real, k: nat)
    requires Sorted(times) && k <= |times|
    requires forall i :: 0 <= i < k ==> !Recent(w, now, times[i])
    requires k < |times| ==> Recent(w, now, times[k])
    ensures Prune(times, w, now) == times[k..]
  {
    if times != [] {
      var last := |times| - 1;
      if k <= last {
        assert Recent(w, now, times[last]) by {
          assert k < last ==> times[k] <= times[last];
        }
        assert times[k..] == times[..last][k..] + [times[last]];
        DropIsPrune(times[..last], w, now, k);
      } else {
        DropIsPrune(times[..last], w, now, last);
        assert times[..last][last..] == [];
      }
    }
  }

  /** Two adjacent windows cover the double window. */
  lemma {:induction false} DoubleWindow(history: seq<real>, w: Window, t: real)
    requires w.length > 0.0
    ensures |Inside(history, w.(length := 2.0 * w.length), t)|
            <= |Inside(history, w, t)| + |Inside(history, w, t - w.length)|
  {
    if history != [] {
      DoubleWindow(history[..|history| - 1], w, t);
    }
  }

  /** A list of stored times that keeps `history` within `limit`, as of `clock`. */
  ghost predicate Keeps(times: seq<real>, history: seq<real>, w: Window, limit: nat, clock: real) {
    && Sorted(times) && Past(times, clock) && Sorted(history) && Past(history, clock)
    && Stores(times, history, w, clock)
    && Limited(history, w, limit)
  }

  lemma KeepsNothing(w: Window, limit: nat, clock: real)
    ensures Keeps([], [], w, limit, clock)
  {
  }

  lemma KeepsLater(times: seq<real>, history: seq<real>, w: Window, limit: nat, clock: real, now: real)
    requires Keeps(times, history, w, limit, clock) && clock <= now
    ensures Sorted(times) && Keeps(times, history, w, limit, now)
    ensures Keeps(Prune(times, w, now), history, w, limit, now)
    ensures Prune(times, w, now) == Inside(history, w, now)
  {
    PruneKeepsStored(times, history, w, clock, now);
    PruneIsSorted(times, w, now);
    var pruned := Prune(times, w, now);
    forall i | 0 <= i < |pruned| ensures pruned[i] <= now {
      assert pruned[i] in pruned;
    }
  }

  lemma KeepsAccepted(times: seq<real>, history: seq<real>, w: Window, limit: nat, now: real)
    requires Keeps(times, history, w, limit, now) && |Inside(history, w, now)| < limit
    ensures Keeps(times + [now], history + [now], w, limit, now)
  {
    AcceptKeepsLimit(history, w, limit, now);
    AcceptKeepsStored(times, history, w, now);
  }

  /** What a limit means for single times: the accepted time that comes `limit` places later is no longer
      in the same window. */
  lemma {:induction false} LimitedMeansSpaced(history: seq<real>, w: Window, limit: nat, i: nat)
    requires Sorted(history) && Limited(history, w, limit) && i + limit < |history|
    ensures !Recent(w, history[i + limit], history[i])
  {
    var t := history[i + limit];
    if Recent(w, t, history[i]) {
      SuffixInside(history, w, i, i + limit + 1);
      PrefixInside(history, w, i + limit + 1, t);
    }
  }

  /** A stretch of recent times is inside the window of its last element. */
  lemma {:induction false} SuffixInside(history: seq<real>, w: Window, i: nat, n: nat)
    requires Sorted(history) && i < n <= |history| && Recent(w, history[n - 1], history[i])
    ensures |Inside(history[..n], w, history[n - 1])| >= n - i
  {
    CountInside(history[..n], w, i, history[n - 1]);
  }

  lemma {:induction false} CountInside(history: seq<real>, w: Window, i: nat, t: real)
    requires Sorted(history) && i <= |history| && Past(history, t)
    requires forall k :: i <= k < |history| ==> Recent(w, t, history[k])
    ensures |Inside(history, w, t)| >= |history| - i
  {
    if i < |history| {
      CountInside(history[..|history| - 1], w, i, t);
    }
  }

  lemma {:induction false} PrefixInside(history: seq<real>, w: Window, n: nat, t: real)
    requires n <= |history|
    ensures |Inside(history[..n], w, t)| <= |Inside(history, w, t)|
  {
    if n < |history| {
      assert history[..|history| - 1][..n] == history[..n];
      PrefixInside(history[..|history| - 1], w, n, t);
    } else {
      assert history[..n] == history;
    }
  }

  /** What a window that is not full means for single times: there are fewer, or the one that came `limit` places
      back is no longer recent. */
  lemma FreeMeans(history: seq<real>, w: Window, limit: nat, now: real)
    requires Sorted(history) && Past(history, now) && limit > 0
    ensures |Inside(history, w, now)| < limit <==> |history| < limit || !Recent(w, now, history[|history| - limit])
  {
    var k := InsideIsSuffix(history, w, now);
    if |history| >= limit {
      assert k <= |history| - limit ==> Recent(w, now, history[|history| - limit]);
    }
  }

  /** A full window begins with the time that was accepted `limit` places back. */
  lemma FullMeans(history: seq<real>, w: Window, limit: nat, now: real)
    requires Sorted(history) && Past(history, now) && |Inside(history, w, now)| == limit > 0
    ensures limit <= |history| && Inside(history, w, now)[0] == history[|history| - limit]
  {
    var k := InsideIsSuffix(history, w, now);
  }

  lemma KeepsFree(times: seq<real>, history: seq<real>, w: Window, limit: nat, now: real)
    requires Keeps(times, history, w, limit, now) && limit > 0
    ensures |Inside(history, w, now)| < limit <==> |history| < limit || !Recent(w, now, history[|history| - limit])
  {
    FreeMeans(history, w, limit, now);
  }

  lemma {:induction false} FirstRecent(times: seq<real>, w: Window, now: real) returns (k: nat)
    ensures k <= |times| && (forall i :: 0 <= i < k ==> !Recent(w, now, times[i])) && (k < |times| ==> Recent(w, now, times[k]))
  {
    k := 0;
    if times != [] {
      var last := |times| - 1;
      k := FirstRecent(times[..last], w, now);
      if k == last && !Recent(w, now, times[last]) {
        k := |times|;
      }
    }
  }

  lemma {:induction false} InsideIsPrune(history: seq<real>, w: Window, now: real)
    requires Past(history, now)
    ensures Inside(history, w, now) == Prune(history, w, now)
  {
    if history != [] {
      InsideIsPrune(history[..|history| - 1], w, now);
    }
  }

  lemma InsideIsSuffix(history: seq<real>, w: Window, now: real) returns (k: nat)
    requires Sorted(history) && Past(history, now)
    ensures k <= |history| && Inside(history, w, now) == history[k..]
    ensures forall i :: 0 <= i < |history| ==> (Recent(w, now, history[i]) <==> k <= i)
  {
    k := FirstRecent(history, w, now);
    DropIsPrune(history, w, now, k);
    InsideIsPrune(history, w, now);
    hide Inside, Prune;
    forall i | k <= i < |history| ensures Recent(w, now, history[i]) {
      assert history[k] <= history[i];
    }
  }

  // ---------- Whole runs ----------

  /** What a limiter has accepted after a run of requests: each one exactly when its window is not full. */
  function Accepted(requests: seq<real>, w: Window, limit: nat): seq<real> {
    if requests == [] then []
    else
      var last := |requests| - 1;
      var history := Accepted(requests[..last], w, limit);
      if |Inside(history, w, requests[last])| < limit then history + [requests[last]] else history
  }

  lemma {:induction false} AcceptedPast(requests: seq<real>, w: Window, limit: nat, now: real)
    requires Past(requests, now)
    ensures Past(Accepted(requests, w, limit), now)
  {
    if requests != [] {
      AcceptedPast(requests[..|requests| - 1], w, limit, now);
    }
  }

  /** Over any run of requests with a clock that does not go back, every window holds at most `limit`
      accepted requests. */
  lemma {:induction false} RunStaysLimited(requests: seq<real>, w: Window, limit: nat)
    requires Sorted(requests)
    ensures Limited(Accepted(requests, w, limit), w, limit)
  {
    if requests != [] {
      var last := |requests| - 1;
      RunStaysLimited(requests[..last], w, limit);
      AcceptedPast(requests[..last], w, limit, requests[last]);
      var history := Accepted(requests[..last], w, limit);
      if |Inside(history, w, requests[last])| < limit {
        AcceptKeepsLimit(history, w, limit, requests[last]);
      }
    }
  }

  // ---------- Drift ----------

  /** Each of the times comes after its counterpart in the history, by at most `drift`. */
  ghost predicate Follows(times: seq<real>, history: seq<real>, drift: real) {
    |times| == |history| && forall i :: 0 <= i < |times| ==> history[i] <= times[i] && times[i] <= history[i] + drift
  }

  lemma {:induction false} DriftHoldsFewer(times: seq<real>, history: seq<real>, w: Window, drift: real, t: real)
    requires Follows(times, history, drift)
    ensures |Inside(times, w.(length := w.length - drift), t)| <= |Inside(history, w, t)|
  {
    if times != [] {
      DriftHoldsFewer(times[..|times| - 1], history[..|history| - 1], w, drift, t);
    }
  }

  /** What a limit on a history means for events that follow it: the window is shorter by the drift. */
  lemma DriftedStaysLimited(times: seq<real>, history: seq<real>, w: Window, limit: nat, drift: real)
    requires Follows(times, history, drift) && Limited(history, w, limit)
    ensures Limited(times, w.(length := w.length - drift), limit)
  {
    var v := w.(length := w.length - drift);
    forall t ensures |Inside(times, v, t)| <= limit {
      DriftHoldsFewer(times, history, w, drift, t);
      assert |Inside(history, w, t)| <= limit;
    }
  }
}
