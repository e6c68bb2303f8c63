/**
 The bucketing loops of metrics.py (`query_series`): cumulative counters are turned into positive
 differences, and every row adds its amounts to the bucket that its time falls in.
 */
module Metrics {
  function Bucket(ts: int, size: int): int
    requires size > 0
  {
    ts / size * size
  }

  function Sum(values: seq<int>): int {
    if values == [] then 0 else Sum(values[..|values| - 1]) + values[|values| - 1]
  }

  /** How much a counter grew at each row: nothing at the first one, nor where it went back. */
  function Growths(counters: seq<int>): (g: seq<int>)
    ensures |g| == |counters|
  {
    seq(|counters|, i requires 0 <= i < |counters| =>
      if i == 0 || counters[i] < counters[i - 1] then 0 else counters[i] - counters[i - 1])
  }

  /** The part of the amounts that belongs to bucket `b`. */
  function Share(times: seq<int>, amounts: seq<int>, size: int, b: int): int
    requires size > 0 && |times| == |amounts|
  {
    if times == [] then 0
    else
      var last := |times| - 1;
      Share(times[..last], amounts[..last], size, b) + if Bucket(times[last], size) == b then amounts[last] else 0
  }

  ghost predicate Increasing(keys: seq<int>) {
    forall i, j :: 0 <= i < j < |keys| ==> keys[i] < keys[j]
  }

  /** The keys are the buckets in which rows occur, in order. */
  ghost predicate BucketsOf(keys: seq<int>, times: seq<int>, size: int)
    requires size > 0
  {
    && Increasing(keys)
    && (forall t <- times :: Bucket(t, size) in keys)
    && (forall k <- keys :: exists t <- times :: Bucket(t, size) == k)
  }

  // ---------- Conservation ----------

  function Shares(times: seq<int>, amounts: seq<int>, size: int, keys: seq<int>): (s: seq<int>)
    requires size > 0 && |times| == |amounts|
    ensures |s| == |keys|
  {
    seq(|keys|, i requires 0 <= i < |keys| => Share(times, amounts, size, keys[i]))
  }

  function Spike(keys: seq<int>, b: int, amount: int): (s: seq<int>)
    ensures |s| == |keys|
  {
    seq(|keys|, i requires 0 <= i < |keys| => if keys[i] == b then amount else 0)
  }

  lemma {:induction false} SumOfSpike(keys: seq<int>, b: int, amount: int)
    requires Increasing(keys)
    ensures Sum(Spike(keys, b, amount)) == if b in keys then amount else 0
  {
    if keys != [] {
      var init := keys[..|keys| - 1];
      assert Spike(keys, b, amount)[..|keys| - 1] == Spike(init, b, amount);
      SumOfSpike(init, b, amount);
      assert keys == init + [keys[|keys| - 1]];
    }
  }

  lemma {:induction false} SumOfPointwise(u: seq<int>, v: seq<int>, w: seq<int>)
    requires |u| == |v| == |w| && forall i :: 0 <= i < |u| ==> w[i] == u[i] + v[i]
    ensures Sum(w) == Sum(u) + Sum(v)
  {
    if u != [] {
      var last := |u| - 1;
      SumOfPointwise(u[..last], v[..last], w[..last]);
    }
  }

  /** Whatever the bucket size, the shares of all the buckets add up to the sum of the amounts. */
  lemma {:induction false} Conservation(times: seq<int>, amounts: seq<int>, size: int, keys: seq<int>)
    requires size > 0 && |times| == |amounts| && Increasing(keys)
    requires forall t <- times :: Bucket(t, size) in keys
    ensures Sum(Shares(times, amounts, size, keys)) == Sum(amounts)
  {
    if times == [] {
      assert Shares(times, amounts, size, keys) == Spike(keys, 0, 0);
      SumOfSpike(keys, 0, 0);
    } else {
      var last := |times| - 1;
      var b := Bucket(times[last], size);
      Conservation(times[..last], amounts[..last], size, keys);
      SumOfSpike(keys, b, amounts[last]);
      SumOfPointwise(Shares(times[..last], amounts[..last], size, keys), Spike(keys, b, amounts[last]),
                     Shares(times, amounts, size, keys));
    }
  }

  /** Hence two bucket sizes give the same grand total. */
  lemma BucketSizeIrrelevant(times: seq<int>, amounts: seq<int>, size: int, keys: seq<int>, size': int, keys': seq<int>)
    requires size > 0 && size' > 0 && |times| == |amounts|
    requires BucketsOf(keys, times, size) && BucketsOf(keys', times, size')
    ensures Sum(Shares(times, amounts, size, keys)) == Sum(Shares(times, amounts, size', keys'))
  {
    Conservation(times, amounts, size, keys);
    Conservation(times, amounts, size', keys');
  }

  ghost predicate Monotone(counters: seq<int>) {
    forall i, j :: 0 <= i <= j < |counters| ==> counters[i] <= counters[j]
  }

  lemma MonotoneStep(counters: seq<int>, last: nat)
    requires |counters| == last + 1 && last > 0
    ensures Monotone(counters) <==> Monotone(counters[..last]) && counters[last - 1] <= counters[last]
  {
  }

  /** The growths of a counter add up to its last value minus its first exactly when it never goes back;
      otherwise they add up to more. */
  lemma {:induction false} GrowthTelescopes(counters: seq<int>)
    requires counters != []
    ensures Sum(Growths(counters)) >= counters[|counters| - 1] - counters[0]
    ensures Sum(Growths(counters)) == counters[|counters| - 1] - counters[0] <==> Monotone(counters)
  {
    var last := |counters| - 1;
    if last == 0 {
      assert Growths(counters) == [0] && Sum([0]) == Sum([0][..0]) + 0;
    } else {
      GrowthTelescopes(counters[..last]);
      assert Growths(counters)[..last] == Growths(counters[..last]);
      MonotoneStep(counters, last);
    }
  }

  lemma BucketIsAligned(ts: int, size: int)
    requires size > 0
    ensures Bucket(ts, size) <= ts < Bucket(ts, size) + size
    ensures exists q :: Bucket(ts, size) == q * size
  {
    assert Bucket(ts, size) == ts / size * size;
  }

  // ---------- The loops ----------

  datatype DeviceRow = DeviceRow(ts: int, rx: int, tx: int, connected: bool)

  datatype DevicePoint = DevicePoint(ts: int, rx: int, tx: int, connected: int, samples: int)

  datatype BridgeRow = BridgeRow(ts: int, connections: int, errors: int, uptime: real)

  datatype BridgePoint = BridgePoint(ts: int, uptime: real, connections: int, errors: int)

  function Times(rows: seq<DeviceRow>): (s: seq<int>)
    ensures |s| == |rows|
  {
    seq(|rows|, i requires 0 <= i < |rows| => rows[i].ts)
  }

  function Rx(rows: seq<DeviceRow>): (s: seq<int>)
    ensures |s| == |rows|
  {
    Growths(seq(|rows|, i requires 0 <= i < |rows| => rows[i].rx))
  }

  function Tx(rows: seq<DeviceRow>): (s: seq<int>)
    ensures |s| == |rows|
  {
    Growths(seq(|rows|, i requires 0 <= i < |rows| => rows[i].tx))
  }

  function Connected(rows: seq<DeviceRow>): (s: seq<int>)
    ensures |s| == |rows|
  {
    seq(|rows|, i requires 0 <= i < |rows| => if rows[i].connected then 1 else 0)
  }

  function Ones(n: nat): seq<int> {
    seq(n, _ => 1)
  }

  lemma {:induction false} SumOfOnes(n: nat)
    ensures Sum(Ones(n)) == n
  {
    if n > 0 {
      SumOfOnes(n - 1);
      assert Ones(n)[..n - 1] == Ones(n - 1);
    }
  }

  /** The point of bucket `b`, after the first `n` rows. */
  function PointAt(rows: seq<DeviceRow>, n: nat, size: int, b: int): DevicePoint
    requires size > 0 && n <= |rows|
  {
    var t := Times(rows)[..n];
    DevicePoint(b, Share(t, Rx(rows)[..n], size, b), Share(t, Tx(rows)[..n], size, b),
                Share(t, Connected(rows)[..n], size, b), Share(t, Ones(n), size, b))
  }

  lemma ShareStep(times: seq<int>, amounts: seq<int>, n: nat, size: int, b: int)
    requires size > 0 && |times| == |amounts| && n < |times|
    ensures Share(times[..n + 1], amounts[..n + 1], size, b)
            == Share(times[..n], amounts[..n], size, b) + if Bucket(times[n], size) == b then amounts[n] else 0
  {
    assert times[..n + 1][..n] == times[..n] && amounts[..n + 1][..n] == amounts[..n];
  }

  lemma PointStep(rows: seq<DeviceRow>, n: nat, size: int, b: int)
    requires size > 0 && n < |rows|
    ensures var p := PointAt(rows, n, size, b);
            PointAt(rows, n + 1, size, b)
            == if Bucket(rows[n].ts, size) != b then p
               else DevicePoint(b, p.rx + Rx(rows)[n], p.tx + Tx(rows)[n],
                                p.connected + (if rows[n].connected then 1 else 0), p.samples + 1)
    ensures PointAt(rows, n, size, b).ts == b
    ensures Rx(rows)[n] == if n == 0 || rows[n].rx <= rows[n - 1].rx then 0 else rows[n].rx - rows[n - 1].rx
    ensures Tx(rows)[n] == if n == 0 || rows[n].tx <= rows[n - 1].tx then 0 else rows[n].tx - rows[n - 1].tx
  {
    var t := Times(rows);
    ShareStep(t, Rx(rows), n, size, b);
    ShareStep(t, Tx(rows), n, size, b);
    ShareStep(t, Connected(rows), n, size, b);
    ShareStep(t, Ones(|rows|), n, size, b);
    assert Ones(|rows|)[..n] == Ones(n) && Ones(|rows|)[..n + 1] == Ones(n + 1);
  }

  lemma {:induction false} ShareOfAbsent(times: seq<int>, amounts: seq<int>, size: int, b: int)
    requires size > 0 && |times| == |amounts| && forall t <- times :: Bucket(t, size) != b
    ensures Share(times, amounts, size, b) == 0
  {
    if times != [] {
      var last := |times| - 1;
      ShareOfAbsent(times[..last], amounts[..last], size, b);
    }
  }

  /** The keys of a bucket dictionary, in increasing order. */
  method SortedKeys(keys: set<int>) returns (sorted: seq<int>)
    ensures Increasing(sorted) && forall k :: k in sorted <==> k in keys
  {
    sorted := [];
    var rest := keys;
    while rest != {}
      invariant Increasing(sorted) && rest <= keys
      invariant forall k <- sorted, m <- rest :: k < m
      invariant forall k :: k in keys <==> k in sorted || k in rest
      decreases rest
    {
      var least := Least(rest);
      forall i | 0 <= i < |sorted| ensures sorted[i] < least {
        assert sorted[i] in sorted;
      }
      sorted, rest := sorted + [least], rest - {least};
    }
  }

  method Least(s: set<int>) returns (least: int)
    requires s != {}
    ensures least in s && forall m <- s :: least <= m
  {
    Inhabited(s);
    least :| least in s;
    var rest := s - {least};
    while exists m :: m in rest
      invariant rest <= s && least in s && forall m <- s :: m in rest || least <= m
      decreases rest
    {
      var m :| m in rest;
      least, rest := if m < least then m else least, rest - {m};
    }
  }

  lemma Inhabited(s: set<int>)
    requires s != {}
    ensures exists x :: x in s
  {
    assert (forall x :: x !in s) ==> s == {};
  }

  ghost predicate KeysOf(keys: set<int>, times: seq<int>, size: int)
    requires size > 0
  {
    forall k :: k in keys <==> exists t <- times :: Bucket(t, size) == k
  }

  /** The series of one device: one point per bucket that occurs, in order, whose counters conserve the
      growth of the cumulative counters and whose samples conserve the number of rows. */
  method DeviceSeries(rows: seq<DeviceRow>, size: int) returns (keys: seq<int>, series: seq<DevicePoint>)
    requires size > 0
    ensures BucketsOf(keys, Times(rows), size) && |series| == |keys|
    ensures forall k :: 0 <= k < |keys| ==> series[k] == PointAt(rows, |rows|, size, keys[k])
    ensures Sum(seq(|series|, k requires 0 <= k < |series| => series[k].rx)) == Sum(Rx(rows))
    ensures Sum(seq(|series|, k requires 0 <= k < |series| => series[k].tx)) == Sum(Tx(rows))
    ensures Sum(seq(|series|, k requires 0 <= k < |series| => series[k].samples)) == |rows|
  {
    var buckets := DeviceBuckets(rows, size);
    keys := SortedKeys(buckets.Keys);
    series := [];
    for k := 0 to |keys|
      invariant |series| == k
      invariant forall j :: 0 <= j < k ==> series[j] == PointAt(rows, |rows|, size, keys[j])
    {
      assert keys[k] in keys;
      series := series + [buckets[keys[k]]];
    }
    SeriesConserves(rows, size, keys, series);
  }

  method DeviceBuckets(rows: seq<DeviceRow>, size: int) returns (buckets: map<int, DevicePoint>)
    requires size > 0
    ensures KeysOf(buckets.Keys, Times(rows), size)
    ensures forall b <- buckets :: buckets[b] == PointAt(rows, |rows|, size, b)
  {
    hide PointAt, Rx, Tx;
    buckets := map[];
    var prev: seq<DeviceRow> := [];  // the previous row, when there is one
    ghost var times := Times(rows);
    for i := 0 to |rows|
      invariant prev == if i == 0 then [] else [rows[i - 1]]
      invariant KeysOf(buckets.Keys, times[..i], size)
      invariant forall b <- buckets :: buckets[b] == PointAt(rows, i, size, b)
    {
      var row := rows[i];
      var b := Bucket(row.ts, size);
      if b !in buckets {
        NewPoint(rows, i, size, b);
        buckets := buckets[b := DevicePoint(b, 0, 0, 0, 0)];
      }
      var item := buckets[b];
      if prev != [] {
        item := item.(rx := item.rx + Max0(row.rx - prev[0].rx), tx := item.tx + Max0(row.tx - prev[0].tx));
      }
      prev := [row];
      item := item.(connected := item.connected + (if row.connected then 1 else 0), samples := item.samples + 1);
      forall b' | b' in buckets ensures buckets[b := item][b'] == PointAt(rows, i + 1, size, b') {
        PointStep(rows, i, size, b');
      }
      buckets := buckets[b := item];
      assert times[..i + 1] == times[..i] + [row.ts];
    }
    assert times[..|rows|] == times;
  }

  function Max0(n: int): int {
    if n > 0 then n else 0
  }

  lemma NewPoint(rows: seq<DeviceRow>, n: nat, size: int, b: int)
    requires size > 0 && n <= |rows| && forall t <- Times(rows)[..n] :: Bucket(t, size) != b
    ensures PointAt(rows, n, size, b) == DevicePoint(b, 0, 0, 0, 0)
  {
    var t := Times(rows)[..n];
    ShareOfAbsent(t, Rx(rows)[..n], size, b);
    ShareOfAbsent(t, Tx(rows)[..n], size, b);
    ShareOfAbsent(t, Connected(rows)[..n], size, b);
    ShareOfAbsent(t, Ones(n), size, b);
  }

  lemma SeriesConserves(rows: seq<DeviceRow>, size: int, keys: seq<int>, series: seq<DevicePoint>)
    requires size > 0 && BucketsOf(keys, Times(rows), size) && |series| == |keys|
    requires forall k :: 0 <= k < |keys| ==> series[k] == PointAt(rows, |rows|, size, keys[k])
    ensures Sum(seq(|series|, k requires 0 <= k < |series| => series[k].rx)) == Sum(Rx(rows))
    ensures Sum(seq(|series|, k requires 0 <= k < |series| => series[k].tx)) == Sum(Tx(rows))
    ensures Sum(seq(|series|, k requires 0 <= k < |series| => series[k].samples)) == |rows|
  {
    var t, n := Times(rows), |series|;
    assert t[..|rows|] == t && Rx(rows)[..|rows|] == Rx(rows) && Tx(rows)[..|rows|] == Tx(rows);
    Conservation(t, Rx(rows), size, keys);
    Conservation(t, Tx(rows), size, keys);
    Conservation(t, Ones(|rows|), size, keys);
    SumOfOnes(|rows|);
    assert seq(n, k requires 0 <= k < n => series[k].rx) == Shares(t, Rx(rows), size, keys);
    assert seq(n, k requires 0 <= k < n => series[k].tx) == Shares(t, Tx(rows), size, keys);
    assert seq(n, k requires 0 <= k < n => series[k].samples) == Shares(t, Ones(|rows|), size, keys);
  }

  // ---------- The series of the bridge ----------

  function BridgeTimes(rows: seq<BridgeRow>): (s: seq<int>)
    ensures |s| == |rows|
  {
    seq(|rows|, i requires 0 <= i < |rows| => rows[i].ts)
  }

  function Connections(rows: seq<BridgeRow>): (s: seq<int>)
    ensures |s| == |rows|
  {
    Growths(seq(|rows|, i requires 0 <= i < |rows| => rows[i].connections))
  }

  function Errors(rows: seq<BridgeRow>): (s: seq<int>)
    ensures |s| == |rows|
  {
    Growths(seq(|rows|, i requires 0 <= i < |rows| => rows[i].errors))
  }

  /** The uptime reported last in bucket `b`. */
  function LastUptime(rows: seq<BridgeRow>, n: nat, size: int, b: int): real
    requires size > 0 && n <= |rows|
  {
    if n == 0 then 0.0
    else if Bucket(rows[n - 1].ts, size) == b then rows[n - 1].uptime
    else LastUptime(rows, n - 1, size, b)
  }

  /** It is that of the last of the rows that fall in the bucket. */
  lemma {:induction false} LastUptimeMeans(rows: seq<BridgeRow>, n: nat, size: int, b: int, i: nat)
    requires size > 0 && i < n <= |rows| && Bucket(rows[i].ts, size) == b
    requires forall j :: i < j < n ==> Bucket(rows[j].ts, size) != b
    ensures LastUptime(rows, n, size, b) == rows[i].uptime
  {
    hide Bucket;
    if i < n - 1 {
      LastUptimeMeans(rows, n - 1, size, b, i);
    }
  }

  function BridgeAt(rows: seq<BridgeRow>, n: nat, size: int, b: int): BridgePoint
    requires size > 0 && n <= |rows|
  {
    var t := BridgeTimes(rows)[..n];
    BridgePoint(b, LastUptime(rows, n, size, b),
                Share(t, Connections(rows)[..n], size, b), Share(t, Errors(rows)[..n], size, b))
  }

  lemma BridgeStep(rows: seq<BridgeRow>, n: nat, size: int, b: int)
    requires size > 0 && n < |rows|
    ensures var p := BridgeAt(rows, n, size, b);
            && p.ts == b
            && BridgeAt(rows, n + 1, size, b)
               == if Bucket(rows[n].ts, size) != b then p
                  else BridgePoint(b, rows[n].uptime, p.connections + Connections(rows)[n], p.errors + Errors(rows)[n])
    ensures Connections(rows)[n] == if n == 0 || rows[n].connections <= rows[n - 1].connections then 0 else rows[n].connections - rows[n - 1].connections
    ensures Errors(rows)[n] == if n == 0 || rows[n].errors <= rows[n - 1].errors then 0 else rows[n].errors - rows[n - 1].errors
  {
    ShareStep(BridgeTimes(rows), Connections(rows), n, size, b);
    ShareStep(BridgeTimes(rows), Errors(rows), n, size, b);
  }

  lemma NewBridgePoint(rows: seq<BridgeRow>, n: nat, size: int, b: int)
    requires size > 0 && n <= |rows| && forall t <- BridgeTimes(rows)[..n] :: Bucket(t, size) != b
    ensures BridgeAt(rows, n, size, b).connections == 0 && BridgeAt(rows, n, size, b).errors == 0
  {
    ShareOfAbsent(BridgeTimes(rows)[..n], Connections(rows)[..n], size, b);
    ShareOfAbsent(BridgeTimes(rows)[..n], Errors(rows)[..n], size, b);
  }

  /** One more row changes its own bucket only. */
  lemma BridgesStep(buckets: map<int, BridgePoint>, rows: seq<BridgeRow>, n: nat, size: int, item: BridgePoint)
    requires size > 0 && n < |rows| && forall b <- buckets :: buckets[b] == BridgeAt(rows, n, size, b)
    requires item == BridgeAt(rows, n + 1, size, Bucket(rows[n].ts, size))
    ensures var after := buckets[Bucket(rows[n].ts, size) := item];
            forall b <- after :: after[b] == BridgeAt(rows, n + 1, size, b)
  {
    hide BridgeAt, Bucket;
    var own := Bucket(rows[n].ts, size);
    forall b <- buckets | b != own ensures buckets[b] == BridgeAt(rows, n + 1, size, b) {
      BridgeStep(rows, n, size, b);
    }
  }

  /** The buckets of the bridge rows; the uptime of a bucket is overwritten by each of its rows. */
  method BridgeBuckets(rows: seq<BridgeRow>, size: int) returns (buckets: map<int, BridgePoint>)
    requires size > 0
    ensures KeysOf(buckets.Keys, BridgeTimes(rows), size)
    ensures forall b <- buckets :: buckets[b] == BridgeAt(rows, |rows|, size, b)
  {
    hide BridgeAt, Connections, Errors;
    buckets := map[];
    var prev: seq<(int, int)> := [];  // the previous counters, when there are any
    ghost var times := BridgeTimes(rows);
    for i := 0 to |rows|
      invariant prev == if i == 0 then [] else [(rows[i - 1].connections, rows[i - 1].errors)]
      invariant KeysOf(buckets.Keys, times[..i], size)
      invariant forall b <- buckets :: buckets[b] == BridgeAt(rows, i, size, b)
    {
      var row := rows[i];
      var b := Bucket(row.ts, size);
      var item := if b in buckets then buckets[b] else BridgePoint(b, row.uptime, 0, 0);
      if b !in buckets {
        NewBridgePoint(rows, i, size, b);
      }
      if prev != [] {
        item := item.(connections := item.connections + Max0(row.connections - prev[0].0),
                      errors := item.errors + Max0(row.errors - prev[0].1));
      }
      prev := [(row.connections, row.errors)];
      item := item.(uptime := row.uptime);
      BridgeStep(rows, i, size, b);
      BridgesStep(buckets, rows, i, size, item);
      buckets := buckets[b := item];
      assert times[..i + 1] == times[..i] + [row.ts];
    }
    assert times[..|rows|] == times;
  }

  method BridgeSeries(rows: seq<BridgeRow>, size: int) returns (keys: seq<int>, series: seq<BridgePoint>)
    requires size > 0
    ensures BucketsOf(keys, BridgeTimes(rows), size) && |series| == |keys|
    ensures forall k :: 0 <= k < |keys| ==> series[k] == BridgeAt(rows, |rows|, size, keys[k])
    ensures Sum(seq(|series|, k requires 0 <= k < |series| => series[k].connections)) == Sum(Connections(rows))
    ensures Sum(seq(|series|, k requires 0 <= k < |series| => series[k].errors)) == Sum(Errors(rows))
  {
    var buckets := BridgeBuckets(rows, size);
    keys := SortedKeys(buckets.Keys);
    series := [];
    for k := 0 to |keys|
      invariant |series| == k
      invariant forall j :: 0 <= j < k ==> series[j] == BridgeAt(rows, |rows|, size, keys[j])
    {
      assert keys[k] in keys;
      series := series + [buckets[keys[k]]];
    }
    BridgeConserves(rows, size, keys, series);
  }

  lemma BridgeConserves(rows: seq<BridgeRow>, size: int, keys: seq<int>, series: seq<BridgePoint>)
    requires size > 0 && BucketsOf(keys, BridgeTimes(rows), size) && |series| == |keys|
    requires forall k :: 0 <= k < |keys| ==> series[k] == BridgeAt(rows, |rows|, size, keys[k])
    ensures Sum(seq(|series|, k requires 0 <= k < |series| => series[k].connections)) == Sum(Connections(rows))
    ensures Sum(seq(|series|, k requires 0 <= k < |series| => series[k].errors)) == Sum(Errors(rows))
  {
    var t, n := BridgeTimes(rows), |series|;
    assert t[..|rows|] == t && Connections(rows)[..|rows|] == Connections(rows) && Errors(rows)[..|rows|] == Errors(rows);
    Conservation(t, Connections(rows), size, keys);
    Conservation(t, Errors(rows), size, keys);
    assert seq(n, k requires 0 <= k < n => series[k].connections) == Shares(t, Connections(rows), size, keys);
    assert seq(n, k requires 0 <= k < n => series[k].errors) == Shares(t, Errors(rows), size, keys);
  }
}
