/**
 Retention of snapshots and backups (update_engine.py: `_prune_rollbacks`, backup.py: `prune_backups`): files
 are ordered by modification time and name, newest first, and all but the first `keep` are deleted.
 */
module Retention {
  import opened Names

  /** Modification times by file name. */
  type Times = map<string, int>

  predicate Newer(files: Times, a: string, b: string)
    requires a in files && b in files
  {
    files[a] > files[b] || (files[a] == files[b] && Below(b, a))
  }

  lemma NewerIsTotal(files: Times, a: string, b: string)
    requires a in files && b in files && a != b
    ensures Newer(files, a, b) != Newer(files, b, a)
  {
    BelowIsTotal(a, b);
    if Below(a, b) {
      BelowIsStrict(a, b);
    } else {
      BelowIsStrict(b, a);
    }
  }

  lemma NewerIsTransitive(files: Times, a: string, b: string, c: string)
    requires a in files && b in files && c in files && Newer(files, a, b) && Newer(files, b, c)
    ensures Newer(files, a, c)
  {
    if files[a] == files[b] == files[c] {
      BelowIsTransitive(c, b, a);
    }
  }

  /** `kept` are the `keep` newest files, or all of them if there are fewer. */
  ghost predicate Retained(files: Times, keep: nat, kept: set<string>) {
    && kept <= files.Keys
    && |kept| == (if |files| < keep then |files| else keep)
    && forall a <- kept, b <- files :: b !in kept ==> Newer(files, a, b)
  }

  /** Which files stay is determined by their times and names alone. */
  lemma RetainedIsUnique(files: Times, keep: nat, one: set<string>, two: set<string>)
    requires Retained(files, keep, one) && Retained(files, keep, two)
    ensures one == two
  {
    hide Newer;
    if one != two {
      SameSize(one, two);
      var a, b :| a in one && a !in two && b in two && b !in one;
      NewerIsTotal(files, a, b);
    }
  }

  lemma SameSize(one: set<string>, two: set<string>)
    requires |one| == |two| && one != two
    ensures exists a, b :: a in one && a !in two && b in two && b !in one
  {
    assert one == one * two + (one - two) && two == one * two + (two - one);
    assert one - two != {} && two - one != {};
    var a :| a in one - two;
    var b :| b in two - one;
  }

  /** A file that is newer than all others stays. */
  lemma NewestIsRetained(files: Times, keep: nat, kept: set<string>, name: string)
    requires Retained(files, keep, kept) && keep > 0 && name in files
    requires forall b <- files :: b != name ==> Newer(files, name, b)
    ensures name in kept
  {
    hide Newer;
    assert name in files.Keys;
    var a :| a in kept;
    if name !in kept {
      NewerIsTotal(files, name, a);
    }
  }

  /** With a positive number to keep, a file that is later than all others stays; and among files of one time the
      greatest name does. */
  lemma LatestIsRetained(files: Times, keep: nat, kept: set<string>, name: string)
    requires Retained(files, keep, kept) && keep > 0 && name in files
    requires forall b <- files :: b != name ==> files[b] < files[name] || (files[b] == files[name] && Below(b, name))
    ensures name in kept
  {
    NewestIsRetained(files, keep, kept, name);
  }

  /** What is dropped is never later than what stays. */
  lemma DroppedIsOlder(files: Times, keep: nat, kept: set<string>, a: string, b: string)
    requires Retained(files, keep, kept) && a in kept && b in files && b !in kept
    ensures files[b] < files[a] || (files[b] == files[a] && Below(b, a))
  {
  }

  ghost predicate Sorted(files: Times, order: seq<string>) {
    && (forall n <- order :: n in files)
    && forall i, j :: 0 <= i < j < |order| ==> order[i] != order[j] && Newer(files, order[i], order[j])
  }

  ghost function NamesIn(order: seq<string>): set<string> {
    set n | n in order
  }

  /** The newest of some files. */
  method Newest(files: Times, rest: set<string>) returns (best: string)
    requires rest != {} && rest <= files.Keys
    ensures best in rest && forall n <- rest :: n != best ==> Newer(files, best, n)
  {
    hide Newer;
    best :| best in rest;
    var todo := rest - {best};
    while todo != {}
      invariant todo <= rest && best in rest - todo
      invariant forall n <- rest :: n in todo || n == best || Newer(files, best, n)
      decreases todo
    {
      var n :| n in todo;
      NewerIsTotal(files, n, best);
      if Newer(files, n, best) {
        forall m <- rest | m !in todo && m != best ensures Newer(files, n, m) {
          NewerIsTransitive(files, n, best, m);
        }
        best := n;
      }
      todo := todo - {n};
    }
  }

  /** All files by time and then by name, newest first. */
  method SortNewestFirst(files: Times) returns (order: seq<string>)
    ensures Sorted(files, order) && NamesIn(order) == files.Keys
  {
    hide Newer;
    order := [];
    var rest := files.Keys;
    while rest != {}
      invariant rest <= files.Keys && NamesIn(order) == files.Keys - rest
      invariant Sorted(files, order)
      invariant forall a <- order, b <- rest :: Newer(files, a, b)
      decreases rest
    {
      var n := Newest(files, rest);
      forall i | 0 <= i < |order| ensures order[i] != n && Newer(files, order[i], n) {
        assert order[i] in NamesIn(order);
      }
      assert NamesIn(order + [n]) == NamesIn(order) + {n};
      order, rest := order + [n], rest - {n};
    }
  }

  lemma {:induction false} NamesCount(order: seq<string>)
    requires forall i, j :: 0 <= i < j < |order| ==> order[i] != order[j]
    ensures |NamesIn(order)| == |order|
  {
    if order != [] {
      var init, n := order[..|order| - 1], order[|order| - 1];
      NamesCount(init);
      assert NamesIn(order) == NamesIn(init) + {n};
    }
  }

  /** Dropping everything behind the first `keep` of the sorted files retains the newest. */
  lemma SlicingRetains(files: Times, keep: nat, order: seq<string>)
    requires Sorted(files, order) && NamesIn(order) == files.Keys
    ensures Retained(files, keep, NamesIn(order[..if |order| < keep then |order| else keep]))
  {
    hide Newer;
    var n := if |order| < keep then |order| else keep;
    NamesCount(order);
    NamesCount(order[..n]);
    assert |files| == |files.Keys|;
    forall a <- NamesIn(order[..n]), b <- files | b !in NamesIn(order[..n]) ensures Newer(files, a, b) {
      assert b in NamesIn(order);
      var i, j :| 0 <= i < n && order[i] == a && 0 <= j < |order| && order[j] == b;
      assert forall k | 0 <= k < n :: order[k] in order[..n];
      assert j >= n;
    }
  }
  lemma Slices(order: seq<string>, n: nat, i: nat)
    requires n <= i <= |order| && forall j, k :: 0 <= j < k < |order| ==> order[j] != order[k]
    ensures NamesIn(order[..n]) !! NamesIn(order[n..i])
    ensures NamesIn(order[..n]) + NamesIn(order[n..]) == NamesIn(order)
    ensures i == n ==> NamesIn(order[n..i]) == {}
    ensures i < |order| ==> NamesIn(order[n..i + 1]) == NamesIn(order[n..i]) + {order[i]}
  {
  }

  /** Deletes all but the `keep` newest files, newest first; a failure stops early, a reliable disk has none. */
  method Prune<T>(files: map<string, T>, times: Times, keep: nat, reliable: bool)
      returns (rest: map<string, T>, ok: bool, ghost kept: set<string>)
    requires times.Keys == files.Keys
    ensures Retained(times, keep, kept)
    ensures kept <= rest.Keys <= files.Keys && (ok ==> rest.Keys == kept)
    ensures forall name <- rest :: rest[name] == files[name]
    ensures reliable ==> ok
  {
    hide Newer, Retained, NamesIn;
    var order := SortNewestFirst(times);
    SlicingRetains(times, keep, order);
    var n := if |order| < keep then |order| else keep;
    kept := NamesIn(order[..n]);
    rest := files;
    Slices(order, n, n);
    for i := n to |order|
      invariant rest.Keys == files.Keys - NamesIn(order[n..i])
      invariant forall name <- rest :: rest[name] == files[name]
    {
      Slices(order, n, i);
      var failed: bool := *;
      if failed && !reliable {
        return rest, false, kept;
      }
      rest := rest - {order[i]};
    }
    Slices(order, n, |order|);
    assert order[n..|order|] == order[n..];
    ok := true;
  }
}
