/**
 File names and their lexicographic order, in which the program sorts what it writes.
 */
module Names {

  predicate Below(a: string, b: string) {
    if b == "" then false
    else if a == "" then true
    else a[0] < b[0] || (a[0] == b[0] && Below(a[1..], b[1..]))
  }

  /** The order of dictionaries: a proper prefix comes first, and otherwise the first difference decides. */
  lemma {:induction false} BelowMeans(a: string, b: string)
    ensures Below(a, b) <==> exists i :: 0 <= i <= |a| && i < |b| && a[..i] == b[..i] && (i == |a| || a[i] < b[i])
  {
    if b != "" && a == "" {
      assert a[..0] == b[..0];
    } else if b != "" {
      if a[0] < b[0] {
        assert a[..0] == b[..0];
      }
      BelowMeans(a[1..], b[1..]);
      if a[0] == b[0] && Below(a[1..], b[1..]) {
        var i :| 0 <= i <= |a| - 1 && i < |b| - 1 && a[1..][..i] == b[1..][..i] && (i == |a| - 1 || a[1..][i] < b[1..][i]);
        assert a[..i + 1] == [a[0]] + a[1..][..i] && b[..i + 1] == [b[0]] + b[1..][..i];
      }
      if i :| 0 < i <= |a| && i < |b| && a[..i] == b[..i] && (i == |a| || a[i] < b[i]) {
        assert a[..i][0] == b[..i][0];
        assert a[1..][..i - 1] == a[..i][1..] && b[1..][..i - 1] == b[..i][1..];
      }
    }
  }

  lemma {:induction false} BelowIsTotal(a: string, b: string)
    ensures a == b || Below(a, b) || Below(b, a)
  {
    if a != "" && b != "" && a[0] == b[0] {
      BelowIsTotal(a[1..], b[1..]);
      assert a == [a[0]] + a[1..] && b == [b[0]] + b[1..];
    }
  }

  lemma {:induction false} BelowIsStrict(a: string, b: string)
    requires Below(a, b)
    ensures !Below(b, a) && a != b
  {
    if a != "" && a[0] == b[0] {
      BelowIsStrict(a[1..], b[1..]);
    }
  }

  lemma {:induction false} BelowIsTransitive(a: string, b: string, c: string)
    requires Below(a, b) && Below(b, c)
    ensures Below(a, c)
  {
    if a != "" && a[0] == b[0] == c[0] {
      BelowIsTransitive(a[1..], b[1..], c[1..]);
    }
  }

  ghost predicate Distinct(names: seq<string>) {
    forall i, j :: 0 <= i < j < |names| ==> names[i] != names[j]
  }

  ghost predicate Ascending(names: seq<string>) {
    forall i, j :: 0 <= i < j < |names| ==> Below(names[i], names[j])
  }

  lemma AscendingIsDistinct(names: seq<string>)
    requires Ascending(names)
    ensures Distinct(names)
  {
    forall i, j | 0 <= i < j < |names| ensures names[i] != names[j] {
      BelowIsStrict(names[i], names[j]);
    }
  }

  ghost predicate Lists(names: seq<string>, s: set<string>) {
    Ascending(names) && forall n :: n in names <==> n in s
  }

  /** A set of names has one sorted list. */
  lemma {:induction false} SortedListIsUnique(s: set<string>, one: seq<string>, two: seq<string>)
    requires Lists(one, s) && Lists(two, s)
    ensures one == two
  {
    assert (one != [] ==> one[0] in one) && (two != [] ==> two[0] in two);
    assert one == [] <==> two == [];
    if one != [] {
      assert one[0] in two && two[0] in one;
      if one[0] != two[0] {
        BelowIsStrict(one[0], two[0]);
      }
      Rest(s, one);
      Rest(s, two);
      SortedListIsUnique(s - {one[0]}, one[1..], two[1..]);
      assert one == [one[0]] + one[1..] && two == [two[0]] + two[1..];
    }
  }

  lemma Rest(s: set<string>, names: seq<string>)
    requires Lists(names, s) && names != []
    ensures Lists(names[1..], s - {names[0]})
  {
    AscendingIsDistinct(names);
    hide Below;
    assert names == [names[0]] + names[1..];
    forall i | 0 <= i < |names| - 1 ensures names[1..][i] != names[0] {
    }
  }

  method Least(rest: set<string>) returns (least: string)
    requires rest != {}
    ensures least in rest && forall n <- rest :: n != least ==> Below(least, n)
  {
    hide Below;
    least :| least in rest;
    var todo := rest - {least};
    while todo != {}
      invariant todo <= rest && least in rest - todo
      invariant forall n <- rest :: n in todo || n == least || Below(least, n)
      decreases todo
    {
      var n :| n in todo;
      BelowIsTotal(n, least);
      if Below(n, least) {
        forall m <- rest | m !in todo && m != least ensures Below(n, m) {
          BelowIsTransitive(n, least, m);
        }
        least := n;
      }
      todo := todo - {n};
    }
  }

  method Sort(s: set<string>) returns (names: seq<string>)
    ensures Lists(names, s) && Distinct(names)
  {
    hide Below;
    names := [];
    var rest := s;
    while rest != {}
      invariant rest <= s && Ascending(names) && forall n :: n in s <==> n in names || n in rest
      invariant forall n <- names, m <- rest :: Below(n, m)
      decreases rest
    {
      var n := Least(rest);
      assert forall i | 0 <= i < |names| :: names[i] in names;
      names, rest := names + [n], rest - {n};
    }
    AscendingIsDistinct(names);
  }
}
