/**
 * The default order of `Array.prototype.sort` on strings: character by character,
 * a proper prefix first.
 */
module StringOrder {
  import opened Seqs

  predicate Less(a: string, b: string)
    decreases |a|
  {
    if b == [] then false
    else if a == [] then true
    else if a[0] != b[0] then a[0] < b[0]
    else Less(a[1..], b[1..])
  }

  lemma {:induction false} Irreflexive(a: string)
    ensures !Less(a, a)
  {
    if a != [] {
      Irreflexive(a[1..]);
    }
  }

  lemma {:induction false} Transitive(a: string, b: string, c: string)
    requires Less(a, b) && Less(b, c)
    ensures Less(a, c)
    decreases |a|
  {
    if a != [] && a[0] == b[0] && b[0] == c[0] {
      Transitive(a[1..], b[1..], c[1..]);
    }
  }

  lemma {:induction false} Total(a: string, b: string)
    ensures a == b || Less(a, b) || Less(b, a)
    decreases |a|
  {
    if a != [] && b != [] && a[0] == b[0] {
      Total(a[1..], b[1..]);
      if a[1..] == b[1..] {
        assert a == [a[0]] + a[1..] && b == [b[0]] + b[1..];
      }
    }
  }

  lemma {:induction false} Asymmetric(a: string, b: string)
    requires Less(a, b)
    ensures !Less(b, a)
    decreases |a|
  {
    if a != [] && a[0] == b[0] {
      Asymmetric(a[1..], b[1..]);
    }
  }

  /** Strictly increasing, hence without repeats. */
  predicate Sorted(s: seq<string>)
  {
    forall i, j :: 0 <= i < j < |s| ==> Less(s[i], s[j])
  }

  /** `x` put into its place in a sorted list. */
  function Insert(s: seq<string>, x: string): (r: seq<string>)
    requires Sorted(s) && x !in s
    ensures Sorted(r)
    ensures forall y :: y in r <==> y == x || y in s
    ensures |r| == |s| + 1
  {
    if s == [] then [x]
    else if Less(x, s[0]) then
      assert forall j :: 0 < j < |s| ==> Less(s[0], s[j]);
      forall j | 0 <= j < |s| ensures Less(x, s[j]) {
        if j > 0 { Transitive(x, s[0], s[j]); }
      }
      [x] + s
    else
      Total(x, s[0]);
      var rest := Insert(s[1..], x);
      assert forall j :: 0 < j < |s| ==> s[j] == s[1..][j - 1];
      forall j | 0 <= j < |rest| ensures Less(s[0], rest[j]) {
        assert rest[j] in rest;
      }
      [s[0]] + rest
  }

  /** `list.sort()` on a list without repeats: its elements in increasing order. */
  function SortedList(xs: seq<string>): (r: seq<string>)
    requires Distinct(xs)
    ensures Sorted(r)
    ensures forall x :: x in r <==> x in xs
    ensures |r| == |xs|
  {
    if xs == [] then []
    else
      var init := xs[..|xs| - 1];
      assert Distinct(init) by {
        forall i, j | 0 <= i < j < |init|
          ensures init[i] != init[j]
        {
          assert init[i] == xs[i] && init[j] == xs[j];
        }
      }
      assert xs[|xs| - 1] !in init by {
        forall i | 0 <= i < |init|
          ensures init[i] != xs[|xs| - 1]
        {
          assert init[i] == xs[i];
        }
      }
      Insert(SortedList(init), xs[|xs| - 1])
  }

  /** `[...set].sort()`: the elements of a set of strings in increasing order. */
  method SortSet(items: set<string>) returns (sorted: seq<string>)
    ensures Sorted(sorted)
    ensures forall x :: x in sorted <==> x in items
    ensures |sorted| == |items|
  {
    sorted := [];
    var remaining := items;
    while remaining != {}
      invariant Sorted(sorted)
      invariant forall x :: x in sorted <==> x in items && x !in remaining
      invariant remaining <= items
      invariant |sorted| + |remaining| == |items|
      decreases |remaining|
    {
      var x :| x in remaining;
      sorted := Insert(sorted, x);
      remaining := remaining - {x};
    }
  }

  /** The first element of an increasing listing is not above the first of another listing of the same set. */
  lemma NotLessFirst(a: seq<string>, b: seq<string>)
    requires Sorted(a) && Sorted(b) && (forall x :: x in a <==> x in b) && a != [] && b != []
    ensures !Less(a[0], b[0])
  {
    if Less(a[0], b[0]) {
      assert a[0] in a;
      var j :| 0 <= j < |b| && b[j] == a[0];
      if j > 0 {
        Asymmetric(b[0], b[j]);
      } else {
        Irreflexive(a[0]);
      }
      assert false;
    }
  }

  lemma NonEmptyAlike(a: seq<string>, b: seq<string>)
    requires a != [] && forall x :: x in a <==> x in b
    ensures b != []
  {
    assert a[0] in a;
  }

  /** A set has only one increasing listing. */
  lemma {:induction false} SortedUnique(a: seq<string>, b: seq<string>)
    requires Sorted(a) && Sorted(b) && forall x :: x in a <==> x in b
    ensures a == b
    decreases |a|
  {
    if a != [] && b != [] {
      NotLessFirst(a, b);
      NotLessFirst(b, a);
      Total(a[0], b[0]);
      assert a[0] == b[0];
      forall x ensures x in a[1..] <==> x in b[1..] {
        if x in a[1..] {
          var i :| 0 <= i < |a[1..]| && a[1..][i] == x;
          assert Less(a[0], a[i + 1]);
          Irreflexive(x);
        }
        if x in b[1..] {
          var i :| 0 <= i < |b[1..]| && b[1..][i] == x;
          assert Less(b[0], b[i + 1]);
          Irreflexive(x);
        }
        assert x in a <==> x == a[0] || x in a[1..];
        assert x in b <==> x == b[0] || x in b[1..];
      }
      assert forall i, j :: 0 <= i < j < |a[1..]| ==> a[1..][i] == a[i + 1] && a[1..][j] == a[j + 1];
      assert forall i, j :: 0 <= i < j < |b[1..]| ==> b[1..][i] == b[i + 1] && b[1..][j] == b[j + 1];
      SortedUnique(a[1..], b[1..]);
      assert a == [a[0]] + a[1..] && b == [b[0]] + b[1..];
    } else if a != [] {
      NonEmptyAlike(a, b);
      assert false;
    } else if b != [] {
      NonEmptyAlike(b, a);
      assert false;
    }
  }
}
