/**
 * Directory listings as the pipeline reads them: Python's ordering of str
 * values (code point by code point, a proper prefix first), sorted(), the
 * prefix and suffix filters of its list comprehensions, and "the last of the
 * sorted names" as the rule for picking the latest artifact of a stage.
 */
module Listing {
  import opened Text

  /** a <= b in Python's str ordering. */
  predicate LexLe(a: string, b: string)
  {
    |a| == 0 || (|b| > 0 && (a[0] < b[0] || (a[0] == b[0] && LexLe(a[1..], b[1..]))))
  }

  lemma {:induction false} LexLeTotal(a: string, b: string)
    ensures LexLe(a, b) || LexLe(b, a)
  {
    if |a| > 0 && |b| > 0 && a[0] == b[0] {
      LexLeTotal(a[1..], b[1..]);
    }
  }

  lemma {:induction false} LexLeAntisymmetric(a: string, b: string)
    requires LexLe(a, b) && LexLe(b, a)
    ensures a == b
  {
    if |a| > 0 {
      LexLeAntisymmetric(a[1..], b[1..]);
      assert a == [a[0]] + a[1..] && b == [b[0]] + b[1..];
    }
  }

  lemma {:induction false} LexLeTransitive(a: string, b: string, c: string)
    requires LexLe(a, b) && LexLe(b, c)
    ensures LexLe(a, c)
  {
    if |a| > 0 && a[0] == b[0] && b[0] == c[0] {
      LexLeTransitive(a[1..], b[1..], c[1..]);
    }
  }

  /** a < b in Python's str ordering. */
  predicate LexLt(a: string, b: string) { LexLe(a, b) && a != b }

  /** Two names that agree up to position k and differ there are ordered by that character. */
  lemma {:induction false} LexLtAtFirstDifference(a: string, b: string, k: nat)
    requires k < |a| && k < |b| && a[..k] == b[..k] && a[k] < b[k]
    ensures LexLt(a, b) && !LexLe(b, a)
  {
    if k > 0 {
      assert a[1..][..k - 1] == a[1..k] == b[1..k] == b[1..][..k - 1];
      LexLtAtFirstDifference(a[1..], b[1..], k - 1);
    }
  }

  predicate Sorted(xs: seq<string>)
  {
    forall i, j :: 0 <= i < j < |xs| ==> LexLe(xs[i], xs[j])
  }

  /** A name below the head of a sorted list is below all of it. */
  lemma BelowHead(x: string, xs: seq<string>)
    requires Sorted(xs) && xs != [] && LexLe(x, xs[0])
    ensures Sorted([x] + xs)
  {
    forall j | 0 <= j < |xs| ensures LexLe(x, xs[j]) {
      if j > 0 { LexLeTransitive(x, xs[0], xs[j]); }
    }
  }

  /** A name below every element of a sorted list can go in front of it. */
  lemma ConsSorted(h: string, rest: seq<string>)
    requires Sorted(rest) && forall y :: y in multiset(rest) ==> LexLe(h, y)
    ensures Sorted([h] + rest)
  {
    forall j | 0 <= j < |rest| ensures LexLe(h, rest[j]) {
      assert rest[j] in multiset(rest);
    }
  }

  function Insert(x: string, xs: seq<string>): (r: seq<string>)
    requires Sorted(xs)
    ensures Sorted(r)
    ensures multiset(r) == multiset(xs) + multiset{x}
  {
    if xs == [] then [x]
    else if LexLe(x, xs[0]) then
      BelowHead(x, xs);
      [x] + xs
    else
      LexLeTotal(x, xs[0]);
      assert xs == [xs[0]] + xs[1..];
      var rest := Insert(x, xs[1..]);
      assert forall y :: y in multiset(rest) ==> LexLe(xs[0], y) by {
        forall y | y in multiset(rest) ensures LexLe(xs[0], y) {
          if y != x {
            assert y in xs[1..];
          }
        }
      }
      ConsSorted(xs[0], rest);
      [xs[0]] + rest
  }

  /** Python's sorted() on a list of str. */
  function Sort(xs: seq<string>): (r: seq<string>)
    ensures Sorted(r)
    ensures multiset(r) == multiset(xs)
  {
    if xs == [] then []
    else
      assert xs == xs[..|xs| - 1] + [xs[|xs| - 1]];
      Insert(xs[|xs| - 1], Sort(xs[..|xs| - 1]))
  }

  /** The last element of a sorted non-empty list is at least every element. */
  lemma LastIsGreatest(a: seq<string>, z: string)
    requires Sorted(a) && a != [] && z in multiset(a)
    ensures LexLe(z, a[|a| - 1])
  {
    var i :| 0 <= i < |a| && a[i] == z;
    if i == |a| - 1 { LexLeTotal(z, z); }
  }

  lemma DropLast(a: seq<string>)
    requires a != []
    ensures multiset(a[..|a| - 1]) == multiset(a) - multiset{a[|a| - 1]}
    ensures Sorted(a) ==> Sorted(a[..|a| - 1])
  {
    assert a == a[..|a| - 1] + [a[|a| - 1]];
  }

  /** Two sorted lists with the same elements end with the same name. */
  lemma SameLast(a: seq<string>, b: seq<string>)
    requires Sorted(a) && Sorted(b) && multiset(a) == multiset(b) && a != [] && b != []
    ensures a[|a| - 1] == b[|b| - 1]
  {
    var x, y := a[|a| - 1], b[|b| - 1];
    assert x in multiset(b) && y in multiset(a);
    LastIsGreatest(b, x);
    LastIsGreatest(a, y);
    LexLeAntisymmetric(x, y);
  }

  /** Two sorted lists with the same elements are equal: sorting a sorted list changes nothing. */
  lemma {:induction false} SortedUnique(a: seq<string>, b: seq<string>)
    requires Sorted(a) && Sorted(b) && multiset(a) == multiset(b)
    ensures a == b
  {
    assert |a| == |multiset(a)| == |multiset(b)| == |b|;
    if a != [] {
      SameLast(a, b);
      DropLast(a);
      DropLast(b);
      SortedUnique(a[..|a| - 1], b[..|b| - 1]);
      assert a == a[..|a| - 1] + [a[|a| - 1]];
      assert b == b[..|b| - 1] + [b[|b| - 1]];
    }
  }

  /** The names of xs that start with p, in their listed order: [f for f in xs if f.startswith(p)]. */
  function FilterPrefix(xs: seq<string>, p: string): (r: seq<string>)
    ensures forall y :: y in r <==> y in xs && HasPrefix(y, p)
    ensures |r| <= |xs|
  {
    if xs == [] then []
    else
      var rest := FilterPrefix(xs[1..], p);
      assert forall y :: y in xs <==> y == xs[0] || y in xs[1..];
      if HasPrefix(xs[0], p) then [xs[0]] + rest else rest
  }

  /** The names of xs that end with p, in their listed order: [f for f in xs if f.endswith(p)]. */
  function FilterSuffix(xs: seq<string>, p: string): (r: seq<string>)
    ensures forall y :: y in r <==> y in xs && HasSuffix(y, p)
    ensures |r| <= |xs|
  {
    if xs == [] then []
    else
      var rest := FilterSuffix(xs[1..], p);
      assert forall y :: y in xs <==> y == xs[0] || y in xs[1..];
      if HasSuffix(xs[0], p) then [xs[0]] + rest else rest
  }

  /** A listing whose names all carry the prefix is its own filtered listing. */
  lemma {:induction false} FilterPrefixKeepsAll(xs: seq<string>, p: string)
    requires forall x :: x in xs ==> HasPrefix(x, p)
    ensures FilterPrefix(xs, p) == xs
  {
    if xs != [] {
      assert xs[0] in xs;
      FilterPrefixKeepsAll(xs[1..], p);
      assert xs == [xs[0]] + xs[1..];
    }
  }

  /** A listing whose names all carry the suffix is its own filtered listing. */
  lemma {:induction false} FilterSuffixKeepsAll(xs: seq<string>, p: string)
    requires forall x :: x in xs ==> HasSuffix(x, p)
    ensures FilterSuffix(xs, p) == xs
  {
    if xs != [] {
      assert xs[0] in xs;
      FilterSuffixKeepsAll(xs[1..], p);
      assert xs == [xs[0]] + xs[1..];
    }
  }

  /** os.path.join(directory, name) for a relative directory without a trailing slash. */
  function PathJoin(directory: string, name: string): (p: string)
    ensures |p| == |directory| + 1 + |name| && p[..|directory|] == directory && p[|directory| + 1..] == name
  {
    directory + "/" + name
  }

  datatype Latest = Found(name: string) | NoneFound

  /**
   * sorted([f for f in listing if f.startswith(prefix)])[-1], or the
   * FileNotFoundError raised when the filtered list is empty.
   */
  function LatestWithPrefix(listing: seq<string>, prefix: string): (r: Latest)
  {
    var candidates := Sort(FilterPrefix(listing, prefix));
    if candidates == [] then NoneFound else Found(candidates[|candidates| - 1])
  }

  /**
   * The latest name is the greatest listed name carrying the prefix; there is
   * none exactly when no listed name carries it.
   */
  lemma LatestIsGreatest(listing: seq<string>, prefix: string)
    ensures LatestWithPrefix(listing, prefix).NoneFound?
        <==> forall y :: y in listing ==> !HasPrefix(y, prefix)
    ensures LatestWithPrefix(listing, prefix).Found? ==>
      var x := LatestWithPrefix(listing, prefix).name;
      && x in listing && HasPrefix(x, prefix)
      && forall y :: y in listing && HasPrefix(y, prefix) ==> LexLe(y, x)
  {
    var filtered := FilterPrefix(listing, prefix);
    var candidates := Sort(filtered);
    if candidates != [] {
      var x := candidates[|candidates| - 1];
      assert x in multiset(filtered);
      assert x in filtered;
      forall y | y in listing && HasPrefix(y, prefix) ensures LexLe(y, x) {
        assert y in multiset(candidates);
        LastIsGreatest(candidates, y);
      }
    } else {
      assert |filtered| == |multiset(filtered)| == 0;
    }
  }
}
