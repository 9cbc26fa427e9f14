/** A verified sort over a comparator, standing for std::sort. */
module StdSort {

  /** less is a strict total order on the elements of s. */
  ghost predicate TotalOrderOn<X(!new)>(less: (X, X) -> bool, s: seq<X>)
  {
    && (forall x :: x in s ==> !less(x, x))
    && (forall x, y :: x in s && y in s && x != y ==> (less(x, y) <==> !less(y, x)))
    && (forall x, y, z :: x in s && y in s && z in s && less(x, y) && less(y, z) ==> less(x, z))
  }

  ghost predicate Distinct<X>(s: seq<X>)
  {
    forall i, j :: 0 <= i < j < |s| ==> s[i] != s[j]
  }

  /** No later element is less than an earlier one. */
  ghost predicate SortedBy<X>(less: (X, X) -> bool, s: seq<X>)
  {
    forall i, j :: 0 <= i < j < |s| ==> !less(s[j], s[i])
  }

  /** s2 is s with entry k moved down to entry j <= k. */
  ghost predicate Sunk<X>(s: seq<X>, k: nat, j: nat, s2: seq<X>)
    requires j <= k < |s| == |s2|
  {
    s2 == s[..j] + [s[k]] + s[j..k] + s[k + 1..]
  }

  /** Where entry x of the moved sequence comes from. */
  ghost function Origin(k: nat, j: nat, x: nat): nat
    requires j <= k
  {
    if x < j || x > k then x else if x == j then k else x - 1
  }

  lemma SunkKeepsElements<X>(s: seq<X>, k: nat, j: nat, s2: seq<X>)
    requires j <= k < |s| == |s2| && Sunk(s, k, j, s2)
    ensures multiset(s2) == multiset(s)
  {
    assert s == s[..j] + s[j..k] + [s[k]] + s[k + 1..];
  }

  lemma SunkDistinct<X>(s: seq<X>, k: nat, j: nat, s2: seq<X>)
    requires j <= k < |s| == |s2| && Sunk(s, k, j, s2) && Distinct(s)
    ensures Distinct(s2)
  {
    forall x, y | 0 <= x < y < |s2| ensures s2[x] != s2[y] {
      var x', y' := Origin(k, j, x), Origin(k, j, y);
      assert s2[x] == s[x'] && s2[y] == s[y'];
      if y' < x' { assert s[y'] != s[x']; }
    }
  }

  lemma SunkSorted<X(!new)>(less: (X, X) -> bool, s: seq<X>, k: nat, j: nat, s2: seq<X>)
    requires j <= k < |s| == |s2| && Sunk(s, k, j, s2) && TotalOrderOn(less, s)
    requires SortedBy(less, s[..k])
    requires j > 0 ==> !less(s[k], s[j - 1])
    requires forall x :: j <= x < k ==> less(s[k], s[x])
    ensures SortedBy(less, s2[..k + 1])
  {
    forall x | 0 <= x < j ensures !less(s[k], s[x]) {
      assert s[j - 1] in s && s[k] in s && s[x] in s;
      if x < j - 1 { assert !less(s[..k][j - 1], s[..k][x]); }
    }
    forall x | j <= x < k ensures !less(s[x], s[k]) {
      assert s[x] in s && s[k] in s;
    }
    var p := s2[..k + 1];
    forall x, y | 0 <= x < y < |p| ensures !less(p[y], p[x]) {
      var x', y' := Origin(k, j, x), Origin(k, j, y);
      assert s2[x] == s[x'] && s2[y] == s[y'];
      if x' < k && y' < k { assert !less(s[..k][y'], s[..k][x']); }
    }
  }

  /** Sorting as a function on sequences: insert each element in turn. */
  method Sort<X(!new)>(s: seq<X>, less: (X, X) -> bool) returns (r: seq<X>)
    requires TotalOrderOn(less, s)
    ensures SortedBy(less, r) && multiset(r) == multiset(s) && (Distinct(s) ==> Distinct(r))
    ensures |r| == |s| && forall x :: x in r <==> x in s
  {
    r := s;
    var k := 0;
    while k < |s|
      invariant 0 <= k <= |s| == |r|
      invariant multiset(r) == multiset(s) && (Distinct(s) ==> Distinct(r)) && SortedBy(less, r[..k])
    {
      SameElements(r, s);
      var j := k;
      while j > 0 && less(r[k], r[j - 1])
        invariant 0 <= j <= k
        invariant forall x :: j <= x < k ==> less(r[k], r[x])
      {
        j := j - 1;
      }
      var r2 := r[..j] + [r[k]] + r[j..k] + r[k + 1..];
      SunkKeepsElements(r, k, j, r2);
      if Distinct(r) { SunkDistinct(r, k, j, r2); }
      SunkSorted(less, r, k, j, r2);
      r := r2;
      k := k + 1;
    }
    assert r[..k] == r;
    SameElements(r, s);
  }

  lemma SameElements<X>(a: seq<X>, b: seq<X>)
    requires multiset(a) == multiset(b)
    ensures forall x :: x in a <==> x in b
  {
    forall x ensures x in a <==> x in b {
      assert x in a <==> x in multiset(a);
      assert x in b <==> x in multiset(b);
    }
  }
}
