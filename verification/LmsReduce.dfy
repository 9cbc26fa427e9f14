/** Around the recursion: names written at half the position, gathered into the reduced text, and its suffix array
    turned back into LMS suffixes, all in place. */
module LmsReduce {
  import opened Suffix
  import opened Buckets
  import opened InduceLeft
  import opened LmsPrepare
  import opened LmsPlace
  import opened LmsNames

  // ---------- halves ----------

  /** What cell c of the name table holds after the first i entries; a name carries the mark. */
  function CellAt(L: seq<Int32>, i: nat, c: int): int
    requires i <= |L|
  {
    if i == 0 then 0 else if Pos(L[i - 1]) / 2 == c then MarksBefore(L, i - 1) + SAINT_MIN else CellAt(L, i - 1, c)
  }

  /** The names in the cells from c on. */
  function NamesFrom(L: seq<Int32>, c: nat, half: nat): seq<int>
    decreases half - c
  {
    if c >= half then []
    else (if CellAt(L, |L|, c) < 0 then [CellAt(L, |L|, c) - SAINT_MIN] else []) + NamesFrom(L, c + 1, half)
  }

  /** No two LMS positions share a half. */
  lemma HalvesApart(T: seq<Byte>, p: int, q: int)
    requires Lms(T, p) && Lms(T, q) && p / 2 == q / 2
    ensures p == q
  {
  }

  /** The cell of an LMS position holds its name. */
  lemma {:induction false} CellOfLms(T: seq<Byte>, L: seq<Int32>, i: nat, p: int)
    requires i <= |L| && Lms(T, p) && forall k :: 0 <= k < |L| ==> Lms(T, Pos(L[k]))
    ensures (exists k :: 0 <= k < i && Pos(L[k]) == p) ==> CellAt(L, i, p / 2) == NameAt(L, i, p) + SAINT_MIN
  {
    hide Lms, Pos, MarksBefore;
    if i > 0 {
      CellOfLms(T, L, i - 1, p);
      if Pos(L[i - 1]) / 2 == p / 2 { HalvesApart(T, Pos(L[i - 1]), p); }
    }
  }

  /** A cell without an LMS position stays empty. */
  lemma {:induction false} EmptyCell(L: seq<Int32>, i: nat, c: int)
    requires i <= |L| && forall k :: 0 <= k < |L| ==> Pos(L[k]) / 2 != c
    ensures CellAt(L, i, c) == 0
  {
    hide Pos, MarksBefore;
    if i > 0 { EmptyCell(L, i - 1, c); }
  }

  /** The names of some positions. */
  ghost function NamesAt(L: seq<Int32>, ps: seq<nat>): (r: seq<int>)
    ensures |r| == |ps| && forall t :: 0 <= t < |ps| ==> r[t] == NameAt(L, |L|, ps[t])
  {
    seq(|ps|, (t: nat) requires t < |ps| => NameAt(L, |L|, ps[t]))
  }

  /** Two positions of the text at a time: at most one is an LMS position. */
  lemma PairOfPositions(T: seq<Byte>, p: nat)
    requires p + 1 < |T|
    ensures LmsFrom(T, p) == (if Lms(T, p) then [p] else if Lms(T, p + 1) then [p + 1] else []) + LmsFrom(T, p + 2)
  {
    assert !(Lms(T, p) && Lms(T, p + 1));
  }

  /** Read from the left, the marked cells are the names in text order. */
  lemma {:induction false} CellsAreNames(T: seq<Byte>, L: seq<Int32>, c: nat)
    requires ClassesMarked(T, L) && |T| <= SAINT_MAX && |L| <= SAINT_MAX && c <= |T| / 2
    ensures NamesFrom(L, c, |T| / 2) == NamesAt(L, LmsFrom(T, 2 * c))
    decreases |T| / 2 - c
  {
    hide ClassesMarked, Lms, Pos, MarksBefore, NameAt, CellAt, LmsFrom;
    if c == |T| / 2 {
      NoneBehind(T, 2 * c);
    } else {
      CellsAreNames(T, L, c + 1);
      PairOfPositions(T, 2 * c);
      CellIs(T, L, c);
    }
  }

  lemma NoneBehind(T: seq<Byte>, p: nat)
    requires p + 1 >= |T|
    ensures LmsFrom(T, p) == []
  {
    assert p < |T| ==> LmsFrom(T, p + 1) == [];
  }

  lemma CellIs(T: seq<Byte>, L: seq<Int32>, c: nat)
    requires ClassesMarked(T, L) && |L| <= SAINT_MAX
    ensures Lms(T, 2 * c) ==> CellAt(L, |L|, c) == NameAt(L, |L|, 2 * c) + SAINT_MIN < 0
    ensures !Lms(T, 2 * c) && Lms(T, 2 * c + 1) ==> CellAt(L, |L|, c) == NameAt(L, |L|, 2 * c + 1) + SAINT_MIN < 0
    ensures !Lms(T, 2 * c) && !Lms(T, 2 * c + 1) ==> CellAt(L, |L|, c) == 0
  {
    hide Lms, MarksBefore, SubLess, SubSame, Pos, NameAt, CellAt;
    if Lms(T, 2 * c) {
      NameBound(L, |L|, 2 * c);
      CellOfLms(T, L, |L|, 2 * c);
    } else if Lms(T, 2 * c + 1) {
      NameBound(L, |L|, 2 * c + 1);
      CellOfLms(T, L, |L|, 2 * c + 1);
      assert (2 * c + 1) / 2 == c;
    } else {
      forall k | 0 <= k < |L| ensures Pos(L[k]) / 2 != c { assert Lms(T, Pos(L[k])); }
      EmptyCell(L, |L|, c);
    }
  }

  lemma {:induction false} NameBound(L: seq<Int32>, i: nat, p: int)
    requires i <= |L|
    ensures NameAt(L, i, p) <= i
  {
    if i > 0 {
      NameBound(L, i - 1, p);
      MarksGrow(L, 0, i - 1);
    }
  }

  /** At most every second position is an LMS position. */
  lemma {:induction false} LmsSparse(T: seq<Byte>, p: nat)
    requires p <= |T|
    ensures 2 * |LmsFrom(T, p)| <= |T| - p
    decreases |T| - p
  {
    hide Lms, LmsFrom;
    if p + 1 < |T| {
      LmsSparse(T, p + 2);
      PairOfPositions(T, p);
    } else {
      NoneBehind(T, p);
    }
  }

  /** The names, the table of halves and the gathered positions fit side by side. */
  lemma LmsRoom(T: seq<Byte>)
    requires 0 < |T|
    ensures 2 * |LmsFrom(T, 0)| < |T|
  {
    LmsSparse(T, 1);
    hide LmsFrom;
    assert LmsFrom(T, 0) == LmsFrom(T, 1) by { NotLmsFirst(T); }
  }

  lemma NotLmsFirst(T: seq<Byte>)
    requires 0 < |T|
    ensures LmsFrom(T, 0) == LmsFrom(T, 1)
  {
  }

  // ---------- in place ----------

  /** Clears the name table and fills it; the number of names. */
  method RenumberLmsSuffixes(SA: array<Int32>, n: nat, m: nat) returns (name: nat)
    requires n == SA.Length <= SAINT_MAX && m + n / 2 <= n
    requires forall i :: 0 <= i < m ==> Pos(SA[i]) / 2 < n / 2 && 0 <= Pos(SA[i])
    modifies SA
    ensures name == MarksBefore(old(SA[..m]), m) && SA[..m] == old(SA[..m])
    ensures forall c :: 0 <= c < n / 2 ==> SA[m + c] == CellAt(old(SA[..m]), m, c)
  {
    ghost var L := SA[..m];
    for c := 0 to n / 2
      invariant SA[..m] == L && forall y :: m <= y < m + c ==> SA[y] == 0
    {
      SA[m + c] := 0;
    }
    name := 0;
    for i := 0 to m
      invariant SA[..m] == L && name == MarksBefore(L, i) <= i
      invariant forall c :: 0 <= c < n / 2 ==> SA[m + c] == CellAt(L, i, c)
    {
      var p := SA[i];
      assert p == L[i];
      SA[m + Pos(p) / 2] := name + SAINT_MIN;
      name := name + if p < 0 then 1 else 0;
    }
  }

  /** Moves the marked cells, without their marks, to the end of SA. */
  method GatherMarkedLmsSuffixes(SA: array<Int32>, n: nat, m: nat, ghost L: seq<Int32>)
    requires n == SA.Length && m + n / 2 <= n && |L| == m && SA[..m] == L
    requires forall c :: 0 <= c < n / 2 ==> SA[m + c] == CellAt(L, m, c)
    requires |NamesFrom(L, 0, n / 2)| == m
    modifies SA
    ensures SA[..m] == L && SA[n - m..] == NamesFrom(L, 0, n / 2)
  {
    var l, c := n - 1, n / 2;
    assert SA[l + 1..] == [];
    while c > 0
      invariant 0 <= c <= n / 2 && m + c - 1 <= l < n && n - 1 - l == |NamesFrom(L, c, n / 2)|
      invariant SA[..m] == L && SA[l + 1..] == NamesFrom(L, c, n / 2)
      invariant forall x :: 0 <= x < c ==> SA[m + x] == CellAt(L, m, x)
    {
      c := c - 1;
      var s := SA[m + c];
      ghost var rest := SA[l + 1..];
      SA[l] := if s < 0 then s - SAINT_MIN else s;
      assert SA[l + 1..] == rest;
      if s < 0 {
        assert SA[l..] == [SA[l]] + rest;
        l := l - 1;
      }
    }
  }

  /** Numbers of LMS suffixes become their positions, which lie at the end of SA. */
  method ReconstructLmsSuffixes(SA: array<Int32>, n: nat, m: nat)
    requires n == SA.Length && 2 * m <= n && forall i :: 0 <= i < m ==> 0 <= SA[i] < m
    modifies SA
    ensures SA[m..] == old(SA[m..])
    ensures forall i :: 0 <= i < m ==> SA[i] == old(SA[n - m + SA[i]])
  {
    for i := 0 to m
      invariant SA[m..] == old(SA[m..])
      invariant forall k :: i <= k < m ==> SA[k] == old(SA[k])
      invariant forall k :: 0 <= k < i ==> SA[k] == old(SA[n - m + SA[k]])
    {
      assert SA[n - m + SA[i]] == SA[m..][n - 2 * m + SA[i]] == old(SA[n - m + SA[i]]);
      SA[i] := SA[n - m + SA[i]];
    }
  }

  lemma {:induction false} FewerBehind(T: seq<Byte>, p: nat)
    ensures |LmsFrom(T, p)| <= |LmsFrom(T, 0)|
    decreases p
  {
    hide Lms;
    if p > 0 { FewerBehind(T, p - 1); }
  }

  /** The LMS positions once more at the end of SA; nothing is written further down than one cell below them. */
  method GatherLmsSuffixes(T: seq<Byte>, SA: array<Int32>, ghost front: nat)
    requires 0 < |T| == SA.Length <= SAINT_MAX && front + |LmsFrom(T, 0)| < |T|
    modifies SA
    ensures SA[|T| - |LmsFrom(T, 0)|..] == LmsFrom(T, 0) && SA[..front] == old(SA[..front])
  {
    hide LmsFrom;
    var m, i := |T| - 1, |T| - 2;
    var c0, c1: int := T[|T| - 1], -1;
    var f0, f1 := if c0 >= c1 then 1 else 0, 0;
    assert LType(T, |T| - 1);
    NoneBehind(T, |T|);
    while i >= 0
      invariant -1 <= i < |T| - 1 && i + 1 <= m < |T|
      invariant c0 == T[i + 1] && f0 == if LType(T, i + 1) then 1 else 0
      invariant SA[m + 1..] == LmsFrom(T, i + 2) && SA[..front] == old(SA[..front])
    {
      c1 := c0;
      c0 := T[i];
      f1 := f0;
      TypeFlag(T, i + 1, f1);
      f0 := if c0 > c1 - f1 then 1 else 0;
      m := KeepBehind(T, SA, i + 1, m, f1, f0, front);
      i := i - 1;
    }
    m := KeepBehind(T, SA, 0, m, f0, 0, front);
    assert |SA[m + 1..]| == |T| - 1 - m;
  }

  /** KeepOne, which leaves the front alone. */
  method KeepBehind(T: seq<Byte>, SA: array<Int32>, p: nat, m: int, f1: int, f0: int, ghost front: nat) returns (m': int)
    requires p < |T| == SA.Length <= SAINT_MAX && front + |LmsFrom(T, 0)| < |T|
    requires f1 == (if LType(T, p) then 1 else 0) && f0 == (if LType(T, p - 1) then 1 else 0)
    requires p <= m < |T| && SA[m + 1..] == LmsFrom(T, p + 1)
    modifies SA
    ensures m - 1 <= m' <= m && (m' < m ==> p > 0) && SA[m' + 1..] == LmsFrom(T, p) && SA[..front] == old(SA[..front])
  {
    hide LmsFrom;
    FewerBehind(T, p + 1);
    assert front <= m by { assert |SA[m + 1..]| == |T| - 1 - m; }
    m' := KeepOne(T, SA, p, m, f1, f0);
    assert SA[..front] == SA[..m][..front] == old(SA[..m])[..front];
  }
}
