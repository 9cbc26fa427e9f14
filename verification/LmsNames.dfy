/** Why sorting the reduced text sorts the LMS suffixes: names that keep the order of the LMS substrings, and the text
    of those names. */
module LmsNames {
  import opened Suffix
  import opened Buckets
  import opened InduceLeft
  import opened LmsPrepare
  import opened LmsPlace

  // ---------- LMS substrings ----------

  /** The next LMS position behind p, or the end of the text. */
  ghost function SubEnd(T: seq<Byte>, p: nat): (e: nat)
    requires p < |T|
    ensures p < e <= |T| && (e < |T| ==> Lms(T, e)) && forall x :: p < x < e ==> !Lms(T, x)
    decreases |T| - p
  {
    if p + 1 == |T| || Lms(T, p + 1) then p + 1 else SubEnd(T, p + 1)
  }

  /** The k bytes from p and from q agree, and so do the types of their positions. */
  ghost predicate Agree(T: seq<Byte>, p: nat, q: nat, k: nat) {
    && p + k <= |T| && q + k <= |T|
    && (k == 0 || (Agree(T, p, q, k - 1) && T[p + k - 1] == T[q + k - 1] && (SType(T, p + k - 1) <==> SType(T, q + k - 1))))
  }

  /** At offset k the two differ for the first time, and p is behind: at its end, on a smaller byte, or on an L-type
      position with the same byte. */
  ghost predicate Below(T: seq<Byte>, p: nat, q: nat, k: nat) {
    && Agree(T, p, q, k) && q + k < |T|
    && (p + k == |T| || T[p + k] < T[q + k] || (T[p + k] == T[q + k] && !SType(T, p + k) && SType(T, q + k)))
  }

  /** Order of LMS substrings: the first difference lies inside both, ends included. */
  ghost predicate SubLess(T: seq<Byte>, p: nat, q: nat)
    requires p < |T| && q < |T|
  {
    exists k :: 0 <= k <= SubEnd(T, p) - p && k <= SubEnd(T, q) - q && Below(T, p, q, k)
  }

  /** Equal LMS substrings: each ends in an LMS position, and all bytes up to there agree. */
  ghost predicate SubSame(T: seq<Byte>, p: nat, q: nat)
    requires p < |T| && q < |T|
  {
    var l := SubEnd(T, p) - p;
    SubEnd(T, q) - q == l && p + l < |T| && q + l < |T| && Agree(T, p, q, l + 1)
  }

  /** Behind an equal prefix the order is that of the rests. */
  lemma {:induction false} PrefixOrder(T: seq<Byte>, p: nat, q: nat, k: nat)
    requires Agree(T, p, q, k)
    ensures Less(T, p, q) <==> Less(T, p + k, q + k)
    decreases k
  {
    hide SType;
    if k > 0 { PrefixOrder(T, p, q, k - 1); }
  }

  lemma {:induction false} AgreeFlipped(T: seq<Byte>, p: nat, q: nat, k: nat)
    requires Agree(T, p, q, k)
    ensures Agree(T, q, p, k)
    decreases k
  {
    hide SType;
    if k > 0 { AgreeFlipped(T, p, q, k - 1); }
  }

  /** The first difference decides the order of the suffixes. */
  lemma BelowDecides(T: seq<Byte>, p: nat, q: nat, k: nat)
    requires Below(T, p, q, k)
    ensures Less(T, p, q)
  {
    PrefixOrder(T, p, q, k);
    if p + k < |T| && T[p + k] == T[q + k] { LBeforeS(T, p + k, q + k); }
  }

  lemma SubLessDecides(T: seq<Byte>, p: nat, q: nat)
    requires p < |T| && q < |T| && SubLess(T, p, q)
    ensures Less(T, p, q)
  {
    var k :| 0 <= k <= SubEnd(T, p) - p && k <= SubEnd(T, q) - q && Below(T, p, q, k);
    BelowDecides(T, p, q, k);
  }

  lemma SubSameOrder(T: seq<Byte>, p: nat, q: nat)
    requires p < |T| && q < |T| && SubSame(T, p, q)
    ensures Less(T, p, q) <==> Less(T, SubEnd(T, p), SubEnd(T, q))
  {
    hide SType;
    PrefixOrder(T, p, q, SubEnd(T, p) - p);
  }

  /** Substrings that agree up to the end of one of them are equal. */
  lemma AgreeToTheEnd(T: seq<Byte>, p: nat, q: nat, k: nat)
    requires p < |T| && q < |T| && Agree(T, p, q, k + 1) && k == SubEnd(T, p) - p && k <= SubEnd(T, q) - q
    ensures SubSame(T, p, q)
  {
    hide SType;
    assert p + k < |T| && q + k < |T|;
    assert Lms(T, p + k) && Agree(T, p, q, k);
    assert SType(T, p + k - 1) <==> SType(T, q + k - 1);
    assert Lms(T, q + k);
  }

  /** Of two LMS substrings one is below the other, or they are equal. */
  lemma SubTotal(T: seq<Byte>, p: nat, q: nat, k: nat)
    requires p < |T| && q < |T| && p != q && Agree(T, p, q, k) && k <= SubEnd(T, p) - p && k <= SubEnd(T, q) - q
    ensures SubLess(T, p, q) || SubLess(T, q, p) || SubSame(T, p, q)
    decreases SubEnd(T, p) - p - k
  {
    hide SType, SubSame;
    if p + k == |T| || q + k == |T| {
      AgreeFlipped(T, p, q, k);
      assert Below(T, p, q, k) || Below(T, q, p, k);
    } else if T[p + k] != T[q + k] || (SType(T, p + k) <==> !SType(T, q + k)) {
      AgreeFlipped(T, p, q, k);
      assert Below(T, p, q, k) || Below(T, q, p, k);
    } else {
      assert Agree(T, p, q, k + 1);
      if k == SubEnd(T, p) - p {
        AgreeToTheEnd(T, p, q, k);
      } else if k == SubEnd(T, q) - q {
        AgreeFlipped(T, p, q, k + 1);
        AgreeToTheEnd(T, q, p, k);
        SameFlipped(T, q, p);
      } else {
        SubTotal(T, p, q, k + 1);
      }
    }
  }

  lemma SameFlipped(T: seq<Byte>, p: nat, q: nat)
    requires p < |T| && q < |T| && SubSame(T, p, q)
    ensures SubSame(T, q, p)
  {
    AgreeFlipped(T, p, q, SubEnd(T, p) - p + 1);
    hide Agree, SType;
  }

  // ---------- the reduced text ----------

  /** Suffix order of the text of names, which ends below every name. */
  predicate NameLess(R: seq<nat>, i: nat, j: nat)
    requires i <= |R| && j <= |R|
    decreases |R| - i
  {
    j < |R| && (i == |R| || R[i] < R[j] || (R[i] == R[j] && NameLess(R, i + 1, j + 1)))
  }

  /** Names keep the order of the LMS substrings, in text order. */
  ghost predicate NamesKeepOrder(T: seq<Byte>, R: seq<nat>) {
    var G := LmsFrom(T, 0);
    && |R| == |G| && (forall i :: 0 <= i < |G| ==> G[i] < |T|)
    && forall i, j :: 0 <= i < |G| && 0 <= j < |G| ==> (R[i] < R[j] <==> SubLess(T, G[i], G[j]))
  }

  /** LMS position i, or the end of the text behind the last. */
  ghost function LmsOrEnd(T: seq<Byte>, i: nat): (p: nat)
    requires i <= |LmsFrom(T, 0)|
    ensures p <= |T|
  {
    LmsFromIsLms(T, 0);
    if i < |LmsFrom(T, 0)| then LmsFrom(T, 0)[i] else |T|
  }

  /** The substring of an LMS position ends in the next one. */
  lemma NextLms(T: seq<Byte>, i: nat)
    requires i < |LmsFrom(T, 0)|
    ensures LmsOrEnd(T, i) < |T| && SubEnd(T, LmsOrEnd(T, i)) == LmsOrEnd(T, i + 1)
  {
    var G := LmsFrom(T, 0);
    LmsFromIsLms(T, 0);
    hide LmsFrom, Lms;
    assert Lms(T, G[i]) && G[i] < |T| by { LmsInText(T, G[i]); }
    var e := SubEnd(T, G[i]);
    if i + 1 < |G| {
      LmsInText(T, G[i + 1]);
      assert Lms(T, G[i + 1]) && G[i] < G[i + 1];
      assert e <= G[i + 1];
    }
    if e < |T| {
      assert e in G;
      var x :| 0 <= x < |G| && G[x] == e;
      NotBefore(G, i, x);
    }
  }

  lemma NotBefore(G: seq<nat>, i: nat, x: nat)
    requires i < |G| && x < |G| && G[i] < G[x] && forall a, b :: 0 <= a < b < |G| ==> G[a] < G[b]
    ensures i < x && i + 1 < |G| && G[i + 1] <= G[x]
  {
  }

  lemma LmsInText(T: seq<Byte>, p: int)
    ensures Lms(T, p) ==> 0 < p < |T|
  {
  }

  /** The order of two suffixes of the reduced text is that of the LMS suffixes they stand for. */
  lemma {:induction false} ReducedOrder(T: seq<Byte>, R: seq<nat>, i: nat, j: nat)
    requires NamesKeepOrder(T, R) && i <= |R| && j <= |R|
    ensures NameLess(R, i, j) <==> Less(T, LmsOrEnd(T, i), LmsOrEnd(T, j))
    decreases |R| - i
  {
    var p, q := LmsOrEnd(T, i), LmsOrEnd(T, j);
    if i == |R| || j == |R| {
      if j < |R| { NextLms(T, j); }
      if i < |R| { NextLms(T, i); }
    } else if i == j {
      LessIrreflexive(T, p);
      NameIrreflexive(R, i);
    } else {
      NextLms(T, i);
      NextLms(T, j);
      LmsDistinct(T, i, j);
      NamesCompare(T, R, i, j);
      hide NamesKeepOrder, SType, SubLess, SubSame, LmsFrom, LmsOrEnd, Less;
      if R[i] < R[j] {
        SubLessDecides(T, p, q);
      } else if R[j] < R[i] {
        SubLessDecides(T, q, p);
        LessAsymmetric(T, q, p);
      } else {
        SubTotal(T, p, q, 0);
        SubSameOrder(T, p, q);
        SubSameInside(T, p, q);
        ReducedOrder(T, R, i + 1, j + 1);
      }
    }
  }

  lemma NamesCompare(T: seq<Byte>, R: seq<nat>, i: nat, j: nat)
    requires NamesKeepOrder(T, R) && i < |R| && j < |R|
    ensures var p, q := LmsOrEnd(T, i), LmsOrEnd(T, j);
            p < |T| && q < |T| && (R[i] < R[j] <==> SubLess(T, p, q)) && (R[j] < R[i] <==> SubLess(T, q, p))
  {
    hide SubLess, LmsFrom;
  }

  lemma SubSameInside(T: seq<Byte>, p: nat, q: nat)
    requires p < |T| && q < |T| && SubSame(T, p, q)
    ensures SubEnd(T, p) < |T| && SubEnd(T, q) < |T|
  {
  }

  lemma LmsDistinct(T: seq<Byte>, i: nat, j: nat)
    requires i < |LmsFrom(T, 0)| && j < |LmsFrom(T, 0)| && i != j
    ensures LmsOrEnd(T, i) != LmsOrEnd(T, j)
  {
    LmsFromIsLms(T, 0);
    hide LmsFrom;
  }

  lemma {:induction false} NameIrreflexive(R: seq<nat>, i: nat)
    requires i <= |R|
    ensures !NameLess(R, i, i)
    decreases |R| - i
  {
    if i < |R| { NameIrreflexive(R, i + 1); }
  }

  /** S lists the suffixes of the reduced text in order. */
  ghost predicate SortsNames(R: seq<nat>, S: seq<Int32>) {
    && |S| == |R| && (forall x :: 0 <= x < |S| ==> 0 <= S[x] < |R|)
    && forall x, y :: 0 <= x < y < |S| ==> NameLess(R, S[x], S[y])
  }

  /** A list of LMS numbers as the list of the positions they stand for. */
  ghost function LmsOf(T: seq<Byte>, S: seq<Int32>): (L: seq<int>)
    requires forall x :: 0 <= x < |S| ==> 0 <= S[x] < |LmsFrom(T, 0)|
    ensures |L| == |S| && forall x :: 0 <= x < |S| ==> L[x] == LmsOrEnd(T, S[x])
  {
    seq(|S|, (x: nat) requires x < |S| => LmsOrEnd(T, S[x]))
  }

  /** Sorting the reduced text sorts the LMS suffixes. */
  lemma SortedFromReduced(T: seq<Byte>, R: seq<nat>, S: seq<Int32>, L: seq<Int32>)
    requires NamesKeepOrder(T, R) && SortsNames(R, S) && L == LmsOf(T, S)
    ensures SortedLms(T, L)
  {
    hide NamesKeepOrder, Less, SType, LmsFrom, NameLess;
    assert |R| == |LmsFrom(T, 0)| by { NamesSize(T, R); }
    forall x | 0 <= x < |L| ensures Lms(T, L[x]) { LmsAt(T, S[x]); }
    forall x, y | 0 <= x < y < |L| ensures L[x] <= |T| && L[y] <= |T| && Less(T, L[x], L[y]) { ReducedOrder(T, R, S[x], S[y]); }
    forall p | Lms(T, p) ensures p in L {
      var i := LmsNumber(T, p);
      NamesDistinct(R, S);
      NumbersCovered(S, i);
      var x :| 0 <= x < |S| && S[x] == i;
      assert L[x] == p;
    }
  }

  lemma NamesSize(T: seq<Byte>, R: seq<nat>)
    requires NamesKeepOrder(T, R)
    ensures |R| == |LmsFrom(T, 0)|
  {
  }

  lemma LmsAt(T: seq<Byte>, i: nat)
    requires i < |LmsFrom(T, 0)|
    ensures Lms(T, LmsOrEnd(T, i))
  {
    LmsFromIsLms(T, 0);
    hide Lms, LmsFrom;
  }

  lemma LmsNumber(T: seq<Byte>, p: int) returns (i: nat)
    requires Lms(T, p)
    ensures i < |LmsFrom(T, 0)| && LmsOrEnd(T, i) == p
  {
    LmsFromIsLms(T, 0);
    hide LmsFrom;
    assert p in LmsFrom(T, 0);
    i :| 0 <= i < |LmsFrom(T, 0)| && LmsFrom(T, 0)[i] == p;
  }

  lemma NamesDistinct(R: seq<nat>, S: seq<Int32>)
    requires SortsNames(R, S)
    ensures forall x, y :: 0 <= x < y < |S| ==> S[x] != S[y]
  {
    forall x, y | 0 <= x < y < |S| ensures S[x] != S[y] { NameIrreflexive(R, S[x]); }
  }

  /** Distinct numbers below their count are all of them. */
  lemma NumbersCovered(S: seq<Int32>, i: nat)
    requires i < |S| && (forall x :: 0 <= x < |S| ==> 0 <= S[x] < |S|) && forall x, y :: 0 <= x < y < |S| ==> S[x] != S[y]
    ensures exists x :: 0 <= x < |S| && S[x] == i
  {
    var N: seq<nat> := seq(|S|, (x: nat) requires x < |S| => NumberAt(S, x));
    forall x, y | 0 <= x < y < |N| ensures N[x] != N[y] { assert S[x] != S[y]; }
    DistinctCovers(N, i);
    var x :| 0 <= x < |N| && N[x] == i;
    assert S[x] == i;
  }

  function NumberAt(S: seq<Int32>, x: nat): (p: nat)
    requires x < |S| && 0 <= S[x]
    ensures p == S[x]
  {
    S[x]
  }

  // ---------- naming ----------

  /** A list entry without its mark. */
  function Pos(x: Int32): int { if x < 0 then x - SAINT_MIN else x }

  /** How many of the first i entries are marked: the name of entry i. */
  function MarksBefore(L: seq<Int32>, i: nat): nat
    requires i <= |L|
  {
    if i == 0 then 0 else MarksBefore(L, i - 1) + if L[i - 1] < 0 then 1 else 0
  }

  /** The name of position p among the first i entries. */
  function NameAt(L: seq<Int32>, i: nat, p: int): nat
    requires i <= |L|
  {
    if i == 0 then 0 else if Pos(L[i - 1]) == p then MarksBefore(L, i - 1) else NameAt(L, i - 1, p)
  }

  /** All LMS positions, by LMS substring, where the last one of every class is marked: what the first induction
      leaves. */
  ghost predicate ClassesMarked(T: seq<Byte>, L: seq<Int32>) {
    && (forall i :: 0 <= i < |L| ==> Lms(T, Pos(L[i])))
    && (forall p :: Lms(T, p) ==> exists i :: 0 <= i < |L| && Pos(L[i]) == p)
    && (forall i, j :: 0 <= i < j < |L| ==> Pos(L[i]) != Pos(L[j]))
    && forall i, j :: 0 <= i < j < |L| ==>
         if MarksBefore(L, i) < MarksBefore(L, j) then SubLess(T, Pos(L[i]), Pos(L[j])) else SubSame(T, Pos(L[i]), Pos(L[j]))
  }

  /** The names of the LMS positions, in text order. */
  ghost function Names(T: seq<Byte>, L: seq<Int32>): (R: seq<nat>)
    ensures |R| == |LmsFrom(T, 0)| && forall t :: 0 <= t < |R| ==> R[t] == NameAt(L, |L|, LmsFrom(T, 0)[t])
  {
    seq(|LmsFrom(T, 0)|, (t: nat) requires t < |LmsFrom(T, 0)| => NameAt(L, |L|, LmsFrom(T, 0)[t]))
  }

  lemma {:induction false} NameIs(L: seq<Int32>, n: nat, i: nat)
    requires i < n <= |L| && forall x, y :: 0 <= x < y < |L| ==> Pos(L[x]) != Pos(L[y])
    ensures NameAt(L, n, Pos(L[i])) == MarksBefore(L, i)
  {
    hide Pos, MarksBefore;
    if i < n - 1 { NameIs(L, n - 1, i); }
  }

  lemma {:induction false} MarksGrow(L: seq<Int32>, i: nat, j: nat)
    requires i <= j <= |L|
    ensures MarksBefore(L, i) <= MarksBefore(L, j) <= MarksBefore(L, i) + (j - i)
  {
    if i < j { MarksGrow(L, i, j - 1); }
  }

  lemma {:induction false} AgreeAt(T: seq<Byte>, p: nat, q: nat, n: nat, k: nat)
    requires Agree(T, p, q, n) && k < n
    ensures T[p + k] == T[q + k] && (SType(T, p + k) <==> SType(T, q + k))
  {
    hide SType;
    if k < n - 1 { AgreeAt(T, p, q, n - 1, k); }
  }

  /** Equal substrings are not below each other. */
  lemma SameNotLess(T: seq<Byte>, p: nat, q: nat)
    requires p < |T| && q < |T| && SubSame(T, p, q)
    ensures !SubLess(T, p, q)
  {
    hide SType;
    var n := SubEnd(T, p) - p + 1;
    forall k | 0 <= k <= SubEnd(T, p) - p && k <= SubEnd(T, q) - q ensures !Below(T, p, q, k) { AgreeAt(T, p, q, n, k); }
  }

  lemma LessNotBack(T: seq<Byte>, p: nat, q: nat)
    requires p < |T| && q < |T| && SubLess(T, p, q)
    ensures !SubLess(T, q, p)
  {
    hide SubLess, Less;
    SubLessDecides(T, p, q);
    LessAsymmetric(T, p, q);
    if SubLess(T, q, p) { SubLessDecides(T, q, p); }
  }

  /** Two entries: the smaller name has the smaller substring, and only then. */
  lemma EntriesKeepOrder(T: seq<Byte>, L: seq<Int32>, i: nat, j: nat)
    requires ClassesMarked(T, L) && i < |L| && j < |L|
    ensures 0 <= Pos(L[i]) < |T| && 0 <= Pos(L[j]) < |T|
    ensures MarksBefore(L, i) < MarksBefore(L, j) <==> SubLess(T, Pos(L[i]), Pos(L[j]))
  {
    hide SubLess, SubSame, SType, Pos, MarksBefore;
    var p, q := Pos(L[i]), Pos(L[j]);
    if i < j {
      MarksGrow(L, i, j);
      if MarksBefore(L, i) >= MarksBefore(L, j) { SameNotLess(T, p, q); }
    } else if j < i {
      MarksGrow(L, j, i);
      if MarksBefore(L, j) < MarksBefore(L, i) {
        LessNotBack(T, q, p);
      } else {
        SameFlipped(T, q, p);
        SameNotLess(T, p, q);
      }
    } else {
      NotBelowItself(T, p);
    }
  }

  lemma NotBelowItself(T: seq<Byte>, p: nat)
    requires p < |T|
    ensures !SubLess(T, p, p)
  {
    hide SubLess, Less;
    if SubLess(T, p, p) {
      SubLessDecides(T, p, p);
      LessIrreflexive(T, p);
    }
  }

  /** Naming preserves the order of the LMS substrings. */
  lemma NamesPreserveOrder(T: seq<Byte>, L: seq<Int32>)
    requires ClassesMarked(T, L)
    ensures NamesKeepOrder(T, Names(T, L))
  {
    hide ClassesMarked, SubLess, Lms, Pos, MarksBefore, NameAt, LmsFrom, Names;
    var G, R := LmsFrom(T, 0), Names(T, L);
    LmsFromIsLms(T, 0);
    forall s, t | 0 <= s < |G| && 0 <= t < |G| ensures G[s] < |T| && G[t] < |T| && (R[s] < R[t] <==> SubLess(T, G[s], G[t])) {
      var i := EntryOf(T, L, G[s]);
      var j := EntryOf(T, L, G[t]);
      EntriesKeepOrder(T, L, i, j);
    }
    forall s | 0 <= s < |G| ensures G[s] < |T| { LmsInText(T, G[s]); }
  }

  lemma EntryOf(T: seq<Byte>, L: seq<Int32>, p: int) returns (i: nat)
    requires ClassesMarked(T, L) && Lms(T, p)
    ensures i < |L| && Pos(L[i]) == p && NameAt(L, |L|, p) == MarksBefore(L, i)
  {
    hide SubLess, SubSame, SType, Pos, MarksBefore, NameAt, Lms;
    i :| 0 <= i < |L| && Pos(L[i]) == p;
    NameIs(L, |L|, i);
  }
}
