/** Sorting one first-byte bucket of entries: insertion sort by (key, position) below 32 entries,
    otherwise three stable radix passes followed by a tie sort. */
module SpsaSort {
  import opened Suffix
  import opened Scatter
  import opened SpsaKey
  import StdSort

  datatype SortEntry = SortEntry(key: int, pos: nat, encoded: nat)

  /** Entries carry the key of their position, and the position is also their encoding. */
  ghost predicate ValidEntries(T: seq<Byte>, s: seq<SortEntry>)
  {
    forall i :: 0 <= i < |s| ==> ValidEntry(T, s[i])
  }

  ghost predicate ValidEntry(T: seq<Byte>, e: SortEntry)
  {
    e.pos < |T| && e.key == Key(T, e.pos) && e.encoded == e.pos
  }

  /** Suffix order without the demand that positions differ. */
  ghost predicate Ordered(T: seq<Byte>, p: nat, q: nat)
    requires p < |T| && q < |T|
  {
    p == q || Less(T, p, q)
  }

  /** The entries come from one first-byte bucket. */
  ghost predicate SharedFirstByte(T: seq<Byte>, s: seq<SortEntry>)
    requires ValidEntries(T, s)
  {
    forall i, j :: 0 <= i < |s| && 0 <= j < |s| ==> T[s[i].pos] == T[s[j].pos]
  }

  ghost predicate InSuffixOrder(T: seq<Byte>, s: seq<SortEntry>)
    requires ValidEntries(T, s)
  {
    forall i, j :: 0 <= i < j < |s| ==> Ordered(T, s[i].pos, s[j].pos)
  }

  // ---------- fewer than 32 entries ----------

  predicate KeyPosLess(a: SortEntry, b: SortEntry)
  {
    a.key < b.key || (a.key == b.key && a.pos < b.pos)
  }

  /** Sorted by (key, pos). */
  ghost predicate InKeyPosOrder(s: seq<SortEntry>)
  {
    forall i, j :: 0 <= i < j < |s| ==> !KeyPosLess(s[j], s[i])
  }

  /** Entries of equal key stand in suffix order when their positions increase. */
  ghost predicate TiesInPositionOrder(T: seq<Byte>, s: seq<SortEntry>)
    requires ValidEntries(T, s)
  {
    forall i, j :: 0 <= i < |s| && 0 <= j < |s| && s[i].key == s[j].key && s[i].pos < s[j].pos ==>
                     Less(T, s[i].pos, s[j].pos)
  }

  /** (key, pos) order is suffix order exactly when no equal-key pair is inverted. */
  lemma KeyPosOrderIsSuffixOrder(T: seq<Byte>, s: seq<SortEntry>)
    requires ValidEntries(T, s) && InKeyPosOrder(s)
    ensures InSuffixOrder(T, s) <==> TiesInPositionOrder(T, s)
  {
    if TiesInPositionOrder(T, s) {
      forall i, j | 0 <= i < j < |s| ensures Ordered(T, s[i].pos, s[j].pos) {
        assert !KeyPosLess(s[j], s[i]) && ValidEntry(T, s[i]) && ValidEntry(T, s[j]);
        if s[i].key < s[j].key { KeyOrder(T, s[i].pos, s[j].pos, 8); }
      }
    }
    if InSuffixOrder(T, s) {
      forall i, j | 0 <= i < |s| && 0 <= j < |s| && s[i].key == s[j].key && s[i].pos < s[j].pos
        ensures Less(T, s[i].pos, s[j].pos)
      {
        if j < i {
          assert !KeyPosLess(s[i], s[j]);
        } else {
          assert Ordered(T, s[i].pos, s[j].pos);
        }
      }
    }
  }

  method InsertionSort(arr: array<SortEntry>)
    modifies arr
    ensures InKeyPosOrder(arr[..]) && multiset(arr[..]) == multiset(old(arr[..]))
  {
    var n := arr.Length;
    if n == 0 { return; }
    var i := 1;
    while i < n
      invariant 1 <= i <= n
      invariant InKeyPosOrder(arr[..i]) && multiset(arr[..]) == multiset(old(arr[..]))
    {
      InsertOne(arr, i);
      i := i + 1;
    }
    assert arr[..i] == arr[..];
  }

  method InsertOne(arr: array<SortEntry>, i: nat)
    requires 1 <= i < arr.Length && InKeyPosOrder(arr[..i])
    modifies arr
    ensures InKeyPosOrder(arr[..i + 1]) && multiset(arr[..]) == multiset(old(arr[..]))
  {
    hide InKeyPosOrder;
    ghost var s := arr[..];
    var e := arr[i];
    var j := i;
    while j > 0 && (arr[j - 1].key > e.key || (arr[j - 1].key == e.key && arr[j - 1].pos > e.pos))
      invariant 0 <= j <= i
      invariant forall k :: 0 <= k <= j ==> arr[k] == s[k]
      invariant forall k :: i < k < arr.Length ==> arr[k] == s[k]
      invariant forall k :: j < k <= i ==> arr[k] == s[k - 1]
      invariant forall k :: j <= k < i ==> KeyPosLess(e, s[k])
    {
      arr[j] := arr[j - 1];
      j := j - 1;
    }
    arr[j] := e;
    ghost var s2 := arr[..];
    assert MovedDown(s, i, j, s2);
    MovedDownElements(s, i, j, s2);
    MovedDownOrder(s, i, j, s2);
  }

  /** s2 is s with entry i taken out and put back at j <= i. */
  ghost predicate MovedDown(s: seq<SortEntry>, i: nat, j: nat, s2: seq<SortEntry>)
  {
    && j <= i < |s| == |s2| && s2[j] == s[i]
    && (forall k :: 0 <= k < j || i < k < |s| ==> s2[k] == s[k])
    && (forall k :: j < k <= i ==> s2[k] == s[k - 1])
  }

  lemma MovedDownElements(s: seq<SortEntry>, i: nat, j: nat, s2: seq<SortEntry>)
    requires MovedDown(s, i, j, s2)
    ensures multiset(s2) == multiset(s)
  {
    assert s2[..j] == s[..j] && s2[j + 1..i + 1] == s[j..i] && s2[i + 1..] == s[i + 1..];
    assert s2 == s2[..j] + [s2[j]] + s2[j + 1..i + 1] + s2[i + 1..];
    StdSort.SunkKeepsElements(s, i, j, s2);
  }

  lemma MovedDownOrder(s: seq<SortEntry>, i: nat, j: nat, s2: seq<SortEntry>)
    requires MovedDown(s, i, j, s2) && InKeyPosOrder(s[..i])
    requires j > 0 ==> !KeyPosLess(s[i], s[j - 1])
    requires forall k :: j <= k < i ==> KeyPosLess(s[i], s[k])
    ensures InKeyPosOrder(s2[..i + 1])
  {
    var p, q := s[..i], s2[..i + 1];
    forall x | 0 <= x < j ensures !KeyPosLess(s[i], s[x]) {
      if x < j - 1 { assert !KeyPosLess(p[j - 1], p[x]); }
    }
    forall x, y | 0 <= x < y < |q| ensures !KeyPosLess(q[y], q[x]) {
      var x', y' := StdSort.Origin(i, j, x), StdSort.Origin(i, j, y);
      assert q[x] == s[x'] && q[y] == s[y'];
      if x' < i && y' < i { assert !KeyPosLess(p[y'], p[x']); }
    }
  }

  // ---------- 32 entries or more: radix passes ----------

  /** key >> 32 */
  function Upper(e: SortEntry): int {
    e.key / 0x1_0000_0000
  }

  /** (key >> shift) & 0xFF for shift = (7 - byteIdx) * 8. */
  function KeyByte(e: SortEntry, byteIdx: nat): int
    requires 1 <= byteIdx <= 3
    ensures 0 <= KeyByte(e, byteIdx) < 256
  {
    e.key / Shift(7 - byteIdx) % 256
  }

  /** 2^(8 * (3 - byteIdx)): the weight of key byte byteIdx inside the upper half. */
  function Weight(byteIdx: nat): int
    requires 0 <= byteIdx <= 3
  {
    if byteIdx == 3 then 1 else if byteIdx == 2 then 0x100 else if byteIdx == 1 then 0x1_0000 else 0x100_0000
  }

  lemma KeyByteIsDigit(e: SortEntry, byteIdx: nat)
    requires 1 <= byteIdx <= 3
    ensures KeyByte(e, byteIdx) == Upper(e) / Weight(byteIdx) % 256
  {
  }

  ghost function Digits(s: seq<SortEntry>, byteIdx: nat): (A: seq<int>)
    requires 1 <= byteIdx <= 3
    ensures |A| == |s| && forall i :: 0 <= i < |s| ==> A[i] == KeyByte(s[i], byteIdx)
  {
    seq(|s|, i requires 0 <= i < |s| => KeyByte(s[i], byteIdx))
  }

  /** Sorted by the part of the upper half below weight w. */
  ghost predicate SortedModulo(s: seq<SortEntry>, w: int)
    requires w > 0
  {
    forall x, y :: 0 <= x < y < |s| ==> Upper(s[x]) % w <= Upper(s[y]) % w
  }

  lemma DigitStep(u: int, v: int, byteIdx: nat)
    requires 1 <= byteIdx <= 3
    requires var w := Weight(byteIdx);
             u / w % 256 < v / w % 256 || (u / w % 256 == v / w % 256 && u % w <= v % w)
    ensures u % Weight(byteIdx - 1) <= v % Weight(byteIdx - 1)
  {
    if byteIdx == 2 {
      TwoDigits(u);
      TwoDigits(v);
    } else if byteIdx == 1 {
      ThreeDigits(u);
      ThreeDigits(v);
    }
  }

  lemma TwoDigits(u: int)
    ensures u % 0x1_0000 == u / 0x100 % 256 * 0x100 + u % 0x100
  {
    var t, m := u / 0x1_0000, u % 0x1_0000;
    var a, b := m / 0x100, m % 0x100;
    assert u == (t * 256 + a) * 0x100 + b;
    assert u / 0x100 == t * 256 + a;
  }

  lemma ThreeDigits(u: int)
    ensures u % 0x100_0000 == u / 0x1_0000 % 256 * 0x1_0000 + u % 0x1_0000
  {
    var t, m := u / 0x100_0000, u % 0x100_0000;
    var a, b := m / 0x1_0000, m % 0x1_0000;
    assert u == (t * 256 + a) * 0x1_0000 + b;
    assert u / 0x1_0000 == t * 256 + a;
  }

  ghost predicate SameEntries(s: seq<SortEntry>, s2: seq<SortEntry>)
  {
    |s| == |s2| && multiset(s) == multiset(s2)
  }

  /** A stable pass on one key byte extends the sorted part of the key by that byte. */
  lemma PassSorts(s: seq<SortEntry>, byteIdx: nat, s2: seq<SortEntry>)
    requires 1 <= byteIdx <= 3 && |s2| == |s|
    requires Scattered(Digits(s, byteIdx), s, |s|, s2)
    requires SortedModulo(s, Weight(byteIdx))
    ensures SortedModulo(s2, Weight(byteIdx - 1))
  {
    var A := Digits(s, byteIdx);
    forall x, y | 0 <= x < y < |s2| ensures Upper(s2[x]) % Weight(byteIdx - 1) <= Upper(s2[y]) % Weight(byteIdx - 1) {
      var i := ScatteredSlot(A, s, s2, x);
      var j := ScatteredSlot(A, s, s2, y);
      DestOrder(A, i, j);
      KeyByteIsDigit(s[i], byteIdx);
      KeyByteIsDigit(s[j], byteIdx);
      DigitStep(Upper(s[i]), Upper(s[j]), byteIdx);
    }
  }

  lemma PassKeepsEntries(A: seq<int>, s: seq<SortEntry>, s2: seq<SortEntry>)
    requires |A| == |s| == |s2| && Scattered(A, s, |s|, s2)
    ensures SameEntries(s, s2)
  {
    ScatteredElements(A, s, s2);
  }

  method CountDigits(src: array<SortEntry>, byteIdx: nat, count: array<int>)
    requires 1 <= byteIdx <= 3 && count.Length == 256
    requires forall c :: 0 <= c < 256 ==> count[c] == 0
    modifies count
    ensures forall c :: 0 <= c < 256 ==> count[c] == CountKey(Digits(src[..], byteIdx), src.Length, c)
  {
    ghost var A := Digits(src[..], byteIdx);
    for i := 0 to src.Length
      invariant forall c :: 0 <= c < 256 ==> count[c] == CountKey(A, i, c)
    {
      var c := KeyByte(src[i], byteIdx);
      assert A[i] == c;
      count[c] := count[c] + 1;
    }
  }

  method ExclusivePrefix(ghost A: seq<int>, count: array<int>)
    requires count.Length == 256 && forall i :: 0 <= i < |A| ==> 0 <= A[i] < 256
    requires forall c :: 0 <= c < 256 ==> count[c] == CountKey(A, |A|, c)
    modifies count
    ensures Cursors(A, 0, count[..])
  {
    var total := 0;
    CountLessBounds(A, |A|, 0, 256);
    for i := 0 to 256
      invariant total == Offset(A, i)
      invariant forall c :: 0 <= c < i ==> count[c] == Offset(A, c)
      invariant forall c :: i <= c < 256 ==> count[c] == CountKey(A, |A|, c)
    {
      CountLessStep(A, |A|, i);
      var before := count[i];
      count[i] := total;
      total := total + before;
    }
  }

  /** One counting pass from src to dst. */
  method RadixPass(src: array<SortEntry>, dst: array<SortEntry>, byteIdx: nat)
    requires 1 <= byteIdx <= 3 && src != dst && src.Length == dst.Length
    modifies dst
    ensures Scattered(Digits(src[..], byteIdx), src[..], src.Length, dst[..])
  {
    var count := new int[256](_ => 0);
    CountDigits(src, byteIdx, count);
    ghost var S := src[..];
    ghost var A := Digits(S, byteIdx);
    ExclusivePrefix(A, count);
    for i := 0 to src.Length
      invariant src[..] == S
      invariant Cursors(A, i, count[..]) && Scattered(A, S, i, dst[..])
    {
      ScatterEntry(src, dst, count, byteIdx, i, A, S);
    }
  }

  method ScatterEntry(src: array<SortEntry>, dst: array<SortEntry>, count: array<int>, byteIdx: nat, i: nat,
                      ghost A: seq<int>, ghost S: seq<SortEntry>)
    requires 1 <= byteIdx <= 3 && src != dst && i < src.Length == dst.Length && count.Length == 256
    requires src[..] == S && A == Digits(S, byteIdx)
    requires Cursors(A, i, count[..]) && Scattered(A, S, i, dst[..])
    modifies dst, count
    ensures Cursors(A, i + 1, count[..]) && Scattered(A, S, i + 1, dst[..])
  {
    ghost var idx, d := count[..], dst[..];
    var c := KeyByte(src[i], byteIdx);
    assert A[i] == c;
    CursorsStep(A, i, idx);
    ScatteredStep(A, S, i, d);
    hide Cursors, Scattered;
    dst[count[c]] := src[i];
    count[c] := count[c] + 1;
    assert dst[..] == d[Dest(A, i) := S[i]];
    assert count[..] == idx[c := idx[c] + 1];
  }

  lemma SortedModuloOne(s: seq<SortEntry>)
    ensures SortedModulo(s, Weight(3))
  {
  }

  /** memcpy of the entries. */
  method CopyBack(src: array<SortEntry>, dst: array<SortEntry>)
    requires src != dst && src.Length == dst.Length
    modifies dst
    ensures dst[..] == src[..]
  {
    forall i | 0 <= i < src.Length { dst[i] := src[i]; }
  }

  /** Three ping-pong passes and the copy back: arr ends up sorted by the upper half of the key. */
  method RadixPasses(ghost T: seq<Byte>, arr: array<SortEntry>, temp: array<SortEntry>)
    requires arr != temp && arr.Length == temp.Length && ValidEntries(T, arr[..])
    requires SharedFirstByte(T, arr[..])
    modifies arr, temp
    ensures SameEntries(old(arr[..]), arr[..]) && ValidEntries(T, arr[..]) && UpperSorted(arr[..])
  {
    ghost var s3 := arr[..];
    SortedModuloOne(s3);
    hide ValidEntries, SortedModulo, Scattered, UpperSorted, SharedFirstByte, Digits, SameEntries;
    RadixPass(arr, temp, 3);
    ghost var s2 := temp[..];
    PassSorts(s3, 3, s2);
    PassKeepsEntries(Digits(s3, 3), s3, s2);
    RadixPass(temp, arr, 2);
    ghost var s1 := arr[..];
    PassSorts(s2, 2, s1);
    PassKeepsEntries(Digits(s2, 2), s2, s1);
    RadixPass(arr, temp, 1);
    ghost var s0 := temp[..];
    PassSorts(s1, 1, s0);
    PassKeepsEntries(Digits(s1, 1), s1, s0);
    CopyBack(temp, arr);
    SameEntriesTrans(s3, s2, s1);
    SameEntriesTrans(s3, s1, s0);
    SameEntriesValid(T, s3, s0);
    SameLeadingByte(T, s3, s0);
  }

  ghost predicate UpperSorted(s: seq<SortEntry>)
  {
    forall x, y :: 0 <= x < y < |s| ==> Upper(s[x]) <= Upper(s[y])
  }

  lemma SameEntriesValid(T: seq<Byte>, s: seq<SortEntry>, s2: seq<SortEntry>)
    requires ValidEntries(T, s) && SameEntries(s, s2)
    ensures ValidEntries(T, s2)
  {
    StdSort.SameElements(s, s2);
    forall i | 0 <= i < |s2| ensures ValidEntry(T, s2[i]) {
      assert s2[i] in s;
    }
  }

  /** With a common first byte the lower three bytes of the upper half decide. */
  lemma SameLeadingByte(T: seq<Byte>, s: seq<SortEntry>, s2: seq<SortEntry>)
    requires ValidEntries(T, s) && ValidEntries(T, s2) && SameEntries(s, s2)
    requires SharedFirstByte(T, s)
    requires SortedModulo(s2, Weight(0))
    ensures UpperSorted(s2)
  {
    StdSort.SameElements(s, s2);
    forall x, y | 0 <= x < y < |s2| ensures Upper(s2[x]) <= Upper(s2[y]) {
      assert s2[x] in s && s2[y] in s;
      var i :| 0 <= i < |s| && s[i] == s2[x];
      var j :| 0 <= j < |s| && s[j] == s2[y];
      assert T[s[i].pos] == T[s[j].pos];
      LeadingByte(T, s2[x]);
      LeadingByte(T, s2[y]);
      assert Upper(s2[x]) % Weight(0) <= Upper(s2[y]) % Weight(0);
    }
  }

  lemma LeadingByte(T: seq<Byte>, e: SortEntry)
    requires ValidEntry(T, e)
    ensures Upper(e) == T[e.pos] as int * 0x100_0000 + Upper(e) % 0x100_0000
  {
    KeyHalves(T, e.pos);
    UpperHalf(T, e.pos);
    assert Upper(e) == KeyOf(T, e.pos, 4) && Pad(T, e.pos, 0) == T[e.pos];
    hide KeyOf, Key, Pad, Upper;
    Remainder(Upper(e), T[e.pos] as int);
  }

  lemma Remainder(u: int, top: int)
    requires 0 <= u - top * 0x100_0000 < 0x100_0000
    ensures u % 0x100_0000 == u - top * 0x100_0000
  {
  }

  // ---------- tie sort ----------

  function EntryLess(T: seq<Byte>): (SortEntry, SortEntry) -> bool
  {
    (a: SortEntry, b: SortEntry) =>
      a.pos < |T| && b.pos < |T| && (a.key < b.key || (a.key == b.key && Less(T, a.pos, b.pos)))
  }

  /** On entries carrying their own key the tie comparator is the suffix order. */
  lemma EntryLessIsSuffixOrder(T: seq<Byte>, a: SortEntry, b: SortEntry)
    requires ValidEntry(T, a) && ValidEntry(T, b)
    ensures EntryLess(T)(a, b) <==> Less(T, a.pos, b.pos)
  {
    if a.key < b.key { KeyOrder(T, a.pos, b.pos, 8); }
    if b.key < a.key { KeyOrder(T, b.pos, a.pos, 8); LessAsymmetric(T, b.pos, a.pos); }
  }

  lemma EntryLessTotal(T: seq<Byte>, s: seq<SortEntry>)
    requires ValidEntries(T, s)
    ensures StdSort.TotalOrderOn(EntryLess(T), s)
  {
    forall x | x in s ensures !EntryLess(T)(x, x) {
      EntryLessIsSuffixOrder(T, x, x);
      LessIrreflexive(T, x.pos);
    }
    forall x, y | x in s && y in s && x != y ensures EntryLess(T)(x, y) <==> !EntryLess(T)(y, x) {
      EntryLessIsSuffixOrder(T, x, y);
      EntryLessIsSuffixOrder(T, y, x);
      LessTotal(T, x.pos, y.pos);
      if Less(T, x.pos, y.pos) { LessAsymmetric(T, x.pos, y.pos); }
    }
    forall x, y, z | x in s && y in s && z in s && EntryLess(T)(x, y) && EntryLess(T)(y, z) ensures EntryLess(T)(x, z) {
      EntryLessIsSuffixOrder(T, x, y);
      EntryLessIsSuffixOrder(T, y, z);
      LessTransitive(T, x.pos, y.pos, z.pos);
      EntryLessIsSuffixOrder(T, x, z);
    }
  }

  /** The first i entries are in final order, and the rest has a larger upper half. */
  ghost predicate TiesSorted(T: seq<Byte>, s: seq<SortEntry>, i: nat)
  {
    && i <= |s| && ValidEntries(T, s) && UpperSorted(s)
    && (forall x, y :: 0 <= x < y < i ==> Ordered(T, s[x].pos, s[y].pos))
    && (0 < i < |s| ==> Upper(s[i - 1]) < Upper(s[i]))
  }

  /** Sorting the run [i, j) of equal upper halves. */
  lemma RunSorted(T: seq<Byte>, s: seq<SortEntry>, i: nat, j: nat, s2: seq<SortEntry>)
    requires TiesSorted(T, s, i) && i < j <= |s| == |s2|
    requires forall k :: i <= k < j ==> Upper(s[k]) == Upper(s[i])
    requires j < |s| ==> Upper(s[j]) != Upper(s[i])
    requires forall k :: 0 <= k < i || j <= k < |s| ==> s2[k] == s[k]
    requires forall k :: i <= k < j ==> s2[k] in s[i..j]
    requires StdSort.SortedBy(EntryLess(T), s2[i..j]) && ValidEntries(T, s2)
    ensures TiesSorted(T, s2, j)
  {
    forall k | i <= k < j ensures Upper(s2[k]) == Upper(s[i]) {
      var x :| 0 <= x < j - i && s[i..j][x] == s2[k];
      assert Upper(s[i + x]) == Upper(s[i]);
    }
    assert UpperSorted(s2);
    forall x, y | 0 <= x < y < j ensures Ordered(T, s2[x].pos, s2[y].pos) {
      assert ValidEntry(T, s2[x]) && ValidEntry(T, s2[y]);
      if i <= x {
        assert !EntryLess(T)(s2[i..j][y - i], s2[i..j][x - i]);
        EntryLessIsSuffixOrder(T, s2[y], s2[x]);
        if s2[x].pos != s2[y].pos { LessTotal(T, s2[x].pos, s2[y].pos); }
      } else if i <= y {
        assert Upper(s2[x]) <= Upper(s[i - 1]) < Upper(s2[y]);
        KeyOrder(T, s2[x].pos, s2[y].pos, 8);
      }
    }
  }

  lemma RunReplaced(s: seq<SortEntry>, i: nat, j: nat, r: seq<SortEntry>, s2: seq<SortEntry>)
    requires i <= j <= |s| && multiset(r) == multiset(s[i..j]) && |r| == j - i
    requires s2 == s[..i] + r + s[j..]
    ensures SameEntries(s, s2)
  {
    assert s == s[..i] + s[i..j] + s[j..];
  }

  lemma RunReplacedSorted(T: seq<Byte>, s: seq<SortEntry>, i: nat, j: nat, r: seq<SortEntry>, s2: seq<SortEntry>)
    requires TiesSorted(T, s, i) && i < j <= |s| && |r| == j - i
    requires forall k :: i <= k < j ==> Upper(s[k]) == Upper(s[i])
    requires j < |s| ==> Upper(s[j]) != Upper(s[i])
    requires multiset(r) == multiset(s[i..j]) && StdSort.SortedBy(EntryLess(T), r)
    requires s2 == s[..i] + r + s[j..]
    ensures TiesSorted(T, s2, j) && SameEntries(s, s2)
  {
    RunReplaced(s, i, j, r, s2);
    SameEntriesValid(T, s, s2);
    StdSort.SameElements(r, s[i..j]);
    hide TiesSorted, SameEntries, Upper, StdSort.SortedBy;
    forall k | i <= k < j ensures s2[k] in s[i..j] { assert s2[k] == r[k - i]; }
    assert s2[i..j] == r;
    RunSorted(T, s, i, j, s2);
  }

  /** Copies a sorted run back to its place. */
  method WriteRun(arr: array<SortEntry>, i: nat, r: seq<SortEntry>)
    requires i + |r| <= arr.Length
    modifies arr
    ensures arr[..] == old(arr[..i]) + r + old(arr[i + |r|..])
  {
    forall k | i <= k < i + |r| { arr[k] := r[k - i]; }
  }

  method SortRun(T: seq<Byte>, arr: array<SortEntry>, i: nat, j: nat)
    requires TiesSorted(T, arr[..], i) && i < j <= arr.Length
    requires forall k :: i <= k < j ==> Upper(arr[k]) == Upper(arr[i])
    requires j < arr.Length ==> Upper(arr[j]) != Upper(arr[i])
    modifies arr
    ensures TiesSorted(T, arr[..], j) && SameEntries(old(arr[..]), arr[..])
  {
    ghost var s := arr[..];
    assert ValidEntries(T, s);
    hide TiesSorted, SameEntries, Upper;
    if j - i > 1 {
      var run := arr[i..j];
      RunValid(T, s, i, j);
      EntryLessTotal(T, run);
      hide ValidEntries, EntryLess, StdSort.TotalOrderOn, StdSort.SortedBy, StdSort.Distinct;
      var r := StdSort.Sort(run, EntryLess(T));
      WriteRun(arr, i, r);
      RunReplacedSorted(T, s, i, j, r, arr[..]);
    } else {
      SingleRun(T, s, i);
    }
  }

  lemma RunValid(T: seq<Byte>, s: seq<SortEntry>, i: nat, j: nat)
    requires i <= j <= |s| && ValidEntries(T, s)
    ensures ValidEntries(T, s[i..j])
  {
  }

  lemma SingleRun(T: seq<Byte>, s: seq<SortEntry>, i: nat)
    requires TiesSorted(T, s, i) && i < |s| && (i + 1 < |s| ==> Upper(s[i + 1]) != Upper(s[i]))
    ensures TiesSorted(T, s, i + 1) && SameEntries(s, s)
  {
    assert s[i..i + 1] == [s[i]];
    RunSorted(T, s, i, i + 1, s);
  }

  method SortTies(T: seq<Byte>, arr: array<SortEntry>)
    requires ValidEntries(T, arr[..]) && UpperSorted(arr[..])
    modifies arr
    ensures ValidEntries(T, arr[..]) && InSuffixOrder(T, arr[..]) && SameEntries(old(arr[..]), arr[..])
  {
    var n := arr.Length;
    var i := 0;
    while i < n
      invariant 0 <= i <= n && TiesSorted(T, arr[..], i) && SameEntries(old(arr[..]), arr[..])
    {
      var j := i + 1;
      while j < n && Upper(arr[j]) == Upper(arr[i])
        invariant i < j <= n
        invariant forall k :: i <= k < j ==> Upper(arr[k]) == Upper(arr[i])
      {
        j := j + 1;
      }
      hide TiesSorted, SameEntries, Upper;
      ghost var before := arr[..];
      SortRun(T, arr, i, j);
      SameEntriesTrans(old(arr[..]), before, arr[..]);
      i := j;
    }
  }

  lemma SameEntriesTrans(a: seq<SortEntry>, b: seq<SortEntry>, c: seq<SortEntry>)
    requires SameEntries(a, b) && SameEntries(b, c)
    ensures SameEntries(a, c)
  {
  }

  // ---------- the whole sort ----------

  /** Returns a permutation of the bucket: in suffix order from 32 entries on, in (key, pos) order below. */
  method RadixSortEntries(T: seq<Byte>, arr: array<SortEntry>)
    requires ValidEntries(T, arr[..])
    requires SharedFirstByte(T, arr[..])
    modifies arr
    ensures SameEntries(old(arr[..]), arr[..]) && ValidEntries(T, arr[..])
    ensures arr.Length >= 32 ==> InSuffixOrder(T, arr[..])
    ensures arr.Length < 32 ==> InKeyPosOrder(arr[..])
  {
    var n := arr.Length;
    if n < 2 { return; }
    ghost var s := arr[..];
    if n < 32 {
      InsertionSort(arr);
      StdSort.SameElements(s, arr[..]);
      SameEntriesValid(T, s, arr[..]);
      return;
    }
    hide ValidEntries, SharedFirstByte, SameEntries, UpperSorted, InSuffixOrder, InKeyPosOrder;
    var temp := new SortEntry[n](i => SortEntry(0, 0, 0));
    RadixPasses(T, arr, temp);
    ghost var sorted := arr[..];
    SortTies(T, arr);
    SameEntriesTrans(s, sorted, arr[..]);
  }
}
