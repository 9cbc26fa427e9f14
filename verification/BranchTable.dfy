/** The opcode table and the list of branched opcodes that the miner is compiled with. */
module BranchTable {
  import opened WolfLanes
  import opened WolfDispatch

  /** Sixteen entries of the table. */
  function Row(r: nat): (row: seq<bv32>)
    requires r < 16
    ensures |row| == 16
  {
    if r == 0 then [0x090F020A, 0x060B0500, 0x09080609, 0x0A0D030B, 0x04070A01, 0x09030607, 0x060D0401, 0x000A0904,
      0x040F0F06, 0x030E070C, 0x04020D02, 0x0B0F050A, 0x0C020C04, 0x0B03070F, 0x07060206, 0x0C060501]
    else if r == 1 then [0x0E020B04, 0x03020F04, 0x0E0D0B0F, 0x010F0600, 0x0503080C, 0x0B030005, 0x0608020B, 0x0D0B0905,
      0x00070E0F, 0x090D0A01, 0x02090008, 0x0F050E0F, 0x0600000F, 0x02030700, 0x050E0F06, 0x040C0602]
    else if r == 2 then [0x0C080D0C, 0x0A0E0802, 0x01060601, 0x00040B03, 0x090B0C0B, 0x0A070702, 0x070D090A, 0x0C030705,
      0x0A030903, 0x0F010D0E, 0x0B0D0C0A, 0x05000501, 0x09090D0A, 0x0F0F0509, 0x09000F0E, 0x0F050F06]
    else if r == 3 then [0x0A04040F, 0x0900080E, 0x080D000B, 0x030E0E0F, 0x0A070409, 0x00090E0E, 0x08030404, 0x080E0E0B,
      0x0C02040B, 0x0A0F0D08, 0x080C0500, 0x0B020A04, 0x0304020D, 0x0F060D0F, 0x05040C00, 0x0F090100]
    else if r == 4 then [0x03080E02, 0x0F0D0C02, 0x0C080E0B, 0x0B090C0F, 0x05040E03, 0x00020807, 0x0302070E, 0x0F040206,
      0x08090306, 0x09080F01, 0x020D0805, 0x0209050E, 0x0A0C0F07, 0x0D000609, 0x0A080201, 0x0E0C0002]
    else if r == 5 then [0x0A060005, 0x0E060A09, 0x03040407, 0x06080D08, 0x010B0600, 0x07030A06, 0x0E0A0E04, 0x000D0E00,
      0x0C0B0204, 0x0002040C, 0x080F0B07, 0x09050E08, 0x09040905, 0x0C020500, 0x0B0A0506, 0x0B040F0F]
    else if r == 6 then [0x0C0C090B, 0x0B060907, 0x0E06070E, 0x0E010807, 0x0A060809, 0x07090704, 0x0D01000D, 0x0B08030A,
      0x08090F00, 0x060D0A0C, 0x080E0B02, 0x070C0F0B, 0x0304050C, 0x020A030C, 0x000C0C07, 0x02080207]
    else if r == 7 then [0x0D040F01, 0x0F0B0904, 0x0B080A04, 0x0A0F050D, 0x05030906, 0x060D0605, 0x0700060F, 0x080C0403,
      0x0C020308, 0x07000902, 0x0E0A0F0C, 0x05040D0D, 0x0C0C0304, 0x080C0007, 0x0D0B0F08, 0x06020503]
    else if r == 8 then [0x0A0C0C0F, 0x04090907, 0x070A0B0E, 0x010B0902, 0x05080F0C, 0x030F0C06, 0x040E0B05, 0x070C0008,
      0x0701030F, 0x0F07080A, 0x03030001, 0x0F0D0C0D, 0x0B0C030F, 0x0B010900, 0x050F080C, 0x050D0706]
    else if r == 9 then [0x0A06040A, 0x080E0C0E, 0x05060509, 0x04060E02, 0x050F0601, 0x03080100, 0x06060605, 0x00060206,
      0x0704060C, 0x0B0D0404, 0x0F040309, 0x01030903, 0x07070D0B, 0x07060A0B, 0x090D000B, 0x01030A03]
    else if r == 10 then [0x07080B0D, 0x03030F0A, 0x02080C01, 0x06010E0B, 0x02090104, 0x0E030600, 0x0D000C04, 0x04040207,
      0x0A050A0B, 0x0B060E05, 0x01080102, 0x0D010908, 0x0E01060B, 0x04060200, 0x040A0909, 0x0D01020F]
    else if r == 11 then [0x0302030F, 0x090C0C05, 0x0500040B, 0x0C000708, 0x070E0301, 0x04060C0F, 0x030B0F0E, 0x00010102,
      0x06020F03, 0x040E0F07, 0x0C0E0107, 0x0304000D, 0x0E090E0E, 0x0F0E0301, 0x0F07050C, 0x000D0A07]
    else if r == 12 then [0x00060002, 0x05060A0B, 0x050A0605, 0x090C030E, 0x0D08060B, 0x0E0A0202, 0x0707080B, 0x04000203,
      0x07090808, 0x0D0C0E04, 0x03040A0F, 0x03050B0A, 0x0F0C0A03, 0x090E0600, 0x0E080809, 0x0F0D0909]
    else if r == 13 then [0x0000070D, 0x0F080901, 0x0C0A0F04, 0x0E00010A, 0x0A0C0303, 0x00060D01, 0x03010704, 0x03050602,
      0x0A040105, 0x0F000B0E, 0x08040201, 0x0E0D0508, 0x0B060806, 0x0F030408, 0x07060302, 0x0D030A01]
    else if r == 14 then [0x0C0B0D06, 0x0407080D, 0x08010203, 0x04060105, 0x00070009, 0x0D0A0C09, 0x02050A0A, 0x0D070308,
      0x02020E0F, 0x0B090D09, 0x05020703, 0x0C020D04, 0x03000501, 0x0F060C0D, 0x00000D01, 0x0F0B0205]
    else [0x04000506, 0x0E09030B, 0x00000103, 0x0F0C090B, 0x040C080F, 0x010F0C07, 0x000B0700, 0x0F0C0F04,
      0x0401090F, 0x080E0E0A, 0x050A090E, 0x0009080C, 0x080E0C06, 0x0D0C030D, 0x090D0C0D, 0x090D0C0D]
  }

  /** The opcodes of a row whose operations read the byte at pos2. */
  function BranchedIn(r: nat): seq<nat>
    requires r < 16
  {
    if r == 0 then [1, 3, 5, 9, 11, 13, 15]
    else if r == 1 then [17, 20, 21, 23, 27, 29, 30]
    else if r == 2 then [35, 39, 40, 43, 45, 47]
    else if r == 3 then [51, 54, 58, 60, 62]
    else if r == 4 then [64, 68, 70, 72, 74, 75]
    else if r == 5 then [80, 82, 85, 91, 92, 93, 94]
    else if r == 6 then [103, 108, 109]
    else if r == 7 then [115, 116, 117, 119, 120, 123, 124, 127]
    else if r == 8 then [132, 133, 134, 136, 138, 140, 142, 143]
    else if r == 9 then [146, 148, 149, 150, 154, 155, 159]
    else if r == 10 then [161, 165, 168, 169]
    else if r == 11 then [176, 177, 178, 180, 182, 184, 187, 189, 190]
    else if r == 12 then [193, 194, 195, 199, 202, 203, 204]
    else if r == 13 then [212, 214, 215, 216, 219, 221, 222, 223]
    else if r == 14 then [226, 227, 230, 231, 234, 236, 239]
    else [240, 241, 242, 250, 253]
  }

  function Table(r: nat): seq<bv32>
    requires r <= 16
  {
    if r == 0 then [] else Table(r - 1) + Row(r - 1)
  }

  function BranchedOps(r: nat): seq<nat>
    requires r <= 16
  {
    if r == 0 then [] else BranchedOps(r - 1) + BranchedIn(r - 1)
  }

  const CODE_LUT: seq<bv32> := Table(16)
  const BRANCHED: seq<nat> := BranchedOps(16)

  /** No byte of the entry is above 15. */
  predicate SmallBytes(f: bv32) { f & 0xF0F0F0F0 == 0 }

  lemma SmallInsns(f: bv32, i: nat)
    requires SmallBytes(f) && i < 4
    ensures Insn(f, i) <= 15
  {
  }

  predicate NoPos2(f: bv32) {
    && Insn(f, 0) != 3 && Insn(f, 0) != 5 && Insn(f, 1) != 3 && Insn(f, 1) != 5
    && Insn(f, 2) != 3 && Insn(f, 2) != 5 && Insn(f, 3) != 3 && Insn(f, 3) != 5
  }

  lemma NoPos2IsUnary(f: bv32)
    requires NoPos2(f)
    ensures Unary(f)
  {
    hide Insn;
  }

  predicate RowValid(r: nat)
    requires r < 16
  {
    forall k :: 0 <= k < 16 ==> SmallBytes(Row(r)[k]) && (NoPos2(Row(r)[k]) <==> 16 * r + k !in BranchedIn(r))
  }

  lemma Row0Valid()
    ensures RowValid(0)
  {
  }

  lemma Row1Valid()
    ensures RowValid(1)
  {
  }

  lemma Row2Valid()
    ensures RowValid(2)
  {
  }

  lemma Row3Valid()
    ensures RowValid(3)
  {
  }

  lemma Row4Valid()
    ensures RowValid(4)
  {
  }

  lemma Row5Valid()
    ensures RowValid(5)
  {
  }

  lemma Row6Valid()
    ensures RowValid(6)
  {
  }

  lemma Row7Valid()
    ensures RowValid(7)
  {
  }

  lemma Row8Valid()
    ensures RowValid(8)
  {
  }

  lemma Row9Valid()
    ensures RowValid(9)
  {
  }

  lemma Row10Valid()
    ensures RowValid(10)
  {
  }

  lemma Row11Valid()
    ensures RowValid(11)
  {
  }

  lemma Row12Valid()
    ensures RowValid(12)
  {
  }

  lemma Row13Valid()
    ensures RowValid(13)
  {
  }

  lemma Row14Valid()
    ensures RowValid(14)
  {
  }

  lemma Row15Valid()
    ensures RowValid(15)
  {
  }

  lemma RowsValid(r: nat)
    requires r < 16
    ensures RowValid(r)
  {
    hide RowValid;
    if r == 0 { Row0Valid(); }
    else if r == 1 { Row1Valid(); }
    else if r == 2 { Row2Valid(); }
    else if r == 3 { Row3Valid(); }
    else if r == 4 { Row4Valid(); }
    else if r == 5 { Row5Valid(); }
    else if r == 6 { Row6Valid(); }
    else if r == 7 { Row7Valid(); }
    else if r == 8 { Row8Valid(); }
    else if r == 9 { Row9Valid(); }
    else if r == 10 { Row10Valid(); }
    else if r == 11 { Row11Valid(); }
    else if r == 12 { Row12Valid(); }
    else if r == 13 { Row13Valid(); }
    else if r == 14 { Row14Valid(); }
    else { Row15Valid(); }
  }

  lemma BranchedRange(r: nat, op: nat)
    requires r < 16
    ensures op in BranchedIn(r) ==> 16 * r <= op < 16 * r + 16
  {
  }

  /** The first r rows: small bytes, and branched exactly where an operation reads pos2. */
  lemma {:induction false} TableValid(r: nat, op: nat)
    requires r <= 16
    ensures |Table(r)| == 16 * r
    ensures op < 16 * r ==> SmallBytes(Table(r)[op]) && (NoPos2(Table(r)[op]) <==> op !in BranchedOps(r))
    ensures op in BranchedOps(r) ==> op < 16 * r
  {
    hide SmallBytes, NoPos2, Row, BranchedIn;
    if r > 0 {
      TableValid(r - 1, op);
      RowsValid(r - 1);
      BranchedRange(r - 1, op);
      if 16 * (r - 1) <= op < 16 * r { assert Table(r)[op] == Row(r - 1)[op - 16 * (r - 1)]; }
    }
  }

  /** The table meets what the three forms of the branch stage need; the branched opcodes are exactly those that
      need it. */
  lemma TableIsValid()
    ensures ValidCode(CODE_LUT, BRANCHED)
    ensures forall op :: 0 <= op < 256 ==> (op in BRANCHED <==> !Unary(CODE_LUT[op]))
  {
    hide Table, BranchedOps, SmallBytes, NoPos2;
    TableValid(16, 0);
    forall op, i | 0 <= op < 256 && 0 <= i < 4 ensures Insn(CODE_LUT[op], i) <= 15 {
      TableValid(16, op);
      SmallInsns(CODE_LUT[op], i);
    }
    forall op | 0 <= op < 256 ensures op in BRANCHED <==> !Unary(CODE_LUT[op]) {
      TableValid(16, op);
      if NoPos2(CODE_LUT[op]) { NoPos2IsUnary(CODE_LUT[op]); } else { SomePos2(CODE_LUT[op]); }
    }
    SomeBranch();
  }

  lemma SomePos2(f: bv32)
    requires !NoPos2(f)
    ensures !Unary(f)
  {
    hide Insn;
  }

  lemma SomeBranch()
    ensures 1 in BRANCHED
  {
    assert 1 in BranchedIn(0);
    hide BranchedIn;
    StaysBranched(16, 1);
  }

  lemma {:induction false} StaysBranched(r: nat, op: nat)
    requires 0 < r <= 16 && op in BranchedIn(0)
    ensures op in BranchedOps(r)
  {
    hide BranchedIn;
    if r > 1 { StaysBranched(r - 1, op); }
  }
}
