/** The branch stage on one chunk, in three forms: byte by byte, through a lookup table, and two bytes
    per 16-bit lane. All three leave the same 256 bytes. */
module WolfDispatch {
  import opened Suffix
  import opened WolfLanes

  const CHUNK: nat := 256

  // ---------- opcodes ----------

  /** Instruction i of a table entry, one byte each. */
  function Insn(opcode: bv32, i: nat): bv8
    requires i < 4
  {
    if i == 0 then (opcode & 0xFF) as bv8
    else if i == 1 then ((opcode >> 8) & 0xFF) as bv8
    else if i == 2 then ((opcode >> 16) & 0xFF) as bv8
    else (opcode >> 24) as bv8
  }

  /** Instruction i of a compressed entry, four bits each. */
  function Nibble(c: bv16, i: nat): bv8
    requires i < 4
  {
    if i == 0 then (c & 0xF) as bv8
    else if i == 1 then ((c >> 4) & 0xF) as bv8
    else if i == 2 then ((c >> 8) & 0xF) as bv8
    else (c >> 12) as bv8
  }

  function Compress(f: bv32): bv16 {
    ((((f >> 24) & 0x0F) as bv16) << 12) | ((((f >> 16) & 0x0F) as bv16) << 8)
    | ((((f >> 8) & 0x0F) as bv16) << 4) | ((f & 0x0F) as bv16)
  }

  /** Compression loses nothing when every instruction is below 16. */
  lemma CompressKeeps(f: bv32, i: nat)
    requires i < 4
    ensures Insn(f, i) <= 15 ==> Nibble(Compress(f), i) == Insn(f, i)
  {
  }

  /** Instructions n - 1 down to 0 on one byte. */
  function BranchFrom(val: bv8, pos2val: bv8, opcode: bv32, n: nat): bv8
    requires n <= 4
    decreases n
  {
    if n == 0 then val else BranchFrom(MicroOp(Insn(opcode, n - 1), val, pos2val), pos2val, opcode, n - 1)
  }

  function WolfBranch(val: bv8, pos2val: bv8, opcode: bv32): bv8 {
    BranchFrom(val, pos2val, opcode, 4)
  }

  /** No instruction reads the byte at pos2. */
  predicate Unary(opcode: bv32) {
    forall i :: 0 <= i < 4 ==> Insn(opcode, i) != 3 && Insn(opcode, i) != 5
  }

  lemma {:induction false} UnaryIgnoresPos2(val: bv8, p: bv8, q: bv8, opcode: bv32, n: nat)
    requires n <= 4 && Unary(opcode)
    ensures BranchFrom(val, p, opcode, n) == BranchFrom(val, q, opcode, n)
    decreases n
  {
    hide Insn;
    if n > 0 {
      var insn := Insn(opcode, n - 1);
      MicroUnary(insn, val, p, q);
      UnaryIgnoresPos2(MicroOp(insn, val, p), p, q, opcode, n - 1);
    }
  }

  lemma MicroUnary(insn: bv8, val: bv8, p: bv8, q: bv8)
    requires insn != 3 && insn != 5
    ensures MicroOp(insn, val, p) == MicroOp(insn, val, q)
  {
  }

  /** The opcode table: every instruction below 16, and no pos2 byte in an entry outside branched. */
  ghost predicate ValidCode(code: seq<bv32>, branched: seq<nat>) {
    && |code| == 256
    && (forall op, i :: 0 <= op < 256 && 0 <= i < 4 ==> Insn(code[op], i) <= 15)
    && (forall op :: 0 <= op < 256 && op !in branched ==> Unary(code[op]))
    && (exists op :: 0 <= op < 256 && op in branched)
  }

  // ---------- tables ----------

  method InitCodeLut16(code: seq<bv32>) returns (code16: seq<bv16>)
    requires |code| == 256
    ensures |code16| == 256
    ensures forall op, i :: 0 <= op < 256 && 0 <= i < 4 && Insn(code[op], i) <= 15 ==> Nibble(code16[op], i) == Insn(code[op], i)
  {
    hide Insn, Nibble, Compress;
    code16 := [];
    for op := 0 to 256
      invariant |code16| == op
      invariant forall o, i :: 0 <= o < op && 0 <= i < 4 && Insn(code[o], i) <= 15 ==> Nibble(code16[o], i) == Insn(code[o], i)
    {
      forall i | 0 <= i < 4 ensures Insn(code[op], i) <= 15 ==> Nibble(Compress(code[op]), i) == Insn(code[op], i) {
        CompressKeeps(code[op], i);
      }
      code16 := code16 + [Compress(code[op])];
    }
  }

  /** The one-dimensional table: which opcodes have rows, where the row is, and the rows. */
  datatype Lut = Lut(isBranched: seq<bool>, regIdx: seq<Byte>, lookup: seq<bv8>)

  ghost predicate LutOk(t: Lut, code: seq<bv32>, branched: seq<nat>)
    requires |code| == 256
  {
    && |t.isBranched| == 256 == |t.regIdx|
    && forall op :: 0 <= op < 256 ==>
         && (t.isBranched[op] <==> op in branched)
         && (!t.isBranched[op] ==> RowOk(t.lookup, t.regIdx[op], code[op]))
  }

  ghost predicate RowOk(lookup: seq<bv8>, row: nat, opcode: bv32) {
    && (row + 1) * CHUNK <= |lookup|
    && forall v: bv8 :: lookup[row * CHUNK + v as nat] == WolfBranch(v, 0, opcode)
  }

  method FillRow(opcode: bv32) returns (row: seq<bv8>)
    ensures |row| == CHUNK && forall v: bv8 :: row[v as nat] == WolfBranch(v, 0, opcode)
  {
    hide WolfBranch;
    row := [];
    for v := 0 to CHUNK
      invariant |row| == v
      invariant forall u: bv8 :: u as nat < v ==> row[u as nat] == WolfBranch(u, 0, opcode)
    {
      row := row + [WolfBranch(v as bv8, 0, opcode)];
    }
  }

  lemma RowAppended(lookup: seq<bv8>, row: seq<bv8>, r: nat, opcode: bv32)
    requires RowOk(lookup, r, opcode)
    ensures RowOk(lookup + row, r, opcode)
  {
  }

  /** How many of the opcodes below n are outside branched. */
  ghost function Unbranched(branched: seq<nat>, n: nat): (k: nat)
    ensures k <= n
  {
    if n == 0 then 0 else Unbranched(branched, n - 1) + if n - 1 in branched then 0 else 1
  }

  lemma {:induction false} SomeBranched(branched: seq<nat>, n: nat, op: nat)
    requires op < n && op in branched
    ensures Unbranched(branched, n) < n
  {
    if op < n - 1 { SomeBranched(branched, n - 1, op); }
  }

  /** Rows are built in opcode order for the entries outside branched. One branched opcode is enough to keep
      the row counter in a byte, and with it the size of the table. */
  method InitLut(code: seq<bv32>, branched: seq<nat>) returns (t: Lut)
    requires |code| == 256 && exists op :: 0 <= op < 256 && op in branched
    ensures LutOk(t, code, branched) && |t.lookup| <= 255 * CHUNK
  {
    hide WolfBranch, RowOk;
    var isBranched: seq<bool>, regIdx: seq<Byte>, lookup: seq<bv8> := [], [], [];
    var rc: Byte := 0;
    for op := 0 to 256
      invariant |isBranched| == op == |regIdx| && |lookup| == rc * CHUNK && rc == Unbranched(branched, op)
      invariant forall o :: 0 <= o < op ==> (isBranched[o] <==> o in branched)
      invariant forall o :: 0 <= o < op && !isBranched[o] ==> RowOk(lookup, regIdx[o], code[o])
    {
      if op in branched {
        isBranched, regIdx := isBranched + [true], regIdx + [0xFF];
      } else {
        var row := FillRow(code[op]);
        forall o | 0 <= o < op && !isBranched[o] ensures RowOk(lookup + row, regIdx[o], code[o]) {
          RowAppended(lookup, row, regIdx[o], code[o]);
        }
        NewRow(lookup, row, rc, code[op]);
        isBranched, regIdx, lookup := isBranched + [false], regIdx + [rc], lookup + row;
        ghost var b :| 0 <= b < 256 && b in branched;
        if op == 255 { SomeBranched(branched, 256, b); }
        rc := rc + 1;
      }
    }
    t := Lut(isBranched, regIdx, lookup);
  }

  lemma NewRow(lookup: seq<bv8>, row: seq<bv8>, r: nat, opcode: bv32)
    requires |lookup| == r * CHUNK && |row| == CHUNK && forall v: bv8 :: row[v as nat] == WolfBranch(v, 0, opcode)
    ensures RowOk(lookup + row, r, opcode)
  {
    hide WolfBranch;
  }

  // ---------- one chunk ----------

  /** The chunk after the branch stage: only offsets p1 to p2 - 1 change. */
  ghost function Branched(prev: seq<bv8>, p1: nat, p2: nat, opcode: bv32): (r: seq<bv8>)
    requires |prev| == CHUNK && p1 <= p2 < CHUNK
    ensures |r| == CHUNK
  {
    seq(CHUNK, (j: nat) requires j < CHUNK => if p1 <= j < p2 then WolfBranch(prev[j], prev[p2], opcode) else prev[j])
  }

  /** The chunk is a copy of the chunk before it, or is that chunk itself. */
  ghost predicate Copied(buf: seq<bv8>, prev: nat, chunk: nat) {
    && (prev == chunk || prev + CHUNK <= chunk) && chunk + CHUNK + 32 <= |buf|
    && buf[chunk..chunk + CHUNK] == buf[prev..prev + CHUNK]
  }

  /** What a dispatch leaves behind: everything before the chunk untouched, and the branched chunk. */
  ghost predicate Dispatched(before: seq<bv8>, after: seq<bv8>, prev: nat, chunk: nat, p1: nat, p2: nat, opcode: bv32)
    requires prev <= chunk && chunk + CHUNK <= |before| && p1 <= p2 < CHUNK
  {
    && |after| == |before| && after[..chunk] == before[..chunk]
    && after[chunk..chunk + CHUNK] == Branched(before[prev..prev + CHUNK], p1, p2, opcode)
  }

  method BranchScalar(buf: array<bv8>, prev: nat, chunk: nat, p1: nat, p2: nat, opcode: bv32)
    requires Copied(buf[..], prev, chunk) && p1 <= p2 < CHUNK
    modifies buf
    ensures Dispatched(old(buf[..]), buf[..], prev, chunk, p1, p2, opcode)
  {
    hide WolfBranch;
    ghost var was := buf[..];
    ghost var base := was[prev..prev + CHUNK];
    ghost var after := Branched(base, p1, p2, opcode);
    for i := p1 to p2
      invariant forall k :: 0 <= k < buf.Length && !(chunk + p1 <= k < chunk + i) ==> buf[k] == was[k]
      invariant forall k :: chunk + p1 <= k < chunk + i ==> buf[k] == after[k - chunk]
    {
      assert base[i] == buf[prev + i] && base[p2] == buf[prev + p2];
      buf[chunk + i] := WolfBranch(buf[prev + i], buf[prev + p2], opcode);
    }
    DispatchedFrom(was, buf[..], prev, chunk, p1, p2, opcode);
  }

  method BranchLut(buf: array<bv8>, prev: nat, chunk: nat, p1: nat, p2: nat, ghost opcode: bv32, lookup: seq<bv8>, row: nat)
    requires Copied(buf[..], prev, chunk) && p1 <= p2 < CHUNK && RowOk(lookup, row, opcode) && Unary(opcode)
    modifies buf
    ensures Dispatched(old(buf[..]), buf[..], prev, chunk, p1, p2, opcode)
  {
    hide WolfBranch, Unary;
    ghost var was := buf[..];
    ghost var base := was[prev..prev + CHUNK];
    ghost var after := Branched(base, p1, p2, opcode);
    for i := p1 to p2
      invariant forall k :: 0 <= k < buf.Length && !(chunk + p1 <= k < chunk + i) ==> buf[k] == was[k]
      invariant forall k :: chunk + p1 <= k < chunk + i ==> buf[k] == after[k - chunk]
    {
      var v := buf[prev + i];
      buf[chunk + i] := lookup[row * CHUNK + v as nat];
      assert v == base[i];
      UnaryRow(v, base[p2], opcode);
    }
    DispatchedFrom(was, buf[..], prev, chunk, p1, p2, opcode);
  }

  lemma UnaryRow(v: bv8, p: bv8, opcode: bv32)
    requires Unary(opcode)
    ensures WolfBranch(v, 0, opcode) == WolfBranch(v, p, opcode)
  {
    UnaryIgnoresPos2(v, 0, p, opcode, 4);
  }

  lemma DispatchedFrom(was: seq<bv8>, now: seq<bv8>, prev: nat, chunk: nat, p1: nat, p2: nat, opcode: bv32)
    requires Copied(was, prev, chunk) && |now| == |was| && p1 <= p2 < CHUNK
    requires forall k :: 0 <= k < chunk + p1 || chunk + p2 <= k < chunk + CHUNK ==> now[k] == was[k]
    requires var after := Branched(was[prev..prev + CHUNK], p1, p2, opcode);
             forall k :: chunk + p1 <= k < chunk + p2 ==> now[k] == after[k - chunk]
    ensures Dispatched(was, now, prev, chunk, p1, p2, opcode)
  {
    hide WolfBranch;
    var after := Branched(was[prev..prev + CHUNK], p1, p2, opcode);
    forall j | 0 <= j < CHUNK ensures now[chunk..chunk + CHUNK][j] == after[j] {
      assert was[chunk..chunk + CHUNK][j] == was[prev..prev + CHUNK][j];
      assert now[chunk + j] == if p1 <= j < p2 then after[chunk + j - chunk] else was[chunk + j];
    }
  }

  // ---------- lanes ----------

  type Vector = s: seq<bv16> | |s| == 16 witness seq(16, _ => 0)

  function VectorOp(insn: bv8, v: Vector, pos2vec: bv16): Vector {
    seq(16, (k: nat) requires k < 16 => LaneOp(insn, v[k], pos2vec))
  }

  /** Byte j of a register, lowest first. */
  function ByteOf(v: Vector, j: nat): bv8
    requires j < 32
  {
    if j % 2 == 0 then Lo(v[j / 2]) else Hi(v[j / 2])
  }

  lemma VectorOpBytes(insn: bv8, v: Vector, p: bv8, j: nat)
    requires j < 32
    ensures ByteOf(VectorOp(insn, v, Pair(p, p)), j) == MicroOp(insn, ByteOf(v, j), p)
  {
    LaneOpBytes(insn, v[j / 2], p);
    hide LaneOp, MicroOp, Lo, Hi;
  }

  method Load(buf: array<bv8>, at: nat) returns (v: Vector)
    requires at + 32 <= buf.Length
    ensures forall j :: 0 <= j < 32 ==> ByteOf(v, j) == buf[at + j]
  {
    hide Lo, Hi;
    v := seq(16, (k: nat) requires k < 16 && at + 32 <= buf.Length reads buf => Pair(buf[at + 2 * k], buf[at + 2 * k + 1]));
    forall j | 0 <= j < 32 ensures ByteOf(v, j) == buf[at + j] {
      assert v[j / 2] == Pair(buf[at + 2 * (j / 2)], buf[at + 2 * (j / 2) + 1]);
    }
  }

  /** The permutation runs all four instructions on 32 bytes from p1 on, then keeps the first p2 - p1 of
      them; the store writes all 32, so bytes after the chunk may change. */
  method BranchLanes(buf: array<bv8>, prev: nat, chunk: nat, p1: nat, p2: nat, ghost opcode: bv32, opcode16: bv16)
    requires Copied(buf[..], prev, chunk) && p1 <= p2 < CHUNK && p2 - p1 <= 32
    requires forall i :: 0 <= i < 4 ==> Nibble(opcode16, i) == Insn(opcode, i)
    modifies buf
    ensures Dispatched(old(buf[..]), buf[..], prev, chunk, p1, p2, opcode)
  {
    hide WolfBranch, Nibble, Insn, ByteOf, VectorOp;
    ghost var was := buf[..];
    var old32 := Load(buf, prev + p1);
    var pos2val := buf[prev + p2];
    var data := RunLanes(old32, pos2val, opcode, opcode16);
    var len := p2 - p1;
    for j := 0 to 32
      invariant forall k :: 0 <= k < buf.Length && !(chunk + p1 <= k < chunk + p1 + j) ==> buf[k] == was[k]
      invariant forall k :: 0 <= k < j ==> buf[chunk + p1 + k] == if k < len then ByteOf(data, k) else ByteOf(old32, k)
    {
      buf[chunk + p1 + j] := if j < len then ByteOf(data, j) else ByteOf(old32, j);
    }
    StoredBytes(was, buf[..], prev, chunk, p1, p2, opcode, old32, data);
  }

  lemma StoredBytes(was: seq<bv8>, now: seq<bv8>, prev: nat, chunk: nat, p1: nat, p2: nat, opcode: bv32, old32: Vector, data: Vector)
    requires Copied(was, prev, chunk) && |now| == |was| && p1 <= p2 < CHUNK && p2 - p1 <= 32
    requires forall j :: 0 <= j < 32 ==> ByteOf(old32, j) == was[prev + p1 + j]
    requires forall j :: 0 <= j < 32 ==> ByteOf(data, j) == WolfBranch(ByteOf(old32, j), was[prev + p2], opcode)
    requires forall k :: 0 <= k < |was| && !(chunk + p1 <= k < chunk + p1 + 32) ==> now[k] == was[k]
    requires forall k :: 0 <= k < 32 ==> now[chunk + p1 + k] == if k < p2 - p1 then ByteOf(data, k) else ByteOf(old32, k)
    ensures Dispatched(was, now, prev, chunk, p1, p2, opcode)
  {
    hide WolfBranch, ByteOf;
    var base := was[prev..prev + CHUNK];
    var after := Branched(base, p1, p2, opcode);
    forall k | chunk + p1 <= k < chunk + p2 ensures now[k] == after[k - chunk] {
      var j := k - chunk - p1;
      assert now[chunk + p1 + j] == ByteOf(data, j) && base[p1 + j] == was[prev + p1 + j] && base[p2] == was[prev + p2];
    }
    forall k | chunk + p2 <= k < chunk + CHUNK ensures now[k] == was[k] {
      if k < chunk + p1 + 32 {
        var j := k - chunk - p1;
        assert now[chunk + p1 + j] == ByteOf(old32, j) == was[prev + p1 + j];
        assert was[chunk..chunk + CHUNK][p1 + j] == base[p1 + j];
      }
    }
    DispatchedFrom(was, now, prev, chunk, p1, p2, opcode);
  }

  /** All four instructions on the whole register. */
  method RunLanes(start: Vector, pos2val: bv8, ghost opcode: bv32, opcode16: bv16) returns (data: Vector)
    requires forall i :: 0 <= i < 4 ==> Nibble(opcode16, i) == Insn(opcode, i)
    ensures forall j :: 0 <= j < 32 ==> ByteOf(data, j) == WolfBranch(ByteOf(start, j), pos2val, opcode)
  {
    hide Nibble, Insn, ByteOf, VectorOp, MicroOp;
    data := start;
    var pos2vec := Pair(pos2val, pos2val);
    for i := 4 downto 0
      invariant forall j :: 0 <= j < 32 ==>
                  BranchFrom(ByteOf(data, j), pos2val, opcode, i) == BranchFrom(ByteOf(start, j), pos2val, opcode, 4)
    {
      var insn := Nibble(opcode16, i);
      var next := VectorOp(insn, data, pos2vec);
      forall j | 0 <= j < 32
        ensures BranchFrom(ByteOf(next, j), pos2val, opcode, i) == BranchFrom(ByteOf(data, j), pos2val, opcode, i + 1)
      {
        VectorOpBytes(insn, data, pos2val, j);
      }
      data := next;
    }
  }

  // ---------- the choice ----------

  /** Whatever the table state and the processor, the chunk is the same. */
  method Dispatch(buf: array<bv8>, prev: nat, chunk: nat, op: nat, p1: nat, p2: nat, code: seq<bv32>, code16: seq<bv16>,
                  lut: Lut, lutReady: bool, hasAvx2: bool, ghost branched: seq<nat>)
    requires Copied(buf[..], prev, chunk) && p1 <= p2 < CHUNK && p2 - p1 <= 32 && op < 256
    requires ValidCode(code, branched) && |code16| == 256
    requires forall i :: 0 <= i < 4 ==> Nibble(code16[op], i) == Insn(code[op], i)
    requires lutReady ==> LutOk(lut, code, branched)
    modifies buf
    ensures Dispatched(old(buf[..]), buf[..], prev, chunk, p1, p2, code[op])
  {
    hide Insn, Nibble, Unary, Dispatched, RowOk, Copied;
    if lutReady && !lut.isBranched[op] && op < 253 {
      BranchLut(buf, prev, chunk, p1, p2, code[op], lut.lookup, lut.regIdx[op]);
    } else if hasAvx2 {
      BranchLanes(buf, prev, chunk, p1, p2, code[op], code16[op]);
    } else {
      BranchScalar(buf, prev, chunk, p1, p2, code[op]);
    }
  }
}
