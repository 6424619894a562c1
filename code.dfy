/**
 * The instruction format of package `code`: an opcode table, the encoder
 * `Make`, the decoders `ReadOperands` and `ReadUnit16`, and the disassembler
 * `Instructions.String` with its line formatter `fmtInstruction`.
 *
 * An instruction is one opcode byte followed by its operands, each written
 * big-endian at the width the opcode's definition declares.
 */
module Code {
  import opened Ints
  import opened Wrappers
  import Decimal

  type Opcode = Byte

  /*
   * Only `OpConstant = 0` is declared in code/code.go. The other opcodes are
   * used by the compiler and the tests; their byte values here are an
   * assumption (distinct, after OpConstant), each with no operands.
   */
  const OpConstant: Opcode := 0
  const OpAdd: Opcode := 1
  const OpPop: Opcode := 2
  const OpSub: Opcode := 3
  const OpMul: Opcode := 4
  const OpDiv: Opcode := 5
  const OpTrue: Opcode := 6
  const OpFalse: Opcode := 7
  const OpEqual: Opcode := 8
  const OpNotEqual: Opcode := 9
  const OpGreaterThan: Opcode := 10

  datatype Definition = Definition(name: string, operandWidths: seq<nat>)

  /** The opcodes the table defines: the bytes OpConstant to OpGreaterThan. */
  predicate Defined(op: Byte)
  {
    op <= OpGreaterThan
  }

  /** The operand widths column of the table: OpConstant takes one 2-byte operand, every other opcode none. */
  function Widths(op: Opcode): seq<nat>
  {
    if op == OpConstant then [2] else []
  }

  /** The mnemonic column of the table. */
  function Name(op: Opcode): string
    requires Defined(op)
  {
    if op == OpConstant then "OpConstant"
    else if op == OpAdd then "OpAdd"
    else if op == OpPop then "OpPop"
    else if op == OpSub then "OpSub"
    else if op == OpMul then "OpMul"
    else if op == OpDiv then "OpDiv"
    else if op == OpTrue then "OpTrue"
    else if op == OpFalse then "OpFalse"
    else if op == OpEqual then "OpEqual"
    else if op == OpNotEqual then "OpNotEqual"
    else "OpGreaterThan"
  }

  /** The row of the table for a defined opcode. */
  function DefinitionOf(op: Opcode): Definition
    requires Defined(op)
  {
    Definition(Name(op), Widths(op))
  }

  /** The opcode table `definitions`: each defined opcode's mnemonic and operand widths. */
  const Definitions: map<Opcode, Definition> :=
    map op: Opcode | Defined(op) :: DefinitionOf(op)

  /**
   * The table: `OpConstant` is the one opcode with an operand, a single
   * two-byte one; the others take none, and no two opcodes share a mnemonic.
   */
  lemma DefinitionTable(a: Opcode, b: Opcode)
    requires Defined(a) && Defined(b)
    ensures a in Definitions && Definitions[a] == DefinitionOf(a)
    ensures DefinitionOf(a).operandWidths == if a == OpConstant then [2] else []
    ensures a == OpConstant ==> DefinitionOf(a).name == "OpConstant"
    ensures a != b ==> DefinitionOf(a).name != DefinitionOf(b).name
  {
  }

  /** The definition of a raw opcode byte, or the error `opcode <n> undefined`. */
  function Lookup(op: Byte): (r: Result<Definition, string>)
    ensures r.Success? <==> OpConstant <= op <= OpGreaterThan
    ensures r.Success? ==> r.value == DefinitionOf(op) && r.value.operandWidths == Widths(op)
    ensures r.Failure? ==> r.error == "opcode " + Decimal.NatToString(op) + " undefined"
  {
    if op in Definitions then Success(Definitions[op])
    else Failure("opcode " + Decimal.NatToString(op) + " undefined")
  }

  // ---------------------------------------------------------------------
  // Encoding (specification)
  // ---------------------------------------------------------------------

  lemma ConcatAssoc<T>(a: seq<T>, b: seq<T>, c: seq<T>)
    ensures a + b + c == a + (b + c)
  {
  }

  /** Total width, in bytes, of a list of operand widths. */
  function Sum(ws: seq<nat>): nat
  {
    if ws == [] then 0 else Sum(ws[..|ws| - 1]) + ws[|ws| - 1]
  }

  lemma {:induction false} SumPrefix(ws: seq<nat>, i: nat)
    requires i <= |ws|
    ensures Sum(ws[..i]) <= Sum(ws)
    decreases |ws|
  {
    if i < |ws| {
      var n := |ws| - 1;
      assert ws[..n][..i] == ws[..i];
      SumPrefix(ws[..n], i);
    } else {
      assert ws[..i] == ws;
    }
  }

  function Zeros(n: nat): (r: seq<Byte>)
    ensures |r| == n && forall i :: 0 <= i < n ==> r[i] == 0
  {
    seq(n, _ => 0)
  }

  /** `binary.BigEndian.PutUint16` of `uint16(v)`: Go's conversion keeps `v` modulo 2^16. */
  function BigEndian16(v: int): (r: seq<Byte>)
    ensures |r| == 2 && r[0] as int * 256 + r[1] as int == v % 0x1_0000
  {
    var u := v % 0x1_0000;
    [u / 256, u % 256]
  }

  /** One operand at its width. Only width 2 is written; any other width stays zero. */
  function Field(width: nat, v: int): (r: seq<Byte>)
    ensures |r| == width
  {
    if width == 2 then BigEndian16(v) else Zeros(width)
  }

  /** The operands, one per width, laid out one after the other. */
  function Fields(ws: seq<nat>, vals: seq<int>): (r: seq<Byte>)
    requires |vals| == |ws|
    ensures |r| == Sum(ws)
  {
    if ws == [] then []
    else
      var n := |ws| - 1;
      Fields(ws[..n], vals[..n]) + Field(ws[n], vals[n])
  }

  /** What Make demands of its caller: no more operands than the definition has widths. */
  predicate Encodable(op: Opcode, operands: seq<int>)
  {
    Defined(op) ==> |operands| <= |Widths(op)|
  }

  /** The bytes of one instruction: the opcode, each supplied operand at its width, zeros for the slots not supplied. */
  function Encode(op: Opcode, operands: seq<int>): (r: seq<Byte>)
    requires Encodable(op, operands)
    ensures !Defined(op) ==> r == []
    ensures Defined(op) ==> |r| == 1 + Sum(Widths(op)) && r[0] == op
  {
    if !Defined(op) then []
    else
      var ws := Widths(op);
      var k := |operands|;
      SumPrefix(ws, k);
      [op] + Fields(ws[..k], operands) + Zeros(Sum(ws) - Sum(ws[..k]))
  }

  /** `Make`: allocates the instruction, writes the opcode, then each supplied operand. */
  method Make(op: Opcode, operands: seq<int>) returns (instruction: seq<Byte>)
    requires Encodable(op, operands)
    ensures instruction == Encode(op, operands)
  {
    if op !in Definitions {
      return [];
    }
    var ws := Definitions[op].operandWidths;
    var instructionLen := 1;
    for i := 0 to |ws|
      invariant instructionLen == 1 + Sum(ws[..i])
    {
      assert ws[..i + 1][..i] == ws[..i];
      instructionLen := instructionLen + ws[i];
    }
    assert ws[..|ws|] == ws;

    var a := new Byte[instructionLen](_ => 0);
    a[0] := op;
    var offset := 1;
    for i := 0 to |operands|
      invariant offset == 1 + Sum(ws[..i])
      invariant a[..offset] == [op] + Fields(ws[..i], operands[..i])
      invariant forall k :: offset <= k < a.Length ==> a[k] == 0
    {
      SumPrefix(ws, i + 1);
      assert ws[..i + 1][..i] == ws[..i];
      assert operands[..i + 1][..i] == operands[..i];
      var width := ws[i];
      if width == 2 {
        var u := operands[i] % 0x1_0000;
        a[offset] := u / 256;
        a[offset + 1] := u % 256;
      }
      assert a[offset..offset + width] == Field(width, operands[i]);
      assert a[..offset + width] == a[..offset] + a[offset..offset + width];
      offset := offset + width;
    }
    assert operands[..|operands|] == operands;
    assert a[offset..] == Zeros(a.Length - offset);
    assert a[..] == a[..offset] + a[offset..];
    instruction := a[..];
  }

  // ---------------------------------------------------------------------
  // Decoding
  // ---------------------------------------------------------------------

  /** `ReadUnit16`: the big-endian unsigned 16-bit value of the first two bytes. */
  function ReadUnit16(ins: seq<Byte>): (r: nat)
    requires |ins| >= 2
    ensures r < 0x1_0000
  {
    ins[0] as int * 256 + ins[1] as int
  }

  /** Reading back a 16-bit field gives the value that was written, modulo 2^16. */
  lemma ReadUnit16OfBigEndian16(v: int, rest: seq<Byte>)
    ensures ReadUnit16(BigEndian16(v) + rest) == v % 0x1_0000
  {
  }

  /** Every width-2 operand lies within `n` bytes (else Go's slice read panics). */
  predicate Readable(ws: seq<nat>, n: nat)
  {
    ws == []
    || (Readable(ws[..|ws| - 1], n) && (ws[|ws| - 1] == 2 ==> Sum(ws[..|ws| - 1]) + 2 <= n))
  }

  lemma {:induction false} ReadablePrefix(ws: seq<nat>, n: nat, j: nat)
    requires Readable(ws, n) && j <= |ws|
    ensures Readable(ws[..j], n)
    decreases |ws|
  {
    if j < |ws| {
      var m := |ws| - 1;
      assert ws[..m][..j] == ws[..j];
      ReadablePrefix(ws[..m], n, j);
    } else {
      assert ws[..j] == ws;
    }
  }

  function ReadField(width: nat, ins: seq<Byte>, offset: nat): int
    requires width == 2 ==> offset + 2 <= |ins|
  {
    if width == 2 then ReadUnit16(ins[offset..]) else 0
  }

  /** The operands the definition's widths describe, read from the start of `ins`. */
  function Decoded(ws: seq<nat>, ins: seq<Byte>): (r: seq<int>)
    requires Readable(ws, |ins|)
    ensures |r| == |ws|
  {
    if ws == [] then []
    else
      var n := |ws| - 1;
      Decoded(ws[..n], ins) + [ReadField(ws[n], ins, Sum(ws[..n]))]
  }

  /** `ReadOperands`: one value per declared width, and the number of bytes they occupy. */
  method ReadOperands(def: Definition, ins: seq<Byte>) returns (operands: seq<int>, offset: nat)
    requires Readable(def.operandWidths, |ins|)
    ensures operands == Decoded(def.operandWidths, ins)
    ensures offset == Sum(def.operandWidths)
  {
    var ws := def.operandWidths;
    var a := new int[|ws|](_ => 0);
    offset := 0;
    for i := 0 to |ws|
      invariant offset == Sum(ws[..i])
      invariant Readable(ws[..i], |ins|)
      invariant a[..i] == Decoded(ws[..i], ins)
      invariant forall k :: i <= k < a.Length ==> a[k] == 0
    {
      ReadablePrefix(ws, |ins|, i + 1);
      assert ws[..i + 1][..i] == ws[..i];
      if ws[i] == 2 {
        a[i] := ReadUnit16(ins[offset..]);
      }
      assert a[..i + 1] == a[..i] + [a[i]];
      offset := offset + ws[i];
    }
    assert ws[..|ws|] == ws;
    operands := a[..];
  }

  /** The operand values an encoding can carry unchanged: 16-bit for width 2, zero otherwise. */
  predicate Fits(ws: seq<nat>, vals: seq<int>)
  {
    |vals| == |ws|
    && forall i :: 0 <= i < |ws| ==> if ws[i] == 2 then 0 <= vals[i] < 0x1_0000 else vals[i] == 0
  }

  lemma FitsPrefix(ws: seq<nat>, vals: seq<int>, n: nat)
    requires Fits(ws, vals) && n <= |ws|
    ensures Fits(ws[..n], vals[..n])
  {
    forall i | 0 <= i < n
      ensures if ws[..n][i] == 2 then 0 <= vals[..n][i] < 0x1_0000 else vals[..n][i] == 0
    {
      assert ws[..n][i] == ws[i] && vals[..n][i] == vals[i];
    }
  }

  /** A field read back at the offset where it was written gives its value. */
  lemma ReadFieldOfField(width: nat, v: int, before: seq<Byte>, rest: seq<Byte>)
    requires if width == 2 then 0 <= v < 0x1_0000 else v == 0
    ensures width == 2 ==> |before| + 2 <= |before + Field(width, v) + rest|
    ensures ReadField(width, before + Field(width, v) + rest, |before|) == v
  {
    var ins := before + Field(width, v) + rest;
    if width == 2 {
      assert ins[|before|..] == BigEndian16(v) + rest;
      ReadUnit16OfBigEndian16(v, rest);
    }
  }

  /** Round trip on operands: decoding what was encoded, whatever follows it, gives the operands back. */
  lemma {:induction false} DecodeFields(ws: seq<nat>, vals: seq<int>, rest: seq<Byte>)
    requires Fits(ws, vals)
    ensures Readable(ws, |Fields(ws, vals) + rest|)
    ensures Decoded(ws, Fields(ws, vals) + rest) == vals
    decreases |ws|
  {
    if ws != [] {
      var n := |ws| - 1;
      var before := Fields(ws[..n], vals[..n]);
      var f := Field(ws[n], vals[n]);
      assert Fields(ws, vals) == before + f;
      ConcatAssoc(before, f, rest);
      FitsPrefix(ws, vals, n);
      DecodeFields(ws[..n], vals[..n], f + rest);
      assert if ws[n] == 2 then 0 <= vals[n] < 0x1_0000 else vals[n] == 0;
      ReadFieldOfField(ws[n], vals[n], before, rest);
      var ins := Fields(ws, vals) + rest;
      assert |before| == Sum(ws[..n]);
      assert Readable(ws, |ins|);
      assert Decoded(ws, ins) == Decoded(ws[..n], ins) + [ReadField(ws[n], ins, Sum(ws[..n]))];
      assert vals == vals[..n] + [vals[n]];
    }
  }

  /** Instruction-level round trip: the operand bytes of `Make(op, operands)` decode to `operands`, spanning the sum of the widths. */
  lemma DecodeEncoded(op: Opcode, operands: seq<int>, rest: seq<Byte>)
    requires Defined(op) && Fits(Widths(op), operands)
    ensures var ins := Encode(op, operands) + rest;
      Readable(Widths(op), |ins| - 1)
      && Decoded(Widths(op), ins[1..]) == operands
      && 1 + Sum(Widths(op)) <= |ins|
  {
    var ws := Widths(op);
    assert ws[..|operands|] == ws;
    assert Encode(op, operands) == [op] + Fields(ws, operands) + [];
    assert (Encode(op, operands) + rest)[1..] == Fields(ws, operands) + rest;
    DecodeFields(ws, operands, rest);
  }

  /** The round trip for OpConstant and every 16-bit operand: three bytes, decoded to `[v]` over two bytes. */
  lemma ConstantRoundTrip(v: int)
    requires 0 <= v < 0x1_0000
    ensures |Encode(OpConstant, [v])| == 3
    ensures Readable(Widths(OpConstant), 2)
    ensures Decoded(Widths(OpConstant), Encode(OpConstant, [v])[1..]) == [v]
    ensures Sum(Widths(OpConstant)) == 2
  {
    DecodeEncoded(OpConstant, [v], []);
    assert Encode(OpConstant, [v]) + [] == Encode(OpConstant, [v]);
  }

  // ---------------------------------------------------------------------
  // Disassembly
  // ---------------------------------------------------------------------

  /** `fmtInstruction`: the text for a definition and its decoded operands. */
  function FmtInstruction(def: Definition, operands: seq<int>): string
  {
    if |operands| != |def.operandWidths| then
      ErrorPrefix + "operand len " + Decimal.IntToString(|operands|) + " does not match defined "
      + Decimal.IntToString(|def.operandWidths|) + "\n"
    else if |def.operandWidths| == 1 then
      def.name + " " + Decimal.IntToString(operands[0])
    else
      UnhandledCount + def.name + "\n"
  }

  /**
   * Only a single operand is printed, after the mnemonic and a space, in
   * decimal; every other count (zero operands included) yields an `ERROR: `
   * text ending in a newline.
   */
  lemma FmtInstructionShape(def: Definition, operands: seq<int>)
    ensures var r := FmtInstruction(def, operands);
      !(|operands| == |def.operandWidths| == 1) ==>
        |ErrorPrefix| < |r| && r[..|ErrorPrefix|] == ErrorPrefix && r[|r| - 1] == '\n'
    ensures var r, n := FmtInstruction(def, operands), |def.name|;
      |operands| == |def.operandWidths| == 1 ==>
        n + 1 < |r| && r[..n] == def.name && r[n] == ' ' && Decimal.IsDigit(r[|r| - 1])
        && (0 <= operands[0] ==> Decimal.AllDigits(r[n + 1..]) && Decimal.DigitsValue(r[n + 1..]) == operands[0])
  {
    if |operands| == |def.operandWidths| == 1 {
      var v := operands[0];
      var d := Decimal.IntToString(v);
      Decimal.NatToStringShape(if v < 0 then -v else v);
      Decimal.NatToStringRoundTrip(if v < 0 then -v else v);
      var r := def.name + " " + d;
      assert r[|def.name| + 1..] == d;
    }
  }

  /** The start of every error text the disassembler prints. */
  const ErrorPrefix: string := "ERROR: "

  /** The text `fmtInstruction` prints, before the mnemonic, for an operand count it does not handle. */
  const UnhandledCount: string := ErrorPrefix + "unhandled operandCount for"

  /** One line of the listing: `%04d <fmtInstruction>\n`. */
  function Line(offset: nat, def: Definition, operands: seq<int>): string
  {
    Decimal.ZeroPad4(offset) + " " + FmtInstruction(def, operands) + "\n"
  }

  /**
   * A line starts with the offset in at least four digits and a space, and
   * ends in a newline; an error text leaves an empty line after it.
   */
  lemma LineShape(offset: nat, def: Definition, operands: seq<int>)
    ensures var r, p := Line(offset, def, operands), Decimal.ZeroPad4(offset);
      4 <= |p| && |p| + 2 < |r| && r[..|p|] == p && r[|p|] == ' ' && r[|r| - 1] == '\n'
      && Decimal.AllDigits(p) && Decimal.DigitsValue(p) == offset
      && (r[|r| - 2] == '\n' <==> !(|operands| == |def.operandWidths| == 1))
  {
    var p := Decimal.ZeroPad4(offset);
    Decimal.ZeroPad4Value(offset);
    FmtInstructionShape(def, operands);
    var f := FmtInstruction(def, operands);
    var r := p + " " + f + "\n";
    assert r[|r| - 2] == f[|f| - 1];
  }

  /**
   * A definition without operands, such as `OpAdd`'s, is listed as the
   * error text of `fmtInstruction`, then an empty line.
   */
  lemma ZeroOperandLine(offset: nat, def: Definition)
    requires def.operandWidths == []
    ensures Line(offset, def, [])
         == Decimal.ZeroPad4(offset) + " " + UnhandledCount + def.name + "\n\n"
  {
    var p := Decimal.ZeroPad4(offset);
    assert Line(offset, def, []) == p + " " + FmtInstruction(def, []) + "\n";
    assert FmtInstruction(def, []) == UnhandledCount + def.name + "\n";
  }


  /** The disassembler, started at offset `i`, walks to the end: every instruction it reaches starts with a defined opcode whose operands are present. */
  predicate Walkable(ins: seq<Byte>, i: nat)
    decreases |ins| - i
  {
    i >= |ins|
    || (Defined(ins[i])
        && Readable(Widths(ins[i]), |ins| - i - 1)
        && Walkable(ins, i + 1 + Sum(Widths(ins[i]))))
  }

  /** One line of a listing before it is formatted: the offset, the definition and the operands. */
  datatype Row = Row(offset: nat, op: Byte, operands: seq<int>)

  /** The text printed for one row: its line, or for an undefined opcode the `ERROR:` line of `String`. */
  function Text(r: Row): string
  {
    if Defined(r.op) then Line(r.offset, DefinitionOf(r.op), r.operands)
    else "ERROR: opcode " + Decimal.NatToString(r.op) + " undefined\n"
  }

  /** `Text` is what `String` prints after `Lookup`: the line of the definition found, or `ERROR: ` and the lookup error. */
  lemma TextLookup(r: Row)
    ensures match Lookup(r.op)
      case Success(def) => Text(r) == Line(r.offset, def, r.operands)
      case Failure(e) => Text(r) == "ERROR: " + e + "\n"
  {
    if !Defined(r.op) {
      var n := Decimal.NatToString(r.op);
      assert "ERROR: " + ("opcode " + n + " undefined") + "\n" == "ERROR: opcode " + n + " undefined\n";
    }
  }

  /** The lines the disassembler prints, one after the other. */
  function Render(rows: seq<Row>): string
  {
    if rows == [] then "" else Text(rows[0]) + Render(rows[1..])
  }

  lemma RenderCons(r: Row, rest: seq<Row>)
    ensures Render([r] + rest) == Text(r) + Render(rest)
  {
    assert ([r] + rest)[1..] == rest;
  }

  /** The rows of the walk over `ins` from offset `i` on: each instruction's line, then a jump past its operands. */
  function Rows(ins: seq<Byte>, i: nat): (rows: seq<Row>)
    requires Walkable(ins, i)
    decreases |ins| - i
  {
    if i >= |ins| then []
    else
      var ws := Widths(ins[i]);
      [Row(i, ins[i], Decoded(ws, ins[i + 1..]))] + Rows(ins, i + 1 + Sum(ws))
  }

  /** One step of the walk: the row at `i`, then the rows after its operands. */
  lemma RowsStep(ins: seq<Byte>, i: nat)
    requires i < |ins| && Defined(ins[i]) && Readable(Widths(ins[i]), |ins| - i - 1)
    requires Walkable(ins, i + 1 + Sum(Widths(ins[i])))
    ensures Walkable(ins, i)
    ensures Rows(ins, i)
         == [Row(i, ins[i], Decoded(Widths(ins[i]), ins[i + 1..]))] + Rows(ins, i + 1 + Sum(Widths(ins[i])))
  {
    assert Walkable(ins, i);
  }

  /** The listing of `ins` from offset `i` on. */
  function Disassembly(ins: seq<Byte>, i: nat): string
    requires Walkable(ins, i)
  {
    Render(Rows(ins, i))
  }

  /** Rendering a row after `rows` appends its line. */
  lemma {:induction false} RenderSnoc(rows: seq<Row>, r: Row)
    ensures Render(rows + [r]) == Render(rows) + Text(r)
    decreases |rows|
  {
    if rows == [] {
      assert rows + [r] == [r] + [];
      RenderCons(r, []);
    } else {
      assert rows + [r] == [rows[0]] + (rows[1..] + [r]);
      RenderCons(rows[0], rows[1..] + [r]);
      RenderSnoc(rows[1..], r);
      assert rows == [rows[0]] + rows[1..];
      RenderCons(rows[0], rows[1..]);
      ConcatAssoc(Text(rows[0]), Render(rows[1..]), Text(r));
    }
  }

  /** Part way through the walk: `rows` are the rows before offset `i`, `out` is their text, and the walk from `i` completes them. */
  predicate Progress(ins: seq<Byte>, i: nat, rows: seq<Row>, out: string)
  {
    Walkable(ins, 0) && Walkable(ins, i) && out == Render(rows) && rows + Rows(ins, i) == Rows(ins, 0)
  }

  /** Printing the line of the instruction at `i` and moving past its operands keeps `Progress`. */
  lemma ProgressStep(ins: seq<Byte>, i: nat, rows: seq<Row>, out: string, def: Definition, operands: seq<int>, offset: nat)
    requires Progress(ins, i, rows, out) && i < |ins|
    requires Defined(ins[i]) && def == DefinitionOf(ins[i])
    requires Readable(def.operandWidths, |ins| - i - 1)
    requires operands == Decoded(def.operandWidths, ins[i + 1..]) && offset == Sum(def.operandWidths)
    ensures Progress(ins, i + 1 + offset, rows + [Row(i, ins[i], operands)], out + Line(i, def, operands))
  {
    var row := Row(i, ins[i], operands);
    RowsStep(ins, i);
    ConcatAssoc(rows, [row], Rows(ins, i + 1 + offset));
    RenderSnoc(rows, row);
  }

  /** `Instructions.String`. The `Lookup` error branch never advances `i` and so never ends; `Walkable` excludes it. */
  method ToString(ins: seq<Byte>) returns (out: string)
    requires Walkable(ins, 0)
    ensures out == Disassembly(ins, 0)
  {
    out := "";
    var i := 0;
    ghost var rows: seq<Row> := [];
    while i < |ins|
      invariant Progress(ins, i, rows, out)
      decreases |ins| - i
    {
      out, i, rows := WriteInstruction(ins, i, out, rows);
    }
    assert rows == rows + Rows(ins, i);
  }

  /** The body of the loop of `String`: look the opcode up, read its operands, write its line and move past them. */
  method WriteInstruction(ins: seq<Byte>, i: nat, out: string, ghost rows: seq<Row>)
    returns (out': string, next: nat, ghost rows': seq<Row>)
    requires Progress(ins, i, rows, out) && i < |ins|
    ensures next > i && Progress(ins, next, rows', out')
  {
    var r := Lookup(ins[i]);
    if r.Failure? {
      assert false;
    }
    var def := r.value;
    var operands, offset := ReadOperands(def, ins[i + 1..]);
    ProgressStep(ins, i, rows, out, def, operands, offset);
    out' := out + Line(i, def, operands);
    rows' := rows + [Row(i, ins[i], operands)];
    next := i + 1 + offset;
  }

  // ---------------------------------------------------------------------
  // Streams of instructions
  // ---------------------------------------------------------------------

  /** An instruction before encoding: the arguments of one call `Make(op, operands...)`. */
  datatype Instruction = Instruction(op: Opcode, operands: seq<int>)

  predicate AllEncodable(code: seq<Instruction>)
  {
    forall i :: 0 <= i < |code| ==> Encodable(code[i].op, code[i].operands)
  }

  /** The byte stream of a list of instructions, encoded one after the other (`concatInstructions` of the tests). */
  function Flatten(code: seq<Instruction>): seq<Byte>
    requires AllEncodable(code)
  {
    if code == [] then [] else Encode(code[0].op, code[0].operands) + Flatten(code[1..])
  }

  lemma {:induction false} FlattenAppend(a: seq<Instruction>, b: seq<Instruction>)
    requires AllEncodable(a) && AllEncodable(b)
    ensures AllEncodable(a + b) && Flatten(a + b) == Flatten(a) + Flatten(b)
    decreases |a|
  {
    if a != [] {
      assert (a + b)[1..] == a[1..] + b;
      FlattenAppend(a[1..], b);
    } else {
      assert a + b == b;
    }
  }

  /** Instructions whose every operand survives encoding: defined opcodes, all operands supplied and in range. */
  predicate Listable(code: seq<Instruction>)
  {
    forall i :: 0 <= i < |code| ==> Listed(code[i])
  }

  /** A defined opcode with all its operands supplied and in range. */
  predicate Listed(c: Instruction)
  {
    Defined(c.op) && Fits(Widths(c.op), c.operands)
  }

  /** The rows a disassembler should print: one per instruction, at its byte offset. */
  function Listing(code: seq<Instruction>, at: nat): seq<Row>
  {
    if code == [] then []
    else
      var c := code[0];
      [Row(at, c.op, c.operands)] + Listing(code[1..], at + 1 + Sum(Widths(c.op)))
  }

  lemma ListableTail(code: seq<Instruction>)
    requires Listable(code) && code != []
    ensures Listable(code[1..])
  {
    forall i | 0 <= i < |code| - 1
      ensures Listed(code[1..][i])
    {
      assert code[1..][i] == code[i + 1];
    }
  }

  /** An encoded instruction at offset `j` starts with its opcode, and its operand bytes decode to its operands. */
  lemma EncodedAt(ins: seq<Byte>, j: nat, op: Opcode, operands: seq<int>)
    requires Defined(op) && Fits(Widths(op), operands)
    requires j + 1 + Sum(Widths(op)) <= |ins|
    requires ins[j..j + 1 + Sum(Widths(op))] == Encode(op, operands)
    ensures ins[j] == op
    ensures Readable(Widths(op), |ins| - j - 1) && Decoded(Widths(op), ins[j + 1..]) == operands
  {
    var n := j + 1 + Sum(Widths(op));
    Reslice(ins, j, n);
    DecodeEncoded(op, operands, ins[n..]);
  }

  /** The piece `s[j..n]` followed by the rest of `s`, seen from `j` and from `j + 1`. */
  lemma Reslice<T>(s: seq<T>, j: nat, n: nat)
    requires j < n <= |s|
    ensures s[j] == s[j..n][0]
    ensures s[j..] == s[j..n] + s[n..] && s[j + 1..] == (s[j..n] + s[n..])[1..]
  {
  }

  lemma ListableEncodable(code: seq<Instruction>)
    requires Listable(code)
    ensures AllEncodable(code)
  {
    forall i | 0 <= i < |code|
      ensures Encodable(code[i].op, code[i].operands)
    {
    }
  }

  /** An encoded stream starting at `at` holds its first instruction's bytes, then the stream of the others. */
  lemma StreamSplit(ins: seq<Byte>, at: nat, code: seq<Instruction>)
    requires FlatAt(ins, at, code) && code != []
    ensures Listed(code[0]) && at + 1 + Sum(Widths(code[0].op)) <= |ins|
    ensures ins[at..at + 1 + Sum(Widths(code[0].op))] == Encode(code[0].op, code[0].operands)
    ensures FlatAt(ins, at + 1 + Sum(Widths(code[0].op)), code[1..])
  {
    var c := code[0];
    assert Listed(c);
    var e := Encode(c.op, c.operands);
    var next := at + 1 + Sum(Widths(c.op));
    assert at + |e| == next;
    assert ins[at..] == e + Flatten(code[1..]);
    Split(ins, at, e, Flatten(code[1..]));
    ListableTail(code);
    ListableEncodable(code[1..]);
  }

  lemma Split<T>(s: seq<T>, at: nat, a: seq<T>, b: seq<T>)
    requires at <= |s| && s[at..] == a + b
    ensures at + |a| <= |s| && s[at..at + |a|] == a && s[at + |a|..] == b
  {
    assert s[at..at + |a|] == (a + b)[..|a|];
    assert s[at + |a|..] == (a + b)[|a|..];
  }

  /** Read from offset `at` to its end, `ins` is the instructions of `code`, one after the other: each one's opcode, then its operands. */
  predicate DecodesTo(ins: seq<Byte>, at: nat, code: seq<Instruction>)
    decreases |code|
  {
    if code == [] then at == |ins|
    else
      var c := code[0];
      at < |ins| && ins[at] == c.op && Defined(c.op)
      && Readable(Widths(c.op), |ins| - at - 1) && Decoded(Widths(c.op), ins[at + 1..]) == c.operands
      && DecodesTo(ins, at + 1 + Sum(Widths(c.op)), code[1..])
  }

  /** From offset `at` to its end, `ins` is `Flatten(code)`, and every instruction of `code` is listable. */
  predicate FlatAt(ins: seq<Byte>, at: nat, code: seq<Instruction>)
  {
    Listable(code) && AllEncodable(code) && at <= |ins| && ins[at..] == Flatten(code)
  }

  /** The bytes of `Flatten(code)` read back as `code`. */
  lemma {:induction false} FlattenDecodes(ins: seq<Byte>, at: nat, code: seq<Instruction>)
    requires FlatAt(ins, at, code)
    ensures DecodesTo(ins, at, code)
    decreases |code|
  {
    if code != [] {
      StreamSplit(ins, at, code);
      EncodedAt(ins, at, code[0].op, code[0].operands);
      FlattenDecodes(ins, at + 1 + Sum(Widths(code[0].op)), code[1..]);
    } else {
      assert |ins| == at;
    }
  }

  /** Where `ins` holds an encoded stream from offset `at` on, the disassembler walks it and prints exactly its listing. */
  lemma {:induction false} DisassemblyAt(ins: seq<Byte>, at: nat, code: seq<Instruction>)
    requires DecodesTo(ins, at, code)
    ensures Walkable(ins, at)
    ensures Rows(ins, at) == Listing(code, at)
    decreases |code|
  {
    if code != [] {
      DisassemblyAt(ins, at + 1 + Sum(Widths(code[0].op)), code[1..]);
      RowsStep(ins, at);
    }
  }

  /** Disassembling an encoded stream walks it to the end and prints exactly the listing of its instructions, whatever precedes it. */
  lemma DisassemblyOfFlatten(before: seq<Byte>, code: seq<Instruction>)
    requires Listable(code)
    ensures AllEncodable(code)
    ensures Walkable(before + Flatten(code), |before|)
    ensures Rows(before + Flatten(code), |before|) == Listing(code, |before|)
    ensures Disassembly(before + Flatten(code), |before|) == Render(Listing(code, |before|))
  {
    ListableEncodable(code);
    var ins := before + Flatten(code);
    assert ins[|before|..] == Flatten(code);
    assert FlatAt(ins, |before|, code);
    FlattenDecodes(ins, |before|, code);
    DisassemblyAt(ins, |before|, code);
  }

  /** `OpConstant v` for each `v`, in order. */
  function ConstantCode(vals: seq<int>): (code: seq<Instruction>)
    ensures |code| == |vals|
  {
    seq(|vals|, i requires 0 <= i < |vals| => Instruction(OpConstant, [vals[i]]))
  }

  /** The expected listing of a constant-only stream: `%04d OpConstant <v>` at offsets at, at+3, at+6, ... */
  function ConstantLines(vals: seq<int>, at: nat): string
  {
    if vals == [] then ""
    else Decimal.ZeroPad4(at) + " OpConstant " + Decimal.IntToString(vals[0]) + "\n" + ConstantLines(vals[1..], at + 3)
  }

  /** A stream of OpConstant instructions with 16-bit operands disassembles to one `OpConstant <v>` line every three bytes. */
  lemma ConstantStreamListing(before: seq<Byte>, vals: seq<int>)
    requires forall i :: 0 <= i < |vals| ==> 0 <= vals[i] < 0x1_0000
    ensures Listable(ConstantCode(vals))
    ensures Walkable(before + Flatten(ConstantCode(vals)), |before|)
    ensures Disassembly(before + Flatten(ConstantCode(vals)), |before|) == ConstantLines(vals, |before|)
  {
    var code := ConstantCode(vals);
    assert Listable(code) by {
      forall i | 0 <= i < |code|
        ensures Listed(code[i])
      {
      }
    }
    DisassemblyOfFlatten(before, code);
    ListingOfConstants(vals, |before|);
  }

  /** The line printed for one `OpConstant v`. */
  lemma ConstantLine(at: nat, v: int)
    ensures Line(at, DefinitionOf(OpConstant), [v])
         == Decimal.ZeroPad4(at) + " OpConstant " + Decimal.IntToString(v) + "\n"
  {
    var p := Decimal.ZeroPad4(at);
    var d := Decimal.IntToString(v);
    assert FmtInstruction(DefinitionOf(OpConstant), [v]) == "OpConstant" + " " + d;
    assert p + " " + ("OpConstant" + " " + d) == p + " OpConstant " + d;
  }

  lemma {:induction false} ListingOfConstants(vals: seq<int>, at: nat)
    requires forall i :: 0 <= i < |vals| ==> 0 <= vals[i] < 0x1_0000
    requires Listable(ConstantCode(vals))
    ensures Render(Listing(ConstantCode(vals), at)) == ConstantLines(vals, at)
    decreases |vals|
  {
    if vals != [] {
      var code := ConstantCode(vals);
      assert code[1..] == ConstantCode(vals[1..]);
      assert code[0] == Instruction(OpConstant, [vals[0]]);
      assert Sum(Widths(OpConstant)) == 2;
      var r := Row(at, OpConstant, [vals[0]]);
      assert Listing(code, at) == [r] + Listing(code[1..], at + 3);
      RenderCons(r, Listing(code[1..], at + 3));
      ListingOfConstants(vals[1..], at + 3);
      ConstantLine(at, vals[0]);
    }
  }

  lemma ListableCons(c: Instruction, rest: seq<Instruction>)
    requires Listed(c) && Listable(rest)
    ensures Listable([c] + rest)
  {
    forall i | 0 <= i < |rest| + 1
      ensures Listed(([c] + rest)[i])
    {
      if i > 0 {
        assert ([c] + rest)[i] == rest[i - 1];
      }
    }
  }

  lemma FlattenCons(c: Instruction, rest: seq<Instruction>)
    requires Encodable(c.op, c.operands) && AllEncodable([c] + rest) && AllEncodable(rest)
    ensures Flatten([c] + rest) == Encode(c.op, c.operands) + Flatten(rest)
  {
    assert ([c] + rest)[1..] == rest;
  }

  lemma ListingCons(c: Instruction, rest: seq<Instruction>, at: nat)
    ensures Listing([c] + rest, at) == [Row(at, c.op, c.operands)] + Listing(rest, at + 1 + Sum(Widths(c.op)))
  {
    assert ([c] + rest)[1..] == rest;
  }

  /**
   * A stream that starts with an operand-less instruction, such as
   * `OpAdd; OpConstant 2; OpConstant 65535`, is listed with the zero-operand
   * error text and an empty line where `0000 OpAdd` is expected; the rest of
   * the stream follows from offset 1.
   */
  lemma ZeroOperandStreamListing(op: Opcode, code: seq<Instruction>)
    requires Defined(op) && Widths(op) == [] && Listable(code) && AllEncodable(code)
    ensures Walkable([op] + Flatten(code), 0)
    ensures Disassembly([op] + Flatten(code), 0)
         == "0000 " + UnhandledCount + Name(op) + "\n\n" + Render(Listing(code, 1))
  {
    var row, tail := Row(0, op, []), Listing(code, 1);
    ZeroOperandStreamRows(op, code);
    RenderCons(row, tail);
    ZeroOperandFirstLine(op);
  }

  lemma ZeroOperandStreamRows(op: Opcode, code: seq<Instruction>)
    requires Defined(op) && Widths(op) == [] && Listable(code) && AllEncodable(code)
    ensures Walkable([op] + Flatten(code), 0)
    ensures Disassembly([op] + Flatten(code), 0) == Render([Row(0, op, [])] + Listing(code, 1))
  {
    var first := Instruction(op, []);
    var all := [first] + code;
    var ins := [op] + Flatten(code);
    var none: seq<Byte> := [];
    ListableCons(first, code);
    DisassemblyOfFlatten(none, all);
    assert none + Flatten(all) == ins by {
      BareEncoding(op);
      FlattenCons(first, code);
    }
    assert Listing(all, 0) == [Row(0, op, [])] + Listing(code, 1) by {
      assert Sum(Widths(op)) == 0;
      ListingCons(first, code, 0);
    }
    assert Walkable(ins, 0) && Disassembly(ins, 0) == Render(Listing(all, 0));
  }

  lemma BareEncoding(op: Opcode)
    requires Defined(op) && Widths(op) == []
    ensures Encode(op, []) == [op]
  {
  }

  /** The first line of such a listing. */
  lemma ZeroOperandFirstLine(op: Opcode)
    requires Defined(op) && Widths(op) == []
    ensures Text(Row(0, op, [])) == "0000 " + UnhandledCount + Name(op) + "\n\n"
  {
    ZeroOperandLine(0, DefinitionOf(op));
    Decimal.ZeroPad4Small(0);
    assert Decimal.ZeroPad4(0) + " " == "0000 ";
  }

  /** The encodings the tests expect of `Make`: OpConstant 65534 is `0, 255, 254`; OpAdd is its opcode alone. */
  lemma MakeExamples()
    ensures Encode(OpConstant, [65534]) == [OpConstant, 255, 254]
    ensures Encode(OpAdd, []) == [OpAdd]
  {
  }
}
