/**
 * What the compiler promises about the code it emits: operand order, the
 * lowering of `<`, one `OpPop` per expression statement, the order and
 * indices of constants, and where compilation stops on an error.
 */
module CompilerProperties {
  import opened Ints
  import opened Wrappers
  import opened Code
  import opened Compiler
  import Ast
  import Object

  // ---------------------------------------------------------------------
  // Infix expressions
  // ---------------------------------------------------------------------

  /** The operands of `ns = [a, b]` compiled in order, when both succeed. */
  lemma PairCode(a: Ast.Node, b: Ast.Node, k: nat)
    requires Gen(a, k).err.None?
    ensures var ga := Gen(a, k);
      var gb := Gen(b, k + |ga.constants|);
      GenSeq([a, b], k) == Output(ga.code + gb.code, ga.constants + gb.constants, gb.err)
  {
    var ga := Gen(a, k);
    var gb := Gen(b, k + |ga.constants|);
    assert [a, b][0] == a && [a, b][1..] == [b];
    assert [b][0] == b && [b][1..] == [];
    if gb.err.None? {
      assert GenSeq([b], k + |ga.constants|) == Join(gb, Empty);
      assert gb.code + [] == gb.code && gb.constants + [] == gb.constants;
    }
  }

  /** `a < b` compiles exactly as `b > a`: right operand first, then left, then `OpGreaterThan`. */
  lemma LessThanSwapsOperands(l: Ast.Node, r: Ast.Node, k: nat)
    ensures Gen(Ast.InfixExpression("<", l, r), k) == Gen(Ast.InfixExpression(">", r, l), k)
  {
    GenInfix("<", l, r, k);
    GenInfix(">", r, l, k);
    assert BinaryOpcode(">") == Some(OpGreaterThan);
  }

  /** The operators the compiler knows and the opcode each emits; `<` is handled before the switch. */
  lemma OperatorTable(operator: string)
    ensures BinaryOpcode(operator).Some? <==> operator in {"+", "-", "*", "/", "==", "!=", ">"}
    ensures BinaryOpcode("+") == Some(OpAdd) && BinaryOpcode("-") == Some(OpSub)
    ensures BinaryOpcode("*") == Some(OpMul) && BinaryOpcode("/") == Some(OpDiv)
    ensures BinaryOpcode("==") == Some(OpEqual) && BinaryOpcode("!=") == Some(OpNotEqual)
    ensures BinaryOpcode(">") == Some(OpGreaterThan) && BinaryOpcode("<") == None
  {
  }

  /** Distinct operators emit distinct opcodes, none of which pushes or pops a value by itself. */
  lemma OperatorOpcodesDistinct(a: string, b: string)
    requires BinaryOpcode(a).Some? && BinaryOpcode(a) == BinaryOpcode(b)
    ensures a == b
    ensures BinaryOpcode(a).value !in {OpConstant, OpPop, OpTrue, OpFalse}
  {
  }

  /** For `+ - * / == != >`: left operand's code, right operand's code, then exactly one opcode. */
  lemma InfixCode(operator: string, l: Ast.Node, r: Ast.Node, k: nat)
    requires BinaryOpcode(operator).Some?
    requires Gen(l, k).err.None? && Gen(r, k + |Gen(l, k).constants|).err.None?
    ensures var gl := Gen(l, k);
      var gr := Gen(r, k + |gl.constants|);
      Gen(Ast.InfixExpression(operator, l, r), k)
      == Output(gl.code + gr.code + [Instruction(BinaryOpcode(operator).value, [])],
                gl.constants + gr.constants, None)
  {
    assert operator != "<";
    GenInfix(operator, l, r, k);
    PairCode(l, r, k);
  }

  /** An unknown operator fails with `unknown operator: <op>` after both operands' code, and emits no opcode. */
  lemma UnknownOperator(operator: string, l: Ast.Node, r: Ast.Node, k: nat)
    requires operator != "<" && BinaryOpcode(operator).None?
    requires Gen(l, k).err.None? && Gen(r, k + |Gen(l, k).constants|).err.None?
    ensures var gl := Gen(l, k);
      var gr := Gen(r, k + |gl.constants|);
      Gen(Ast.InfixExpression(operator, l, r), k)
      == Output(gl.code + gr.code, gl.constants + gr.constants, Some("unknown operator: " + operator))
  {
    GenInfix(operator, l, r, k);
    PairCode(l, r, k);
  }

  // ---------------------------------------------------------------------
  // Statements
  // ---------------------------------------------------------------------

  /** An expression statement is its expression's code followed by exactly one `OpPop`. */
  lemma ExpressionStatementPops(e: Ast.Node, k: nat)
    requires Gen(e, k).err.None?
    ensures Gen(Ast.ExpressionStatement(e), k)
         == Output(Gen(e, k).code + [Instruction(OpPop, [])], Gen(e, k).constants, None)
  {
  }

  /** The number of instructions in `code` with opcode `op`. */
  function Count(code: seq<Instruction>, op: Opcode): (n: nat)
    ensures n <= |code|
  {
    if code == [] then 0 else (if code[0].op == op then 1 else 0) + Count(code[1..], op)
  }

  lemma {:induction false} CountAppend(a: seq<Instruction>, b: seq<Instruction>, op: Opcode)
    ensures Count(a + b, op) == Count(a, op) + Count(b, op)
    decreases |a|
  {
    if a == [] {
      assert a + b == b;
    } else {
      assert (a + b)[1..] == a[1..] + b;
      CountAppend(a[1..], b, op);
    }
  }

  /** A node built only from expressions: no program and no statement inside it. */
  predicate IsExpression(n: Ast.Node)
  {
    match n
    case InfixExpression(_, l, r) => IsExpression(l) && IsExpression(r)
    case IntegerLiteral(_) => true
    case Boolean(_) => true
    case Other => true
    case _ => false
  }

  /** The operands of `[a, b]` contribute their counts in order; the second only when the first succeeded. */
  lemma PairCount(a: Ast.Node, b: Ast.Node, k: nat, q: Opcode)
    ensures var ga := Gen(a, k);
      Count(GenSeq([a, b], k).code, q)
      == Count(ga.code, q) + (if ga.err.None? then Count(Gen(b, k + |ga.constants|).code, q) else 0)
  {
    var ga := Gen(a, k);
    if ga.err.Some? {
      assert [a, b][0] == a;
    } else {
      PairCode(a, b, k);
      CountAppend(ga.code, Gen(b, k + |ga.constants|).code, q);
    }
  }

  /** An infix expression emits no `OpPop` beyond those of its operands. */
  lemma InfixPopCount(operator: string, l: Ast.Node, r: Ast.Node, k: nat)
    ensures var ns := if operator == "<" then [r, l] else [l, r];
      Count(Gen(Ast.InfixExpression(operator, l, r), k).code, OpPop) == Count(GenSeq(ns, k).code, OpPop)
  {
    GenInfix(operator, l, r, k);
    var ns := if operator == "<" then [r, l] else [l, r];
    var o := GenSeq(ns, k);
    if o.err.None? {
      if operator == "<" {
        CountAppend(o.code, [Instruction(OpGreaterThan, [])], OpPop);
      } else if BinaryOpcode(operator).Some? {
        OperatorOpcodesDistinct(operator, operator);
        CountAppend(o.code, [Instruction(BinaryOpcode(operator).value, [])], OpPop);
      }
    }
  }

  /** Expressions never emit `OpPop`. */
  lemma {:induction false} ExpressionHasNoPop(e: Ast.Node, k: nat)
    requires IsExpression(e)
    ensures Count(Gen(e, k).code, OpPop) == 0
    decreases e
  {
    match e
    case InfixExpression(operator, l, r) =>
      InfixPopCount(operator, l, r, k);
      if operator == "<" {
        ExpressionHasNoPop(r, k);
        ExpressionHasNoPop(l, k + |Gen(r, k).constants|);
        PairCount(r, l, k, OpPop);
      } else {
        ExpressionHasNoPop(l, k);
        ExpressionHasNoPop(r, k + |Gen(l, k).constants|);
        PairCount(l, r, k, OpPop);
      }
    case IntegerLiteral(_) =>
    case Boolean(b) =>
      assert Gen(e, k).code == [Instruction(if b then OpTrue else OpFalse, [])];
    case Other =>
  }

  /** A program of n expression statements that compiles without error emits exactly n `OpPop`s. */
  lemma {:induction false} ProgramPops(ss: seq<Ast.Node>, k: nat)
    requires forall i :: 0 <= i < |ss| ==> ss[i].ExpressionStatement? && IsExpression(ss[i].expression)
    requires GenSeq(ss, k).err.None?
    ensures Count(Gen(Ast.Program(ss), k).code, OpPop) == |ss|
    decreases |ss|
  {
    if ss != [] {
      var e := ss[0].expression;
      var a := Gen(ss[0], k);
      assert a.err.None?;
      ExpressionStatementPops(e, k);
      ExpressionHasNoPop(e, k);
      CountAppend(Gen(e, k).code, [Instruction(OpPop, [])], OpPop);
      ProgramPops(ss[1..], k + |a.constants|);
      CountAppend(a.code, GenSeq(ss[1..], k + |a.constants|).code, OpPop);
    }
  }

  /** Once a statement fails, what follows it is never compiled. */
  lemma {:induction false} FailureStops(ss: seq<Ast.Node>, more: seq<Ast.Node>, k: nat)
    requires GenSeq(ss, k).err.Some?
    ensures GenSeq(ss + more, k) == GenSeq(ss, k)
    decreases |ss|
  {
    assert ss != [];
    assert (ss + more)[0] == ss[0] && (ss + more)[1..] == ss[1..] + more;
    var a := Gen(ss[0], k);
    if a.err.None? {
      FailureStops(ss[1..], more, k + |a.constants|);
    }
  }

  // ---------------------------------------------------------------------
  // Constants
  // ---------------------------------------------------------------------

  /** The integer literals of a tree, in the order the compiler visits them (right operand first under `<`). */
  function Literals(n: Ast.Node): (r: seq<Object.Object>)
    decreases n
  {
    match n
    case Program(ss) => LiteralsSeq(ss)
    case ExpressionStatement(e) => Literals(e)
    case InfixExpression(operator, l, r) =>
      if operator == "<" then Literals(r) + Literals(l) else Literals(l) + Literals(r)
    case IntegerLiteral(v) => [Object.Integer(v)]
    case _ => []
  }

  function LiteralsSeq(ns: seq<Ast.Node>): (r: seq<Object.Object>)
    decreases ns
  {
    if ns == [] then [] else Literals(ns[0]) + LiteralsSeq(ns[1..])
  }

  /** The operand of every `OpConstant` in `code`, in order. */
  function ConstantIndices(code: seq<Instruction>): (r: seq<int>)
    ensures |r| <= |code|
  {
    if code == [] then [] else ConstantIndex(code[0]) + ConstantIndices(code[1..])
  }

  /** The pool index an `OpConstant` refers to; nothing for any other instruction. */
  function ConstantIndex(c: Instruction): seq<int>
  {
    if c.op == OpConstant && c.operands != [] then [c.operands[0]] else []
  }

  lemma {:induction false} ConstantIndicesAppend(a: seq<Instruction>, b: seq<Instruction>)
    ensures ConstantIndices(a + b) == ConstantIndices(a) + ConstantIndices(b)
    decreases |a|
  {
    if a == [] {
      assert a + b == b;
    } else {
      var ab := a + b;
      assert ab[0] == a[0] && ab[1..] == a[1..] + b;
      ConstantIndicesAppend(a[1..], b);
      assert ConstantIndices(ab) == ConstantIndex(a[0]) + (ConstantIndices(a[1..]) + ConstantIndices(b));
    }
  }

  /** `[k, k + 1, ..., k + n - 1]`. */
  function Range(k: int, n: nat): (r: seq<int>)
    ensures |r| == n
  {
    seq(n, i => k + i)
  }

  lemma RangeAppend(k: int, m: nat, n: nat)
    ensures Range(k, m) + Range(k + m, n) == Range(k, m + n)
  {
    var r := Range(k, m) + Range(k + m, n);
    forall i | 0 <= i < m + n
      ensures r[i] == k + i
    {
      if i < m {
        assert r[i] == Range(k, m)[i];
      } else {
        assert r[i] == Range(k + m, n)[i - m];
      }
    }
  }

  /** A compiled node refers to the constants it added, by their pool indices and in the order it added them. */
  lemma {:induction false} ConstantsIndexed(n: Ast.Node, k: nat)
    ensures ConstantIndices(Gen(n, k).code) == Range(k, |Gen(n, k).constants|)
    decreases Ast.Size(n), 1
  {
    match n
    case Program(ss) => ConstantsIndexedSeq(ss, k);
    case ExpressionStatement(e) =>
      ConstantsIndexed(e, k);
      ConstantIndicesAppend(Gen(e, k).code, [Instruction(OpPop, [])]);
    case InfixExpression(operator, l, r) =>
      Ast.SizePair(l, r);
      Ast.SizePair(r, l);
      GenInfix(operator, l, r, k);
      var ns := if operator == "<" then [r, l] else [l, r];
      ConstantsIndexedSeq(ns, k);
      var o := GenSeq(ns, k);
      if o.err.None? {
        if operator == "<" {
          ConstantIndicesAppend(o.code, [Instruction(OpGreaterThan, [])]);
        } else if BinaryOpcode(operator).Some? {
          ConstantIndicesAppend(o.code, [Instruction(BinaryOpcode(operator).value, [])]);
        }
      }
    case IntegerLiteral(_) =>
      assert Gen(n, k).code[1..] == [];
    case Boolean(b) =>
      assert Gen(n, k).code[1..] == [];
    case Other =>
  }

  lemma IndexedJoin(a: Output, b: Output, k: nat, m: nat)
    requires m == k + |a.constants|
    requires ConstantIndices(a.code) == Range(k, |a.constants|)
    requires ConstantIndices(b.code) == Range(m, |b.constants|)
    ensures ConstantIndices(Join(a, b).code) == Range(k, |Join(a, b).constants|)
  {
    ConstantIndicesAppend(a.code, b.code);
    RangeAppend(k, |a.constants|, |b.constants|);
  }

  lemma {:induction false} ConstantsIndexedSeq(ns: seq<Ast.Node>, k: nat)
    ensures ConstantIndices(GenSeq(ns, k).code) == Range(k, |GenSeq(ns, k).constants|)
    decreases Ast.SizeSeq(ns), 3
  {
    if ns == [] {
      assert GenSeq(ns, k) == Empty;
    } else {
      ConstantsIndexedCons(ns, k);
    }
  }

  lemma {:induction false} ConstantsIndexedCons(ns: seq<Ast.Node>, k: nat)
    requires ns != []
    ensures ConstantIndices(GenSeq(ns, k).code) == Range(k, |GenSeq(ns, k).constants|)
    decreases Ast.SizeSeq(ns), 2
  {
    var a := Gen(ns[0], k);
    GenSeqCons(ns, k);
    ConstantsIndexed(ns[0], k);
    if a.err.None? {
      var m := k + |a.constants|;
      var b := GenSeq(ns[1..], m);
      ConstantsIndexedSeq(ns[1..], m);
      IndexedJoin(a, b, k, m);
      assert GenSeq(ns, k) == Join(a, b);
    } else {
      assert GenSeq(ns, k) == a;
    }
  }

  /** When compilation succeeds, the pool holds the integer literals in the order they were compiled. */
  lemma {:induction false} ConstantsInCompileOrder(n: Ast.Node, k: nat)
    requires Gen(n, k).err.None?
    ensures Gen(n, k).constants == Literals(n)
    decreases Ast.Size(n), 1
  {
    match n
    case Program(ss) => ConstantsInCompileOrderSeq(ss, k);
    case ExpressionStatement(e) => ConstantsInCompileOrder(e, k);
    case InfixExpression(operator, l, r) =>
      Ast.SizePair(l, r);
      Ast.SizePair(r, l);
      GenInfix(operator, l, r, k);
      var a := if operator == "<" then r else l;
      var b := if operator == "<" then l else r;
      assert [a, b][0] == a;
      var ga := Gen(a, k);
      assert ga.err.None?;
      PairCode(a, b, k);
      ConstantsInCompileOrder(a, k);
      ConstantsInCompileOrder(b, k + |ga.constants|);
    case IntegerLiteral(_) =>
    case Boolean(_) =>
    case Other =>
  }

  lemma {:induction false} ConstantsInCompileOrderSeq(ns: seq<Ast.Node>, k: nat)
    requires GenSeq(ns, k).err.None?
    ensures GenSeq(ns, k).constants == LiteralsSeq(ns)
    decreases Ast.SizeSeq(ns), 2
  {
    if ns != [] {
      var a := Gen(ns[0], k);
      assert a.err.None?;
      ConstantsInCompileOrder(ns[0], k);
      ConstantsInCompileOrderSeq(ns[1..], k + |a.constants|);
    }
  }

  // ---------------------------------------------------------------------
  // Literals, as bytes
  // ---------------------------------------------------------------------

  /** An integer literal adds `Integer(value)` to the pool and emits `OpConstant` with its 16-bit pool index, big-endian. */
  lemma IntegerLiteralBytes(v: Int64, k: nat)
    requires k < 0x1_0000
    ensures Gen(Ast.IntegerLiteral(v), k).constants == [Object.Integer(v)]
    ensures Flatten(Gen(Ast.IntegerLiteral(v), k).code) == [OpConstant, k / 256, k % 256]
  {
    FlattenOne(OpConstant, [k]);
    var e := Encode(OpConstant, [k]);
    DecodeEncoded(OpConstant, [k], []);
    assert e + [] == e;
    assert ReadUnit16(e[1..]) == k;
  }

  /** Beyond 65535 constants the index wraps: the literal refers to pool entry `k mod 65536`. */
  lemma IntegerLiteralIndexWraps(v: Int64, k: nat)
    ensures var b := Flatten(Gen(Ast.IntegerLiteral(v), k).code);
      |b| == 3 && b[0] == OpConstant && ReadUnit16(b[1..]) == k % 0x1_0000
  {
    FlattenOne(OpConstant, [k]);
    var e := Encode(OpConstant, [k]);
    assert e[1..] == BigEndian16(k);
  }

  /** A boolean literal emits one `OpTrue` or `OpFalse` byte and adds no constant. */
  lemma BooleanLiteralBytes(b: bool, k: nat)
    ensures Gen(Ast.Boolean(b), k).constants == []
    ensures Flatten(Gen(Ast.Boolean(b), k).code) == [if b then OpTrue else OpFalse]
  {
    var op := if b then OpTrue else OpFalse;
    FlattenOne(op, []);
    assert |Encode(op, [])| == 1;
  }
}
