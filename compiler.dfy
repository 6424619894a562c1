/**
 * Package `compiler`: a walk over the syntax tree that appends encoded
 * instructions to a byte buffer and literal values to a constant pool.
 *
 * `Gen` states what compiling one node appends, as a list of instructions
 * (opcode and operands, before encoding), the constants it adds and the error
 * it returns. The class `Compiler` is the imperative walk; `Compile` is proved
 * to append exactly `Flatten(Gen(node, k).code)` and `Gen(node, k).constants`,
 * where `k` is the size of the pool when it starts.
 */
module Compiler {
  import opened Ints
  import opened Wrappers
  import opened Code
  import Ast
  import Object

  /** What the compiler hands to the machine. */
  datatype Bytecode = BytecodeOf(instructions: seq<Byte>, constants: seq<Object.Object>)

  /** What compiling a node appends to the buffer and the pool, and the error it returns (`None` for nil). */
  datatype Output = Output(code: seq<Instruction>, constants: seq<Object.Object>, err: Option<string>)

  const Empty := Output([], [], None)

  /** `a` followed by `b`; only used when `a` succeeded. */
  function Join(a: Output, b: Output): Output
  {
    Output(a.code + b.code, a.constants + b.constants, b.err)
  }

  /** `o` followed by one instruction without operands. */
  function Then(o: Output, op: Opcode): Output
  {
    Output(o.code + [Instruction(op, [])], o.constants, o.err)
  }

  /** The opcode the `switch node.Operator` emits after both operands, if any. */
  function BinaryOpcode(operator: string): (r: Option<Opcode>)
    ensures r.Some? ==> Defined(r.value) && Widths(r.value) == []
  {
    match operator
    case "+" => Some(OpAdd)
    case "-" => Some(OpSub)
    case "*" => Some(OpMul)
    case "/" => Some(OpDiv)
    case "==" => Some(OpEqual)
    case "!=" => Some(OpNotEqual)
    case ">" => Some(OpGreaterThan)
    case _ => None
  }

  /** What `Compile(node)` appends when the pool already holds `k` constants. */
  function Gen(node: Ast.Node, k: nat): (r: Output)
    ensures AllEncodable(r.code)
    decreases Ast.Size(node), 1
  {
    match node
    case Program(ss) => GenSeq(ss, k)
    case ExpressionStatement(e) =>
      var o := Gen(e, k);
      if o.err.Some? then o else Then(o, OpPop)
    case InfixExpression(operator, l, r) =>
      Ast.SizePair(l, r);
      Ast.SizePair(r, l);
      if operator == "<" then
        var o := GenSeq([r, l], k);
        if o.err.Some? then o else Then(o, OpGreaterThan)
      else
        var o := GenSeq([l, r], k);
        if o.err.Some? then o
        else if BinaryOpcode(operator).Some? then Then(o, BinaryOpcode(operator).value)
        else o.(err := Some("unknown operator: " + operator))
    case IntegerLiteral(v) => Output([Instruction(OpConstant, [k])], [Object.Integer(v)], None)
    case Boolean(b) => Output([Instruction(if b then OpTrue else OpFalse, [])], [], None)
    case Other => Empty
  }

  /** What compiling `ns` one after the other appends; it stops at the first error. */
  function GenSeq(ns: seq<Ast.Node>, k: nat): (r: Output)
    ensures AllEncodable(r.code)
    decreases Ast.SizeSeq(ns), 2
  {
    if ns == [] then Empty
    else
      var a := Gen(ns[0], k);
      if a.err.Some? then a
      else
        var b := GenSeq(ns[1..], k + |a.constants|);
        FlattenAppend(a.code, b.code);
        Join(a, b)
  }

  /** One unfolding of `GenSeq` on a non-empty list. */
  lemma GenSeqCons(ns: seq<Ast.Node>, k: nat)
    requires ns != []
    ensures var a := Gen(ns[0], k);
      GenSeq(ns, k) == if a.err.Some? then a else Join(a, GenSeq(ns[1..], k + |a.constants|))
  {
  }

  /** One unfolding of `Gen` on an infix expression. */
  lemma GenInfix(operator: string, l: Ast.Node, r: Ast.Node, k: nat)
    ensures var o := GenSeq([r, l], k);
      operator == "<" ==> Gen(Ast.InfixExpression(operator, l, r), k)
                          == if o.err.Some? then o else Then(o, OpGreaterThan)
    ensures var o := GenSeq([l, r], k);
      operator != "<" ==> Gen(Ast.InfixExpression(operator, l, r), k)
                          == if o.err.Some? then o
                             else if BinaryOpcode(operator).Some? then Then(o, BinaryOpcode(operator).value)
                             else o.(err := Some("unknown operator: " + operator))
  {
  }

  /** The bytecode a fresh compiler holds after compiling `program`: its code and pool, also when compiling stopped at an error. */
  function ProgramBytecode(program: Ast.Node): Bytecode
  {
    var o := Gen(program, 0);
    BytecodeOf(Flatten(o.code), o.constants)
  }

  // ---------------------------------------------------------------------
  // Loop steps shared by the two loops over a list of nodes
  // ---------------------------------------------------------------------

  /** The walk over `ns` has produced `done` without error and is at `ns[i]`. */
  ghost predicate LoopState(ns: seq<Ast.Node>, k: nat, i: nat, done: Output)
  {
    i <= |ns| && done.err.None? && AllEncodable(done.code)
    && Join(done, GenSeq(ns[i..], k + |done.constants|)) == GenSeq(ns, k)
  }

  lemma LoopStart(ns: seq<Ast.Node>, k: nat)
    ensures LoopState(ns, k, 0, Empty)
  {
    assert ns[0..] == ns;
    var g := GenSeq(ns, k);
    assert [] + g.code == g.code && [] + g.constants == g.constants;
  }

  lemma LoopEnd(ns: seq<Ast.Node>, k: nat, done: Output)
    requires LoopState(ns, k, |ns|, done)
    ensures GenSeq(ns, k) == done
  {
    assert ns[|ns|..] == [];
    assert done.code + [] == done.code && done.constants + [] == done.constants;
  }

  /** The node at `i` compiled without error: the walk moves on. `m` is the pool size at that point. */
  lemma LoopNext(ns: seq<Ast.Node>, k: nat, i: nat, done: Output, m: nat)
    requires LoopState(ns, k, i, done) && i < |ns| && m == k + |done.constants|
    requires Gen(ns[i], m).err.None?
    ensures LoopState(ns, k, i + 1, Join(done, Gen(ns[i], m)))
  {
    var a := Gen(ns[i], m);
    assert ns[i..][0] == ns[i] && ns[i..][1..] == ns[i + 1..];
    var b := GenSeq(ns[i + 1..], m + |a.constants|);
    assert GenSeq(ns[i..], m) == Join(a, b);
    assert AllEncodable(done.code + a.code) by {
      FlattenAppend(done.code, a.code);
    }
    assert |Join(done, a).constants| == |done.constants| + |a.constants|;
    assert (done.code + a.code) + b.code == done.code + (a.code + b.code);
    assert (done.constants + a.constants) + b.constants == done.constants + (a.constants + b.constants);
  }

  /** The node at `i` failed: the walk over `ns` returns what it has appended so far and that error. */
  lemma LoopFail(ns: seq<Ast.Node>, k: nat, i: nat, done: Output, m: nat)
    requires LoopState(ns, k, i, done) && i < |ns| && m == k + |done.constants|
    requires Gen(ns[i], m).err.Some?
    ensures GenSeq(ns, k) == Join(done, Gen(ns[i], m))
  {
    assert ns[i..][0] == ns[i];
  }

  /**
   * One turn of either loop over a list of nodes: the state before the turn,
   * what compiling `ns[i]` appended, and the state after it.
   */
  lemma LoopTurn(ns: seq<Ast.Node>, k: nat, i: nat, done: Output,
                 ins0: seq<Byte>, c0: seq<Object.Object>, ins1: seq<Byte>, c1: seq<Object.Object>,
                 ins2: seq<Byte>, c2: seq<Object.Object>, err: Option<string>)
    requires LoopState(ns, k, i, done) && i < |ns| && |c0| == k
    requires ins1 == ins0 + Flatten(done.code) && c1 == c0 + done.constants
    requires var a := Gen(ns[i], |c1|);
      ins2 == ins1 + Flatten(a.code) && c2 == c1 + a.constants && err == a.err
    ensures var d := Join(done, Gen(ns[i], |c1|));
      AllEncodable(d.code) && ins2 == ins0 + Flatten(d.code) && c2 == c0 + d.constants
      && (err.Some? ==> GenSeq(ns, k) == d)
      && (err.None? ==> LoopState(ns, k, i + 1, d))
  {
    var a := Gen(ns[i], |c1|);
    AppendJoin(ins0, ins1, ins2, c0, c1, c2, done, a);
    if err.Some? {
      LoopFail(ns, k, i, done, |c1|);
    } else {
      LoopNext(ns, k, i, done, |c1|);
    }
  }

  /** `Flatten` of a list built by appending. */
  lemma FlattenJoin(done: Output, a: Output)
    requires AllEncodable(done.code) && AllEncodable(a.code)
    ensures AllEncodable(Join(done, a).code)
    ensures Flatten(Join(done, a).code) == Flatten(done.code) + Flatten(a.code)
  {
    FlattenAppend(done.code, a.code);
  }

  /** Appending the bytes of `done` and then those of `a` appends the bytes of both. */
  lemma AppendJoin(ins0: seq<Byte>, ins1: seq<Byte>, ins2: seq<Byte>,
                   c0: seq<Object.Object>, c1: seq<Object.Object>, c2: seq<Object.Object>,
                   done: Output, a: Output)
    requires AllEncodable(done.code) && AllEncodable(a.code)
    requires ins1 == ins0 + Flatten(done.code) && ins2 == ins1 + Flatten(a.code)
    requires c1 == c0 + done.constants && c2 == c1 + a.constants
    ensures AllEncodable(Join(done, a).code)
    ensures ins2 == ins0 + Flatten(Join(done, a).code)
    ensures c2 == c0 + Join(done, a).constants
  {
    FlattenJoin(done, a);
    ConcatAssoc(ins0, Flatten(done.code), Flatten(a.code));
    ConcatAssoc(c0, done.constants, a.constants);
  }

  /** Appending the bytes of `o` and then one instruction without operands appends the bytes of `Then(o, op)`. */
  lemma AppendThen(ins0: seq<Byte>, ins1: seq<Byte>, ins2: seq<Byte>, o: Output, op: Opcode)
    requires AllEncodable(o.code) && Defined(op) && Widths(op) == []
    requires ins1 == ins0 + Flatten(o.code) && ins2 == ins1 + Encode(op, [])
    ensures AllEncodable(Then(o, op).code)
    ensures ins2 == ins0 + Flatten(Then(o, op).code)
  {
    FlattenThen(o, op);
    ConcatAssoc(ins0, Flatten(o.code), Encode(op, []));
  }

  /** The bytes of a single instruction are its encoding. */
  lemma FlattenOne(op: Opcode, operands: seq<int>)
    requires Encodable(op, operands)
    ensures AllEncodable([Instruction(op, operands)])
    ensures Flatten([Instruction(op, operands)]) == Encode(op, operands)
  {
    var one := [Instruction(op, operands)];
    assert one[1..] == [];
    assert Flatten(one) == Encode(op, operands) + Flatten([]);
  }

  lemma FlattenThen(o: Output, op: Opcode)
    requires AllEncodable(o.code) && Defined(op) && Widths(op) == []
    ensures AllEncodable(Then(o, op).code)
    ensures Flatten(Then(o, op).code) == Flatten(o.code) + Encode(op, [])
  {
    var one := [Instruction(op, [])];
    assert Flatten(one) == Encode(op, []) + Flatten([]);
    FlattenAppend(o.code, one);
  }

  // ---------------------------------------------------------------------
  // The compiler
  // ---------------------------------------------------------------------

  class Compiler {
    /** The bytecode emitted so far. */
    var instructions: seq<Byte>
    /** The constant pool; `OpConstant i` refers to `constants[i]`. */
    var constants: seq<Object.Object>

    /** `New`: an empty buffer and an empty pool. */
    constructor ()
      ensures instructions == [] && constants == []
    {
      instructions := [];
      constants := [];
    }

    /** `addConstant`: appends `obj` to the pool and returns its index. */
    method AddConstant(obj: Object.Object) returns (index: nat)
      modifies this
      ensures constants == old(constants) + [obj]
      ensures index == |old(constants)| && constants[index] == obj
      ensures instructions == old(instructions)
    {
      constants := constants + [obj];
      index := |constants| - 1;
    }

    /** `addInstruction`: appends the bytes and returns where they start. */
    method AddInstruction(ins: seq<Byte>) returns (position: nat)
      modifies this
      ensures instructions == old(instructions) + ins
      ensures position == |old(instructions)| && instructions[position..] == ins
      ensures constants == old(constants)
    {
      position := |instructions|;
      instructions := instructions + ins;
    }

    /** `emit`: encodes one instruction with `Make`, appends it and returns where it starts. */
    method Emit(op: Opcode, operands: seq<int>) returns (position: nat)
      requires Encodable(op, operands)
      modifies this
      ensures instructions == old(instructions) + Encode(op, operands)
      ensures position == |old(instructions)|
      ensures constants == old(constants)
    {
      var ins := Make(op, operands);
      position := AddInstruction(ins);
    }

    /** `Compile`: appends the code and the constants of `node`; returns the first error. */
    method Compile(node: Ast.Node) returns (err: Option<string>)
      modifies this
      ensures var o := Gen(node, |old(constants)|);
        instructions == old(instructions) + Flatten(o.code)
        && constants == old(constants) + o.constants
        && err == o.err
      decreases Ast.Size(node), 1
    {
      var k := |constants|;
      match node {
        case Program(ss) =>
          err := CompileStatements(ss);
        case ExpressionStatement(e) =>
          ghost var o := Gen(e, k);
          err := Compile(e);
          if err.Some? {
            return;
          }
          ghost var ins1 := instructions;
          var _ := Emit(OpPop, []);
          AppendThen(old(instructions), ins1, instructions, o, OpPop);
          assert Gen(node, k) == Then(o, OpPop);
        case InfixExpression(operator, l, r) =>
          err := CompileInfix(operator, l, r);
        case IntegerLiteral(v) =>
          var integer := Object.Integer(v);
          var index := AddConstant(integer);
          var _ := Emit(OpConstant, [index]);
          FlattenOne(OpConstant, [k]);
          err := None;
        case Boolean(b) =>
          if b {
            var _ := Emit(OpTrue, []);
          } else {
            var _ := Emit(OpFalse, []);
          }
          FlattenOne(if b then OpTrue else OpFalse, []);
          err := None;
        case Other =>
          err := None;
      }
    }

    /** The `*ast.Program` case of `Compile`: each statement in turn, stopping at the first error. */
    method CompileStatements(ss: seq<Ast.Node>) returns (err: Option<string>)
      modifies this
      ensures var o := Gen(Ast.Program(ss), |old(constants)|);
        instructions == old(instructions) + Flatten(o.code)
        && constants == old(constants) + o.constants
        && err == o.err
      decreases Ast.SizeSeq(ss), 2
    {
      var k := |constants|;
      ghost var done := Empty;
      LoopStart(ss, k);
      var i := 0;
      while i < |ss|
        invariant LoopState(ss, k, i, done)
        invariant instructions == old(instructions) + Flatten(done.code)
        invariant constants == old(constants) + done.constants
        decreases |ss| - i
      {
        Ast.SizeSeqBounds(ss, i);
        ghost var ins1, c1 := instructions, constants;
        err := Compile(ss[i]);
        LoopTurn(ss, k, i, done, old(instructions), old(constants), ins1, c1, instructions, constants, err);
        if err.Some? {
          return;
        }
        done := Join(done, Gen(ss[i], |c1|));
        i := i + 1;
      }
      LoopEnd(ss, k, done);
      assert instructions == old(instructions) + Flatten(GenSeq(ss, k).code);
      assert constants == old(constants) + GenSeq(ss, k).constants;
      err := None;
    }

    /** The `*ast.InfixExpression` case of `Compile`. */
    method CompileInfix(operator: string, l: Ast.Node, r: Ast.Node) returns (err: Option<string>)
      modifies this
      ensures var o := Gen(Ast.InfixExpression(operator, l, r), |old(constants)|);
        instructions == old(instructions) + Flatten(o.code)
        && constants == old(constants) + o.constants
        && err == o.err
      decreases Ast.Size(l) + Ast.Size(r) + 1, 0
    {
      var k := |constants|;
      ghost var node := Ast.InfixExpression(operator, l, r);
      Ast.SizePair(l, r);
      Ast.SizePair(r, l);
      GenInfix(operator, l, r, k);
      if operator == "<" {
        ghost var swapped := GenSeq([r, l], k);
        err := CompileInfixExpressions([r, l]);
        if err.Some? {
          return;
        }
        ghost var ins1 := instructions;
        var _ := Emit(OpGreaterThan, []);
        AppendThen(old(instructions), ins1, instructions, swapped, OpGreaterThan);
        return None;
      }
      ghost var operands := GenSeq([l, r], k);
      err := CompileInfixExpressions([l, r]);
      if err.Some? {
        return;
      }
      ghost var ins1 := instructions;
      var opcode := BinaryOpcode(operator);
      if opcode.None? {
        return Some("unknown operator: " + operator);
      }
      var op := opcode.value;
      var _ := Emit(op, []);
      AppendThen(old(instructions), ins1, instructions, operands, op);
    }

    /** `compileInfixExpressions`: compiles `nodes` in order; returns the first error. */
    method CompileInfixExpressions(nodes: seq<Ast.Node>) returns (err: Option<string>)
      modifies this
      ensures var o := GenSeq(nodes, |old(constants)|);
        instructions == old(instructions) + Flatten(o.code)
        && constants == old(constants) + o.constants
        && err == o.err
      decreases Ast.SizeSeq(nodes), 2
    {
      var k := |constants|;
      ghost var done := Empty;
      LoopStart(nodes, k);
      var i := 0;
      while i < |nodes|
        invariant LoopState(nodes, k, i, done)
        invariant instructions == old(instructions) + Flatten(done.code)
        invariant constants == old(constants) + done.constants
        decreases |nodes| - i
      {
        Ast.SizeSeqBounds(nodes, i);
        ghost var ins1, c1 := instructions, constants;
        err := Compile(nodes[i]);
        LoopTurn(nodes, k, i, done, old(instructions), old(constants), ins1, c1, instructions, constants, err);
        if err.Some? {
          return;
        }
        done := Join(done, Gen(nodes[i], |c1|));
        i := i + 1;
      }
      LoopEnd(nodes, k, done);
      assert instructions == old(instructions) + Flatten(GenSeq(nodes, k).code);
      assert constants == old(constants) + GenSeq(nodes, k).constants;
      err := None;
    }

    /** `Bytecode`: the buffer and the pool as they stand. */
    function Bytecode(): (b: Bytecode)
      reads this
      ensures b.instructions == instructions && b.constants == constants
    {
      BytecodeOf(instructions, constants)
    }
  }

  /**
   * `New()`, then `Compile(program)`, then `Bytecode()`: the encoded code and
   * the pool of `program`, and the first error.
   */
  method CompileProgram(program: Ast.Node) returns (b: Bytecode, err: Option<string>)
    ensures var o := Gen(program, 0);
      b == ProgramBytecode(program) && b.instructions == Flatten(o.code) && b.constants == o.constants && err == o.err
  {
    var c := new Compiler();
    err := c.Compile(program);
    b := c.Bytecode();
  }
}
