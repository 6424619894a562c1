/**
 * Compiling and then running. The compiler emits one `OpConstant` per
 * constant, in pool order, and only operand-less instructions besides; the
 * machine steps over the latter. So a run pushes the pool in order, and it
 * reports a stack overflow exactly when the pool holds more constants than
 * the stack has slots.
 */
module Pipeline {
  import opened Ints
  import opened Wrappers
  import opened Code
  import opened Compiler
  import opened CompilerProperties
  import Ast
  import Object
  import Vm

  /** A defined opcode with exactly one operand per width. */
  predicate Complete(c: Instruction)
  {
    Defined(c.op) && |c.operands| == |Widths(c.op)|
  }

  /** Every instruction is complete. */
  predicate Shaped(code: seq<Instruction>)
  {
    forall i :: 0 <= i < |code| ==> Complete(code[i])
  }

  lemma ShapedAppend(a: seq<Instruction>, b: seq<Instruction>)
    requires Shaped(a) && Shaped(b)
    ensures Shaped(a + b)
  {
    forall i | 0 <= i < |a + b|
      ensures Complete((a + b)[i])
    {
      if i < |a| {
        assert (a + b)[i] == a[i];
      } else {
        assert (a + b)[i] == b[i - |a|];
      }
    }
  }

  /** The compiler emits only shaped instructions. */
  lemma {:induction false} GenShaped(n: Ast.Node, k: nat)
    ensures Shaped(Gen(n, k).code)
    decreases Ast.Size(n), 1
  {
    match n
    case Program(ss) => GenSeqShaped(ss, k);
    case ExpressionStatement(e) =>
      GenShaped(e, k);
      ShapedAppend(Gen(e, k).code, [Instruction(OpPop, [])]);
    case InfixExpression(operator, l, r) =>
      Ast.SizePair(l, r);
      Ast.SizePair(r, l);
      GenInfix(operator, l, r, k);
      var ns := if operator == "<" then [r, l] else [l, r];
      GenSeqShaped(ns, k);
      var o := GenSeq(ns, k);
      if o.err.None? {
        if operator == "<" {
          ShapedAppend(o.code, [Instruction(OpGreaterThan, [])]);
        } else if BinaryOpcode(operator).Some? {
          ShapedAppend(o.code, [Instruction(BinaryOpcode(operator).value, [])]);
        }
      }
    case IntegerLiteral(_) =>
    case Boolean(_) =>
    case Other =>
  }

  lemma {:induction false} GenSeqShaped(ns: seq<Ast.Node>, k: nat)
    ensures Shaped(GenSeq(ns, k).code)
    decreases Ast.SizeSeq(ns), 2
  {
    if ns != [] {
      var a := Gen(ns[0], k);
      GenSeqCons(ns, k);
      GenShaped(ns[0], k);
      if a.err.None? {
        GenSeqShaped(ns[1..], k + |a.constants|);
        ShapedAppend(a.code, GenSeq(ns[1..], k + |a.constants|).code);
      }
    }
  }

  function Min(a: nat, b: nat): nat
  {
    if a <= b then a else b
  }

  /**
   * Each of the first `n` indices names an entry of the pool and fits the
   * 16-bit operand. A run with `room` free slots reads the first `room + 1`
   * constants at most: the one after the last slot is fetched, then overflows.
   */
  predicate Indexes(idx: seq<int>, consts: seq<Object.Object>, n: nat)
  {
    forall i :: 0 <= i < |idx| && i < n ==> 0 <= idx[i] < |consts| && idx[i] < 0x1_0000
  }

  lemma IndexesTail(idx: seq<int>, consts: seq<Object.Object>, n: nat)
    requires idx != [] && n > 0 && Indexes(idx, consts, n)
    ensures Indexes(idx[1..], consts, n - 1)
  {
    forall i | 0 <= i < |idx| - 1 && i < n - 1
      ensures 0 <= idx[1..][i] < |consts| && idx[1..][i] < 0x1_0000
    {
      assert idx[1..][i] == idx[i + 1];
    }
  }

  /**
   * What a run over `OpConstant`s naming `idx` should do with `room` free
   * slots: push the named constants in stream order while slots remain, and
   * overflow if any are left over.
   */
  function Pushes(consts: seq<Object.Object>, idx: seq<int>, room: nat): (r: Vm.Outcome)
    requires Indexes(idx, consts, room)
    ensures |r.pushed| == Min(|idx|, room)
  {
    var n := Min(|idx|, room);
    Vm.Outcome(seq(n, i requires 0 <= i < n => consts[idx[i]]),
               if |idx| > room then Some("stack overflow") else None)
  }

  lemma StreamRest(code: seq<Instruction>)
    requires code != [] && Shaped(code) && AllEncodable(code)
    ensures Shaped(code[1..]) && AllEncodable(code[1..])
  {
    forall i | 0 <= i < |code| - 1
      ensures Complete(code[1..][i])
      ensures Encodable(code[1..][i].op, code[1..][i].operands)
    {
      assert code[1..][i] == code[i + 1];
    }
  }

  /** The bytes of an `OpConstant` whose index fits 16 bits: the opcode, then the index read back by `ReadUnit16`. */
  lemma ConstantHead(ins: seq<Byte>, at: nat, x: int, rest: seq<Byte>)
    requires 0 <= x < 0x1_0000
    requires at <= |ins| && ins[at..] == Encode(OpConstant, [x]) + rest
    ensures at + 3 <= |ins| && ins[at] == OpConstant
    ensures ReadUnit16(ins[at + 1..]) == x && ins[at + 3..] == rest
  {
    var e := Encode(OpConstant, [x]);
    assert e[1..] == BigEndian16(x);
    assert ins[at + 1..] == BigEndian16(x) + rest;
    ReadUnit16OfBigEndian16(x, rest);
  }

  /** The run at an `OpConstant` naming `idx[0]`, given the run after it. */
  lemma RunConstant(ins: seq<Byte>, at: nat, consts: seq<Object.Object>, room: nat, idx: seq<int>)
    requires idx != [] && Indexes(idx, consts, room + 1) && Indexes(idx[1..], consts, room)
    requires at + 2 < |ins| && ins[at] == OpConstant && ReadUnit16(ins[at + 1..]) == idx[0]
    requires room > 0 ==> Vm.Runnable(ins, consts, at + 3, room - 1)
    requires room > 0 ==> Vm.Execution(ins, consts, at + 3, room - 1) == Pushes(consts, idx[1..], room - 1)
    ensures Vm.Runnable(ins, consts, at, room)
    ensures Vm.Execution(ins, consts, at, room) == Pushes(consts, idx, room)
  {
    Vm.ConstantStep(ins, consts, at, room);
    if room > 0 {
      var rest := Pushes(consts, idx[1..], room - 1).pushed;
      var all := Pushes(consts, idx, room).pushed;
      forall i | 0 <= i < |all|
        ensures ([consts[idx[0]]] + rest)[i] == all[i]
      {
        if i > 0 {
          assert rest[i - 1] == consts[idx[1..][i - 1]];
        }
      }
      assert [consts[idx[0]]] + rest == all;
    }
  }

  /** The run at any other byte, given the run after it. */
  lemma RunSkip(ins: seq<Byte>, at: nat, consts: seq<Object.Object>, room: nat, idx: seq<int>)
    requires at < |ins| && ins[at] != OpConstant && Indexes(idx, consts, room)
    requires Vm.Runnable(ins, consts, at + 1, room)
    requires Vm.Execution(ins, consts, at + 1, room) == Pushes(consts, idx, room)
    ensures Vm.Runnable(ins, consts, at, room)
    ensures Vm.Execution(ins, consts, at, room) == Pushes(consts, idx, room)
  {
    Vm.SkipStep(ins, consts, at, room);
  }

  /** The first instruction's bytes, then the rest of the stream. */
  lemma FlattenHead(ins: seq<Byte>, at: nat, code: seq<Instruction>)
    requires code != [] && Shaped(code) && AllEncodable(code)
    requires at <= |ins| && ins[at..] == Flatten(code)
    ensures Complete(code[0]) && Shaped(code[1..]) && AllEncodable(code[1..])
    ensures ins[at..] == Encode(code[0].op, code[0].operands) + Flatten(code[1..])
  {
    StreamRest(code);
  }

  /** A complete instruction other than `OpConstant` is its opcode byte alone and names no constant. */
  lemma BareHead(ins: seq<Byte>, at: nat, code: seq<Instruction>, rest: seq<Byte>)
    requires code != [] && Complete(code[0]) && code[0].op != OpConstant
    requires at <= |ins| && ins[at..] == Encode(code[0].op, code[0].operands) + rest
    ensures at < |ins| && ins[at] == code[0].op && ins[at + 1..] == rest
    ensures ConstantIndices(code) == ConstantIndices(code[1..])
  {
    assert Encode(code[0].op, code[0].operands) == [code[0].op];
  }

  /**
   * Running the encoding of complete instructions: the machine pushes the
   * constants the `OpConstant`s name, in stream order, and steps over the rest.
   */
  lemma {:induction false} RunStream(ins: seq<Byte>, at: nat, code: seq<Instruction>,
                                     consts: seq<Object.Object>, room: nat)
    requires Shaped(code) && AllEncodable(code) && Indexes(ConstantIndices(code), consts, room + 1)
    requires at <= |ins| && ins[at..] == Flatten(code)
    ensures Vm.Runnable(ins, consts, at, room)
    ensures Vm.Execution(ins, consts, at, room) == Pushes(consts, ConstantIndices(code), room)
    decreases |code|, 1
  {
    if code == [] {
      assert |ins| == at;
    } else if code[0].op == OpConstant {
      RunStreamConstant(ins, at, code, consts, room);
    } else {
      RunStreamBare(ins, at, code, consts, room);
    }
  }

  lemma {:induction false} RunStreamConstant(ins: seq<Byte>, at: nat, code: seq<Instruction>,
                                             consts: seq<Object.Object>, room: nat)
    requires code != [] && code[0].op == OpConstant
    requires Shaped(code) && AllEncodable(code) && Indexes(ConstantIndices(code), consts, room + 1)
    requires at <= |ins| && ins[at..] == Flatten(code)
    ensures Vm.Runnable(ins, consts, at, room)
    ensures Vm.Execution(ins, consts, at, room) == Pushes(consts, ConstantIndices(code), room)
    decreases |code|, 0
  {
    FlattenHead(ins, at, code);
    var x := code[0].operands[0];
    var tail := code[1..];
    var idx := ConstantIndices(code);
    assert idx == [x] + ConstantIndices(tail);
    assert idx[1..] == ConstantIndices(tail);
    IndexesTail(idx, consts, room + 1);
    assert 0 <= idx[0] < 0x1_0000;
    ConstantHead(ins, at, x, Flatten(tail));
    if room > 0 {
      assert Shaped(tail) && AllEncodable(tail);
      assert ins[at + 3..] == Flatten(tail);
      RunStream(ins, at + 3, tail, consts, room - 1);
    }
    RunConstant(ins, at, consts, room, idx);
  }

  lemma {:induction false} RunStreamBare(ins: seq<Byte>, at: nat, code: seq<Instruction>,
                                         consts: seq<Object.Object>, room: nat)
    requires code != [] && code[0].op != OpConstant
    requires Shaped(code) && AllEncodable(code) && Indexes(ConstantIndices(code), consts, room + 1)
    requires at <= |ins| && ins[at..] == Flatten(code)
    ensures Vm.Runnable(ins, consts, at, room)
    ensures Vm.Execution(ins, consts, at, room) == Pushes(consts, ConstantIndices(code), room)
    decreases |code|, 0
  {
    FlattenHead(ins, at, code);
    BareHead(ins, at, code, Flatten(code[1..]));
    RunStream(ins, at + 1, code[1..], consts, room);
    RunSkip(ins, at, consts, room, ConstantIndices(code));
  }

  /**
   * A compiled program, run on a fresh machine, pushes its constants in pool
   * order and overflows exactly when there are more than 2048 of them. Only
   * the first 2049 constants are ever fetched, so an index past the 16-bit
   * operand is never read back.
   */
  lemma CompiledRun(program: Ast.Node)
    ensures var b := ProgramBytecode(program);
      Vm.Runnable(b.instructions, b.constants, 0, Vm.StackSize)
      && Vm.Execution(b.instructions, b.constants, 0, Vm.StackSize)
         == Vm.Outcome(b.constants[..Min(|b.constants|, Vm.StackSize)],
                       if |b.constants| > Vm.StackSize then Some("stack overflow") else None)
  {
    var o := Gen(program, 0);
    var n := |o.constants|;
    GenShaped(program, 0);
    ConstantsIndexed(program, 0);
    assert Indexes(Range(0, n), o.constants, Vm.StackSize + 1);
    RunStream(Flatten(o.code), 0, o.code, o.constants, Vm.StackSize);
    var pushed := Pushes(o.constants, Range(0, n), Vm.StackSize).pushed;
    assert pushed == o.constants[..Min(n, Vm.StackSize)];
  }

  /**
   * Compile on a fresh compiler; unless that fails, load the bytecode into a
   * fresh machine, run it and read the top of the stack. The top is the last
   * constant that found a slot, and the run overflows exactly when the pool
   * holds more than 2048 constants.
   */
  method CompileAndRun(program: Ast.Node) returns (compileErr: Option<string>, runErr: Option<string>, top: Option<Object.Object>)
    ensures var o := Gen(program, 0);
      compileErr == o.err
      && (o.err.Some? ==> runErr == None && top == None)
      && (o.err.None? ==>
            runErr == (if |o.constants| > Vm.StackSize then Some("stack overflow") else None)
            && top == (if o.constants == [] then None else Some(o.constants[Min(|o.constants|, Vm.StackSize) - 1])))
  {
    var b;
    b, compileErr := CompileProgram(program);
    if compileErr.Some? {
      return compileErr, None, None;
    }
    CompiledRun(program);
    var machine := new Vm.VM(b);
    runErr := machine.Run();
    top := machine.StackTop();
    TopAfterRun(machine.stack[..machine.stackPointer], b.constants);
  }

  /** The top of a stack holding the first `Min(|consts|, 2048)` constants. */
  lemma TopAfterRun(stack: seq<Option<Object.Object>>, consts: seq<Object.Object>)
    requires stack == [] + Vm.Present(consts[..Min(|consts|, Vm.StackSize)])
    ensures consts == [] <==> stack == []
    ensures consts != [] ==> stack[|stack| - 1] == Some(consts[Min(|consts|, Vm.StackSize) - 1])
  {
  }

  /** `ConstantCode(vals)` is complete and names `vals`, in order. */
  lemma {:induction false} ConstantCodeIndices(vals: seq<int>)
    ensures Shaped(ConstantCode(vals)) && ConstantIndices(ConstantCode(vals)) == vals
    decreases |vals|
  {
    var code := ConstantCode(vals);
    assert Shaped(code) by {
      forall i | 0 <= i < |code|
        ensures Complete(code[i])
      {
      }
    }
    if vals != [] {
      assert code[1..] == ConstantCode(vals[1..]);
      ConstantCodeIndices(vals[1..]);
      assert vals == [vals[0]] + vals[1..];
    }
  }

  /**
   * Running a stream of `OpConstant`s naming `vals`: the named constants are
   * pushed in stream order, as many as there is room for.
   */
  lemma ConstantStreamRun(vals: seq<int>, consts: seq<Object.Object>, room: nat)
    requires Indexes(vals, consts, room + 1)
    ensures AllEncodable(ConstantCode(vals))
    ensures var ins := Flatten(ConstantCode(vals));
      Vm.Runnable(ins, consts, 0, room) && Vm.Execution(ins, consts, 0, room) == Pushes(consts, vals, room)
  {
    var code := ConstantCode(vals);
    ConstantCodeIndices(vals);
    RunStream(Flatten(code), 0, code, consts, room);
  }

  /**
   * A fresh machine loaded with a stream of k <= 2048 `OpConstant`s runs to
   * the end without error: the stack pointer is k and the bottom k slots hold
   * the named constants in stream order; the other slots are still empty.
   */
  method RunConstantStream(vals: seq<int>, consts: seq<Object.Object>) returns (machine: Vm.VM, err: Option<string>)
    requires Indexes(vals, consts, |vals|) && |vals| <= Vm.StackSize
    ensures machine.Valid() && err == None
    ensures machine.stackPointer == |vals|
    ensures forall i :: 0 <= i < |vals| ==> machine.stack[i] == Some(consts[vals[i]])
    ensures forall i :: |vals| <= i < Vm.StackSize ==> machine.stack[i] == None
  {
    assert Indexes(vals, consts, Vm.StackSize + 1);
    ConstantStreamRun(vals, consts, Vm.StackSize);
    var ins := Flatten(ConstantCode(vals));
    machine := new Vm.VM(BytecodeOf(ins, consts));
    ghost var before := machine.stack[..];
    err := machine.Run();
    StackAfterRun(machine.stack[..], before, consts, vals, Vm.Execution(ins, consts, 0, Vm.StackSize));
  }

  /** The slots after the run: the named constants, then the untouched empty slots. */
  lemma StackAfterRun(after: seq<Option<Object.Object>>, before: seq<Option<Object.Object>>,
                      consts: seq<Object.Object>, vals: seq<int>, e: Vm.Outcome)
    requires Indexes(vals, consts, |vals|) && |vals| <= |before| == |after|
    requires e == Pushes(consts, vals, |before|)
    requires forall i :: 0 <= i < |before| ==> before[i] == None
    requires after[..|e.pushed|] == before[..0] + Vm.Present(e.pushed)
    requires after[|e.pushed|..] == before[|e.pushed|..]
    ensures |e.pushed| == |vals| && e.err == None
    ensures forall i :: 0 <= i < |vals| ==> after[i] == Some(consts[vals[i]])
    ensures forall i :: |vals| <= i < |after| ==> after[i] == None
  {
    forall i | 0 <= i < |vals|
      ensures after[i] == Some(consts[vals[i]])
    {
      assert after[..|vals|][i] == after[i];
    }
    forall i | |vals| <= i < |after|
      ensures after[i] == None
    {
      assert after[|vals|..][i - |vals|] == after[i];
    }
  }
}
