/**
 * Package `vm`: a stack machine with a fixed stack of 2048 slots. Its
 * fetch-decode loop executes `OpConstant` (push a constant from the pool)
 * and steps over every other byte.
 *
 * `Execution` states what running a byte stream from offset `ip` pushes
 * when `room` slots are free, and the error it stops with; `VM.Run` is
 * proved to push exactly that.
 */
module Vm {
  import opened Ints
  import opened Wrappers
  import opened Code
  import Object
  import Compiler

  const StackSize: nat := 2048

  /** What a run pushed, in order, and the error it returned (`None` for nil). */
  datatype Outcome = Outcome(pushed: seq<Object.Object>, err: Option<string>)

  /**
   * The run from `ip` never slices past the end of the stream and never
   * indexes past the end of the pool. An `OpConstant` is decoded, and its
   * constant looked up, before the push can fail, so this is demanded of
   * every `OpConstant` up to and including the one that overflows.
   */
  predicate Runnable(ins: seq<Byte>, consts: seq<Object.Object>, ip: nat, room: nat)
    decreases |ins| - ip
  {
    ip >= |ins|
    || if ins[ip] == OpConstant then
         ip + 2 < |ins| && ReadUnit16(ins[ip + 1..]) < |consts|
         && (room == 0 || Runnable(ins, consts, ip + 3, room - 1))
       else
         Runnable(ins, consts, ip + 1, room)
  }

  /** What the loop of `Run` pushes from offset `ip` on, with `room` free slots. */
  function Execution(ins: seq<Byte>, consts: seq<Object.Object>, ip: nat, room: nat): (r: Outcome)
    requires Runnable(ins, consts, ip, room)
    ensures |r.pushed| <= room
    ensures r.err.Some? ==> r.err == Some("stack overflow") && |r.pushed| == room
    decreases |ins| - ip
  {
    if ip >= |ins| then Outcome([], None)
    else if ins[ip] == OpConstant then
      var constIndex := ReadUnit16(ins[ip + 1..]);
      if room == 0 then Outcome([], Some("stack overflow"))
      else
        var rest := Execution(ins, consts, ip + 3, room - 1);
        Outcome([consts[constIndex]] + rest.pushed, rest.err)
    else
      Execution(ins, consts, ip + 1, room)
  }

  /** An `OpConstant` at `ip` pushes the constant its operand names and resumes at `ip + 3`; on a full stack it overflows. */
  lemma ConstantStep(ins: seq<Byte>, consts: seq<Object.Object>, ip: nat, room: nat)
    requires ip + 2 < |ins| && ins[ip] == OpConstant && ReadUnit16(ins[ip + 1..]) < |consts|
    ensures Runnable(ins, consts, ip, room) <==> room == 0 || Runnable(ins, consts, ip + 3, room - 1)
    ensures room == 0 ==> Execution(ins, consts, ip, room) == Outcome([], Some("stack overflow"))
    ensures room > 0 && Runnable(ins, consts, ip + 3, room - 1) ==>
      var rest := Execution(ins, consts, ip + 3, room - 1);
      Execution(ins, consts, ip, room) == Outcome([consts[ReadUnit16(ins[ip + 1..])]] + rest.pushed, rest.err)
  {
  }

  /** Any other byte at `ip` is stepped over. */
  lemma SkipStep(ins: seq<Byte>, consts: seq<Object.Object>, ip: nat, room: nat)
    requires ip < |ins| && ins[ip] != OpConstant
    ensures Runnable(ins, consts, ip, room) <==> Runnable(ins, consts, ip + 1, room)
    ensures Runnable(ins, consts, ip + 1, room) ==>
      Execution(ins, consts, ip, room) == Execution(ins, consts, ip + 1, room)
  {
  }

  class VM {
    const constants: seq<Object.Object>
    const instructions: seq<Byte>
    /** The stack; `None` is a slot never written (Go's nil). */
    const stack: array<Option<Object.Object>>
    /** The next free slot: the top of the stack is `stack[stackPointer - 1]`. */
    var stackPointer: nat

    ghost predicate Valid()
      reads this
    {
      stack.Length == StackSize && stackPointer <= StackSize
    }

    /** The values on the stack, bottom first. */
    ghost function Contents(): (s: seq<Option<Object.Object>>)
      reads this, stack
      requires Valid()
      ensures |s| == stackPointer
    {
      stack[..stackPointer]
    }

    /** `New`: the bytecode's instructions and constants, an empty stack of 2048 slots. */
    constructor (bytecode: Compiler.Bytecode)
      ensures Valid() && fresh(stack)
      ensures instructions == bytecode.instructions && constants == bytecode.constants
      ensures stackPointer == 0 && Contents() == []
      ensures forall j :: 0 <= j < StackSize ==> stack[j] == None
    {
      instructions := bytecode.instructions;
      constants := bytecode.constants;
      stack := new Option<Object.Object>[StackSize](_ => None);
      stackPointer := 0;
    }

    /** `StackTop`: the top slot, or nil on an empty stack. */
    function StackTop(): (top: Option<Object.Object>)
      reads this, stack
      requires Valid()
      ensures stackPointer == 0 ==> top == None
      ensures stackPointer > 0 ==> top == Contents()[stackPointer - 1]
    {
      if stackPointer == 0 then None else stack[stackPointer - 1]
    }

    /** `push`: fails with `stack overflow` on a full stack; otherwise writes the next slot. */
    method Push(o: Object.Object) returns (err: Option<string>)
      requires Valid()
      modifies this, stack
      ensures Valid()
      ensures old(stackPointer) >= StackSize ==>
        err == Some("stack overflow") && stackPointer == old(stackPointer) && stack[..] == old(stack[..])
      ensures old(stackPointer) < StackSize ==>
        err == None && stackPointer == old(stackPointer) + 1
        && stack[..] == old(stack[..])[old(stackPointer) := Some(o)]
      ensures old(stackPointer) < StackSize ==> Contents() == old(Contents()) + [Some(o)]
    {
      if stackPointer >= StackSize {
        return Some("stack overflow");
      }
      stack[stackPointer] := Some(o);
      stackPointer := stackPointer + 1;
      return None;
    }

    /**
     * The state of `Run` before the instruction at `ip`: the stack holds
     * what was there at `start` and the values `pushed` since, the slots
     * above are as they were, and what is still to run pushes the rest
     * of `whole`.
     */
    ghost predicate Running(ip: nat, start: nat, initial: seq<Option<Object.Object>>, whole: Outcome,
                            pushed: seq<Object.Object>)
      reads this, stack
    {
      Valid() && |initial| == StackSize && stackPointer == start + |pushed|
      && Runnable(instructions, constants, ip, StackSize - stackPointer)
      && (var e := Execution(instructions, constants, ip, StackSize - stackPointer);
          whole == Outcome(pushed + e.pushed, e.err))
      && stack[..stackPointer] == initial[..start] + Present(pushed)
      && stack[stackPointer..] == initial[stackPointer..]
    }

    /**
     * `Run`: pushes what `Execution` says, above what was on the stack,
     * and returns its error. Slots outside the pushed ones keep their values.
     */
    method Run() returns (err: Option<string>)
      requires Valid()
      requires Runnable(instructions, constants, 0, StackSize - stackPointer)
      modifies this, stack
      ensures Valid()
      ensures var e := Execution(instructions, constants, 0, StackSize - old(stackPointer));
        err == e.err
        && stackPointer == old(stackPointer) + |e.pushed|
        && stack[..stackPointer] == old(stack[..])[..old(stackPointer)] + Present(e.pushed)
        && stack[stackPointer..] == old(stack[..])[stackPointer..]
    {
      ghost var start := stackPointer;
      ghost var initial := stack[..];
      ghost var whole := Execution(instructions, constants, 0, StackSize - start);
      ghost var pushed: seq<Object.Object> := [];
      var ip := 0;
      while ip < |instructions|
        invariant Running(ip, start, initial, whole, pushed)
        decreases |instructions| - ip
      {
        ip, err, pushed := Execute(ip, start, initial, whole, pushed);
        if err.Some? {
          return;
        }
      }
      err := None;
    }

    /**
     * One turn of the loop of `Run`: an `OpConstant` pushes the constant its
     * operand names and moves past its operand; any other byte is skipped.
     * A failed push ends the run with `whole` on the stack.
     */
    method Execute(ip: nat, ghost start: nat, ghost initial: seq<Option<Object.Object>>, ghost whole: Outcome,
                   ghost pushed: seq<Object.Object>)
      returns (next: nat, err: Option<string>, ghost pushed': seq<Object.Object>)
      requires Running(ip, start, initial, whole, pushed) && ip < |instructions|
      modifies this, stack
      ensures next > ip
      ensures err.None? ==> Running(next, start, initial, whole, pushed')
      ensures err.Some? ==>
        Valid() && err == whole.err && stackPointer == start + |whole.pushed|
        && stack[..stackPointer] == initial[..start] + Present(whole.pushed)
        && stack[stackPointer..] == initial[stackPointer..]
    {
      var op := instructions[ip];
      next := ip + 1;
      err := None;
      pushed' := pushed;
      if op == OpConstant {
        var constIndex := ReadUnit16(instructions[ip + 1..]);
        next := ip + 3;
        ghost var before := stack[..];
        err := Push(constants[constIndex]);
        if err.None? {
          SlotWrite(before, stack[..], initial, start, pushed, constants[constIndex]);
          pushed' := pushed + [constants[constIndex]];
        }
      }
    }
  }

  /** Writing the slot above `pushed` extends the pushed values by one and leaves the slots above it alone. */
  lemma SlotWrite(before: seq<Option<Object.Object>>, after: seq<Option<Object.Object>>,
                  initial: seq<Option<Object.Object>>, start: nat, pushed: seq<Object.Object>, o: Object.Object)
    requires start + |pushed| < |before| == |initial|
    requires before[..start + |pushed|] == initial[..start] + Present(pushed)
    requires before[start + |pushed|..] == initial[start + |pushed|..]
    requires after == before[start + |pushed| := Some(o)]
    ensures after[..start + |pushed| + 1] == initial[..start] + Present(pushed + [o])
    ensures after[start + |pushed| + 1..] == initial[start + |pushed| + 1..]
  {
    var sp := start + |pushed|;
    assert after[..sp + 1] == before[..sp] + [Some(o)];
    assert Present(pushed + [o]) == Present(pushed) + [Some(o)];
    assert after[sp + 1..] == before[sp + 1..];
    assert before[sp + 1..] == before[sp..][1..];
  }

  /** Each pushed value as a filled slot. */
  function Present(s: seq<Object.Object>): (r: seq<Option<Object.Object>>)
    ensures |r| == |s| && forall i :: 0 <= i < |s| ==> r[i] == Some(s[i])
  {
    seq(|s|, i requires 0 <= i < |s| => Some(s[i]))
  }
}
