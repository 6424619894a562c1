# Monkey bytecode: encoder, compiler and stack machine in Dafny

This project models the three core packages of a small bytecode compiler and
virtual machine for the Monkey expression language, and proves what they do.

- **`code`** (`code.dfy`): the instruction format.
  - The opcode table and `Lookup`.
  - The encoder `Make`: one opcode byte, then each operand big-endian at its declared width.
  - The decoders `ReadOperands` and `ReadUnit16`.
  - The disassembler `Instructions.String` and its line formatter `fmtInstruction`.
  - `decimal.dfy` models Go's `%d` and `%04d`, which the listing and the error messages use.
- **`compiler`** (`compiler.dfy`, `compiler_properties.dfy`): a walk over the syntax tree.
  - It appends encoded instructions to a byte buffer and literal values to an append-only constant pool.
  - `Gen(node, k)` is the specification. It gives the instructions (opcode and operands, before encoding) that compiling `node` appends when the pool holds `k` constants, the constants it adds, and the error it returns.
  - The class `Compiler` is the imperative walk. Each of its methods is proved to append exactly `Flatten(Gen(..).code)` and `Gen(..).constants`.
  - The properties proved: operand order, the lowering of `a < b` to `b > a`, one `OpPop` per expression statement, the order and pool indices of constants, and where compilation stops on an error.
- **`vm`** (`vm.dfy`): the class `VM`, with a 2048-slot stack array and a stack pointer.
  - It has `push`, `StackTop` and the fetch-decode loop `Run`.
  - `Run` executes `OpConstant` and steps over every other byte.
  - `Execution` states what a run pushes and the error it stops with. `VM.Run` is proved to push exactly that.
- **`pipeline.dfy`**: compiling, then running. A compiled program run on a fresh machine pushes its constants in pool order, and overflows exactly when there are more than 2048 of them.

Supporting modules:

- `Ast`: the node kinds the compiler distinguishes.
- `Object`: the values in the pool.
- `Ints`: Go's `byte` and `int64` as ranges of `int`.
- `Wrappers`: `Option` and `Result`. Go's `error` is `None` for nil or `Some(message)`.

Where the code and its tests disagree, the model follows the code:

- `fmtInstruction` (code/code.go:18-23) has no case for zero operands. So the model prints `ERROR: unhandled operandCount for<name>` and an empty line for `OpAdd`, where code/code_test.go:70-89 expects `0000 OpAdd`. `Code.ZeroOperandLine` and `Code.ZeroOperandStreamListing` state what the code prints instead.
- Only `OpConstant` is declared in code/code.go:28-39. The other opcodes, which the compiler and the tests use, are added to the table with no operands. Their byte values (`OpAdd` 1, `OpPop` 2, `OpSub` 3, `OpMul` 4, `OpDiv` 5, `OpTrue` 6, `OpFalse` 7, `OpEqual` 8, `OpNotEqual` 9, `OpGreaterThan` 10) are an assumption.

## Model

| member | source | states |
|---|---|---|
| `Code.DefinitionTable` | code/code.go:32-39 | The table row of every defined opcode is its definition. `OpConstant` is `("OpConstant", [2])`, every other opcode has no operand widths, and no two opcodes share a mnemonic. |
| `Code.Lookup` | code/code.go:41-49 | Lookup succeeds exactly on the defined opcode bytes, with that opcode's table row and widths. Otherwise it fails with `opcode <n> undefined`, where `<n>` is the byte in decimal. |
| `Code.Encode` | code/code.go:51-65 | An undefined opcode encodes to no bytes. A defined one encodes to exactly `1 + sum(widths)` bytes, starting with the opcode. |
| `Code.Make` | code/code.go:51-80 | The byte array `Make` fills (it sums the widths, writes the opcode, then each supplied operand at its offset) is exactly `Encode(op, operands)`. Operand slots not supplied stay zero. |
| `Code.BigEndian16` | code/code.go:71-74 | A width-2 operand is two bytes, high byte first, holding the operand modulo 2^16 (Go's `uint16` conversion). |
| `Code.ReadUnit16` | code/code.go:121-123 | The big-endian value of the first two bytes is below 2^16. |
| `Code.ReadUnit16OfBigEndian16` | code/code.go:121-123 | Reading back a written 16-bit field gives the value modulo 2^16, whatever bytes follow. |
| `Code.Decoded` | code/code.go:105-119 | Decoding yields one value per declared width. |
| `Code.ReadOperands` | code/code.go:105-119 | The loop returns the operands `Decoded` describes, and an offset equal to the sum of the widths. |
| `Code.DecodeFields` | code/code.go:105-119 | Round trip on operands: the fields written for values that fit their widths decode to those values, whatever follows them. |
| `Code.DecodeEncoded` | code/code.go:51-80 | Round trip on an instruction: the bytes after the opcode of `Make(op, operands)` are long enough, and decode to `operands`. |
| `Code.ConstantRoundTrip` | code/code_test.go:91-122 | For every 16-bit `v`, `Make(OpConstant, v)` is 3 bytes. Its operand bytes decode to `[v]` over 2 bytes. |
| `Code.MakeExamples` | code/code_test.go:5-36 | `Make(OpConstant, 65534)` is `0, 255, 254`, and `Make(OpAdd)` is the opcode byte alone. |
| `Code.TextLookup` | code/code.go:90-97 | The text printed for a row is what `String` prints after `Lookup`: the `%04d` line for a definition found, or `ERROR: ` plus the lookup error. |
| `Code.RowsStep` | code/code.go:96-99 | One step of the walk: the row at `i` (offset, opcode, decoded operands), then the walk from `i + 1 + sum(widths)`. |
| `Code.ProgressStep` | code/code.go:96-99 | Writing the line of the instruction at `i` and advancing past its operands keeps the disassembly invariant. |
| `Code.WriteInstruction` | code/code.go:90-99 | One turn of the loop of `String`. The offset strictly advances, and the text so far remains the listing of the rows before the new offset. |
| `Code.ToString` | code/code.go:85-103 | On a stream whose walk reaches only defined opcodes with their operands present, `String` returns exactly the listing `Disassembly(ins, 0)`. |
| `Code.FlattenAppend` | compiler/compiler_test.go:200-208 | The bytes of two instruction lists, concatenated, are the bytes of the concatenated list. |
| `Code.FlattenDecodes` | code/code.go:88-99 | The bytes of encoded instructions decode back, one after the other, to the same opcodes and operands. |
| `Code.DisassemblyAt` | code/code.go:88-99 | Where the bytes decode to a list of instructions, the disassembler's walk reaches the end and produces one row per instruction, at its byte offset. |
| `Code.DisassemblyOfFlatten` | code/code.go:85-103 | Disassembling an encoded stream of defined instructions prints exactly the listing of those instructions, whatever precedes it. |
| `Code.FmtInstructionShape` | code/code.go:11-24 | With one operand and one width, the text is the mnemonic, a space and the operand in decimal (read back as the operand when it is non-negative). Any other count, zero operands included, gives a text starting `ERROR: ` and ending in a newline. |
| `Code.LineShape` | code/code.go:97 | A listing line is the offset in at least four digits that read back as the offset, a space, the formatted instruction and a newline. It ends in an empty line exactly when the instruction was formatted as an error. |
| `Code.ZeroOperandLine` | code/code.go:18-23 | For a definition without operands, the line at offset `o` is `%04d ERROR: unhandled operandCount for<name>`, then two newlines. |
| `Code.ZeroOperandStreamListing` | code/code_test.go:70-89 | A stream starting with an operand-less opcode such as `OpAdd`, followed by any listable instructions, is listed as `0000 ERROR: unhandled operandCount forOpAdd`, an empty line, then the rest's lines from offset 1. The test's expected `0000 OpAdd` line is never printed. |
| `Code.ConstantLine` | code/code.go:11-24 | The line of `OpConstant v` at offset `o` is `%04d OpConstant %d` followed by a newline. |
| `Code.ListingOfConstants` | code/code_test.go:45-48 | The listing of `OpConstant` instructions is one such line every three bytes. |
| `Code.ConstantStreamListing` | code/code_test.go:38-57 | A stream of `OpConstant` instructions with 16-bit operands disassembles to `%04d OpConstant <v>` lines at offsets 0, 3, 6, and so on. |
| `Decimal.NatToStringShape` | code/code.go:45 | `%d` of a non-negative number is digits only, at least one, with no leading zero. It is a single digit exactly below 10. |
| `Decimal.NatToStringRoundTrip` | code/code.go:45 | Reading back the digits `%d` writes gives the number. |
| `Decimal.PadZerosValue` | code/code.go:97 | Left-padding with `0` to four characters gives `max(4, length)` characters and keeps the value. |
| `Decimal.ZeroPad4Value` | code/code.go:97 | `%04d` writes `max(4, #digits)` digits denoting the offset. |
| `Compiler.BinaryOpcode` | compiler/compiler.go:59-76 | Every opcode the operator switch emits is defined and takes no operands. |
| `Compiler.Gen` | compiler/compiler.go:24-90 | Every instruction the compiler emits is a valid call of `Make` (no more operands than widths). |
| `Compiler.GenSeq` | compiler/compiler.go:133-141 | The same holds of a list of nodes compiled in turn. |
| `Compiler.LoopFail` | compiler/compiler.go:28-33 | When the node at `i` fails, the walk over the list returns what it appended so far and that error. |
| `Compiler.Compiler.constructor` | compiler/compiler.go:17-22 | `New` starts with an empty buffer and an empty pool. |
| `Compiler.Compiler.AddConstant` | compiler/compiler.go:96-99 | `addConstant` appends exactly the one value and returns its index, the old pool length. The buffer is unchanged. |
| `Compiler.Compiler.AddInstruction` | compiler/compiler.go:111-115 | `addInstruction` appends the bytes and returns where they start. Earlier bytes and the pool are unchanged. |
| `Compiler.Compiler.Emit` | compiler/compiler.go:104-109 | `emit` appends `Make(op, operands)` and returns the old buffer length. The pool is unchanged. |
| `Compiler.Compiler.Compile` | compiler/compiler.go:24-90 | `Compile` appends exactly the bytes of `Gen(node, k)` and its constants, and returns its error. Partial code stays appended on error, as in Go. |
| `Compiler.Compiler.CompileStatements` | compiler/compiler.go:26-33 | The program loop compiles each statement in turn and returns at the first error, with what was appended until then. |
| `Compiler.Compiler.CompileInfix` | compiler/compiler.go:41-76 | The infix case has three branches. `<` compiles the right operand, then the left, then emits `OpGreaterThan`. Known operators emit their opcode after both operands. An unknown operator returns `unknown operator: <op>` after both operands' code. |
| `Compiler.Compiler.CompileInfixExpressions` | compiler/compiler.go:133-141 | Compiles the nodes in order and returns the first error. |
| `Compiler.Compiler.Bytecode` | compiler/compiler.go:126-131 | The bytecode is the buffer and the pool as they stand. |
| `Compiler.CompileProgram` | compiler/compiler.go:17-131 | `New`, `Compile(program)`, then `Bytecode()` give the encoded code and the pool of `Gen(program, 0)`, and its error. Partial code is kept on error. |
| `CompilerProperties.PairCode` | compiler/compiler.go:133-141 | Two operands compiled in turn give the first one's code and constants, then the second one's (its indices start after the first one's constants). |
| `CompilerProperties.LessThanSwapsOperands` | compiler/compiler.go:42-51 | From the same pool size, `a < b` produces the same instructions, constants and error as `b > a`. |
| `CompilerProperties.OperatorTable` | compiler/compiler.go:59-76 | The switch knows exactly `+ - * / == != >`, mapping them to `OpAdd OpSub OpMul OpDiv OpEqual OpNotEqual OpGreaterThan`. `<` is not in it. |
| `CompilerProperties.OperatorOpcodesDistinct` | compiler/compiler.go:59-76 | Distinct operators emit distinct opcodes. None of them is `OpConstant`, `OpPop`, `OpTrue` or `OpFalse`. |
| `CompilerProperties.InfixCode` | compiler/compiler.go:53-73 | For a known operator: the left operand's code, the right operand's code, then exactly one opcode. |
| `CompilerProperties.UnknownOperator` | compiler/compiler.go:74-76 | An unknown operator fails with `unknown operator: <op>` after both operands' code, and emits no opcode. |
| `CompilerProperties.ExpressionStatementPops` | compiler/compiler.go:34-40 | An expression statement is its expression's code followed by exactly one `OpPop`. |
| `CompilerProperties.ExpressionHasNoPop` | compiler/compiler.go:41-86 | Expressions never emit `OpPop`. |
| `CompilerProperties.ProgramPops` | compiler/compiler.go:26-40 | A program of n expression statements that compiles without error has exactly n `OpPop`s. |
| `CompilerProperties.FailureStops` | compiler/compiler.go:28-33 | Once a statement fails, the statements after it are not compiled: appending more statements changes nothing. |
| `CompilerProperties.ConstantsIndexed` | compiler/compiler.go:77-80 | The `OpConstant` operands of a compiled node are `k, k+1, …`: the indices of the constants it added, in the order it added them. |
| `CompilerProperties.ConstantsIndexedSeq` | compiler/compiler.go:133-141 | The same holds for a list of nodes. |
| `CompilerProperties.ConstantsInCompileOrder` | compiler/compiler.go:24-90 | On success the pool receives the integer literals in compilation order (right operand first under `<`). |
| `CompilerProperties.ConstantsInCompileOrderSeq` | compiler/compiler.go:28-33 | The same holds for a list of nodes. |
| `CompilerProperties.IntegerLiteralBytes` | compiler/compiler.go:77-80 | An integer literal adds `Integer(value)` and emits `OpConstant` with its 16-bit pool index, big-endian. |
| `CompilerProperties.IntegerLiteralIndexWraps` | compiler/compiler.go:79-80 | Beyond 65535 constants the emitted index wraps to `k mod 65536`. |
| `CompilerProperties.BooleanLiteralBytes` | compiler/compiler.go:81-86 | A boolean literal emits one `OpTrue` or `OpFalse` byte and adds no constant. |
| `Vm.Execution` | vm/vm.go:42-63 | A run pushes at most as many values as there are free slots. Its only error is `stack overflow`, and only once every free slot is used. |
| `Vm.ConstantStep` | vm/vm.go:50-58 | `OpConstant` at `ip` pushes `constants[ReadUnit16(ins[ip+1..])]` and resumes at `ip + 3`. On a full stack it stops with `stack overflow`. |
| `Vm.SkipStep` | vm/vm.go:46-49 | Any other byte is stepped over: the run from `ip` is the run from `ip + 1`. |
| `Vm.VM.constructor` | vm/vm.go:22-29 | `New` takes the instructions and constants of the bytecode and creates a fresh 2048-slot stack. Every slot is nil and the stack pointer is 0. |
| `Vm.VM.StackTop` | vm/vm.go:31-37 | Nil on an empty stack, otherwise `stack[stackPointer - 1]`. |
| `Vm.VM.Push` | vm/vm.go:65-74 | On a full stack, `push` returns `stack overflow` and changes nothing. Otherwise it writes `stack[sp]`, increments `sp`, and leaves every other slot as it was. |
| `Vm.VM.Execute` | vm/vm.go:47-59 | One turn of the loop of `Run`. It advances `ip`, either keeping the run's invariant or ending with the run's error and its values on the stack. |
| `Vm.VM.Run` | vm/vm.go:42-63 | `Run` pushes exactly the values `Execution` describes above what was on the stack and returns its error. The other slots keep their values, and `0 <= stackPointer <= 2048` holds throughout. |
| `Vm.SlotWrite` | vm/vm.go:70-71 | Writing the slot above the pushed values extends them by one and leaves the slots above alone. |
| `Pipeline.GenShaped` | compiler/compiler.go:24-90 | Every instruction the compiler emits has a defined opcode and exactly one operand per width. |
| `Pipeline.RunStream` | vm/vm.go:42-63 | Running the encoding of such instructions pushes the constants their `OpConstant`s name, in stream order, as many as fit. It overflows exactly when more are named. |
| `Pipeline.CompiledRun` | vm/vm.go:22-63 | Any compiled program, run on a fresh machine, pushes its pool in order up to 2048 values. It overflows exactly when the pool holds more than 2048. Only the first 2049 indices are fetched, so none has wrapped. |
| `Pipeline.CompileAndRun` | vm/vm.go:22-63 | Compiling on a fresh compiler, then running the bytecode on a fresh machine: on a compile error nothing runs. Otherwise the run fails with `stack overflow` exactly when the pool holds more than 2048 constants. `StackTop` is nil for an empty pool, else the last constant that found a slot. |
| `Pipeline.ConstantStreamRun` | vm/vm.go:43-60 | A stream of `OpConstant`s naming `vals` pushes the named constants in order, as many as there is room for. |
| `Pipeline.RunConstantStream` | vm/vm.go:22-74 | A fresh machine loaded with k <= 2048 `OpConstant`s runs without error. Afterwards the stack pointer is k, slots 0..k-1 hold the named constants in stream order, and the rest stay nil. |

## Left out

- The lexer, the parser and the real `ast` and `object` packages are not part of this model. Syntax trees are built directly as `Ast.Node` values, which cover only the node kinds the compiler distinguishes; every other kind is `Other`.
- utils/log.go is console printing only and is not modelled.
- Go's runtime panics are preconditions, not modelled behaviour:
  - the short-slice reads in `ReadUnit16`, `ReadOperands` and `Run` (`Readable`, `Runnable`);
  - an out-of-range constant index in `Run` (`Runnable`);
  - more operands than widths passed to `Make` (`Encodable`).
- `Code.ToString`: it requires `Walkable`, meaning every instruction the walk reaches starts with a defined opcode. On an undefined opcode, `String` writes the `ERROR:` line but never advances `i`, so it never terminates. That non-terminating branch is not modelled.
- Opcodes other than `OpConstant` are not declared in code/code.go. Their byte values and empty operand widths are an assumption.
- The machine executes only `OpConstant`, as vm/vm.go does. Pop, arithmetic, comparisons and boolean values on the stack do not exist there and are not invented.
- Pointer identity is not modelled: `&object.Integer{...}` is a value, and `Bytecode()` returns the buffer and the pool by value, so slice aliasing is not captured.
- Go's `int` is unbounded here. The only narrowing the core performs is modelled explicitly: `uint16(operand)` in `Make`, which wraps pool indices beyond 65535.
- The loop bodies of `String` and `Run` are separate methods (`Code.WriteInstruction`, `Vm.VM.Execute`). Each loop's state is kept in one invariant (`Progress`, `Running`).
- `Pipeline.CompileAndRun` stops at a compile error without running, as the test helpers do with `t.Fatalf`. The virtual machine's own test file is not part of this model.
