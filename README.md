# An instruction-set simulator, modelled in Dafny

The repository is a small instruction-set simulator written in Go. Its
files come from two iterations of the same design. They share no code, so
each core file is modelled as its own module:

- `Ops` (`ops.dfy`, from `ops.go`) is the bit-field codec of the
  register-machine encoding. A 32-bit word carries a 6-bit opcode in its
  top bits. Next to it sit 5-bit register fields and sign-extended 12-bit
  immediates, at offsets counted from the most significant bit. Per-shape
  builders (`makePut` … `makeBne`) and readers are composed from these.
  Everything here is a pure bit-vector expression. The opcode and register
  enumerations that `ops.go` uses are not defined in any of the files
  modelled. They are declared as constants with unknown values, bounded by
  the field widths (`OpNull <= 64`, `RegNull <= 32`), so every law holds
  for all such values.
- `Vm` (`machine.dfy`, from `machine.go`) is the accumulator machine.
  - It has three registers (program counter, accumulator, status) and
    1000 words of memory.
  - `step` fetches `memory[pc]` and decodes `op >> 20`. It stops on
    `halt`. Otherwise it runs the handler of the opcode, recomputes the
    zero flag and adds one to the program counter.
  - The class `Machine` keeps the source's `registers` and `memory` as
    arrays that its methods update in place.
  - Each method is proved equal to a pure function on a `State` value:
    `Transition` for one step, `Execution` for `run(n)`, `Loaded` for
    `load`.
  - The properties are lemmas about those functions.
- `Asm` (`asm.dfy`, from `asm.go`) is the assembler for that machine.
  - It splits the text on newlines with Go's `strings.Split` and skips
    empty lines.
  - It splits each line on single spaces and maps the first word to
    `opcode << 20 | uint16(operand)`.
  - The operand is parsed with `strconv.Atoi` and truncated by `int16`.
  - The loop in `assemble` is an imperative method. It is proved equal to
    `AssembleLines`, a left-to-right fold over the lines.

Go run-time panics are explicit outcomes in the model, not preconditions:
- `memory[pc]` out of range is `Panic(PcOutOfRange(pc))`.
- An opcode with no handler is `Panic(NoHandler(op))`.
- A missing operand `ws[1]` is `MissingOperand` / `Panicked`.

The only panic kept as a precondition is the one its caller must rule
out: the bounds on `load` and `set`.

Four details of `assemble` are easy to miss:
- `assemble` truncates an out-of-range operand with `int16(n)` instead of
  rejecting it.
- `assemble` splits on single spaces, not on runs of whitespace.
- `assemble` has no comment syntax.
- A line may carry extra words after its operand; they are ignored.

## Model

| member | source | states |
|---|---|---|
| Ops.PackOp | ops.go:15-20 | `packOp` is defined only for `op < OpNull` (the panic becomes a precondition); `unpackOp` recovers `op` and the 26 bits below the opcode are zero |
| Ops.UnpackOp | ops.go:22-24 | the unpacked opcode always fits the 6-bit mask |
| Ops.PackRegFrame | ops.go:26-31 | `packReg` only ORs bits in: every bit set in `into` stays set, and every bit outside the 5-bit field at `at` is unchanged |
| Ops.RegRoundTrip | ops.go:26-35 | for a register `< RegNull` packed into a zero field at an offset `<= 27`, `unpackReg` returns that register |
| Ops.PackImm12Truncates | ops.go:37-40 | `packImm12` depends only on the low 12 bits of the immediate |
| Ops.PackImm12Frame | ops.go:37-40 | `packImm12` keeps every bit of `into` and changes none outside the 12-bit field at `at` |
| Ops.SignExtendBits | ops.go:43-47 | sign extension keeps the low 12 bits, fills bits 11..15 with copies of bit 11, and is the identity on immediates in [-2048, 2047] |
| Ops.Imm12RoundTrip | ops.go:37-48 | an immediate packed into a zero field reads back as its low 12 bits sign-extended, which is the immediate itself when it lies in [-2048, 2047] |
| Ops.FitsImm12Range | ops.go:43-47 | the immediates that survive the round trip are exactly the int16 values in [-2048, 2047] |
| Ops.Imm12RoundTripValue | ops.go:37-48 | `unpackImm12(packImm12(0, at, n), at) == n` for every n in [-2048, 2047] (the unit test's case is n = -1) |
| Ops.UnpackImm12Range | ops.go:42-48 | whatever the word, `unpackImm12` yields a value in [-2048, 2047] |
| Ops.MakeHltOpcode | ops.go:50-52 | `makeHlt` carries the halt opcode and nothing else |
| Ops.PutRoundTrip | ops.go:54-64 | `readPut(makePut(v, b, a)) == (v, b, a)` and the opcode is `OpPut` |
| Ops.GetIsPut | ops.go:66-76 | `makeGet` packs `OpPut` and builds the same word as `makePut`; `readGet` inverts it |
| Ops.AddRoundTrip | ops.go:78-88 | `readAdd` inverts `makeAdd`; the opcode is `OpAdd` |
| Ops.MltRoundTrip | ops.go:90-100 | `readMlt` inverts `makeMlt`; the opcode is `OpMlt` |
| Ops.AddiRoundTrip | ops.go:102-112 | `readAddi` inverts `makeAddi` for immediates in [-2048, 2047]; the opcode is `OpAddi` |
| Ops.SltiRoundTrip | ops.go:114-124 | `readSlti` inverts `makeSlti` for immediates in [-2048, 2047]; the opcode is `OpSlti` |
| Ops.JmpRoundTrip | ops.go:126-134 | `readJmp` inverts `makeJmp` for immediates in [-2048, 2047]; the opcode is `OpJmp` |
| Ops.BneRoundTrip | ops.go:136-146 | `readBne` inverts `makeBne` for immediates in [-2048, 2047]; the opcode is `OpBne` |
| Ops.MakeFooOpcode | ops.go:148-150 | `makeFoo` carries the foo opcode and nothing else |
| Vm.Int32 | machine.go:128-130 | `int32(x)` lies in the int32 range and has the same low 32 bits as `x` |
| Vm.Operand | machine.go:120 | the decoded operand is an int16 whose low 16 bits are those of the instruction |
| Vm.Machine.constructor | machine.go:40-54 | a new machine has all registers zero and `MemSize` zero words of memory |
| Vm.Machine.Load | machine.go:59-67 | `load(at, data)` leaves the memory `Loaded(mem, at, data)` and the registers unchanged; it requires the data to fit in memory |
| Vm.LoadedAt | machine.go:59-63 | after `load`, cell `at + i` holds `data[i]` and every other cell is unchanged |
| Vm.Machine.Set | machine.go:65-67 | `set(n, w)` replaces memory cell `n` and nothing else |
| Vm.Machine.SetFlags | machine.go:69-76 | the status register becomes `Flags(acc)`; nothing else changes |
| Vm.Machine.ExecSet | machine.go:119-123 | the handler's effect is `Execute(OpSet, ...)` |
| Vm.Machine.ExecAdd | machine.go:125-131 | the handler's effect is `Execute(OpAdd, ...)` |
| Vm.Machine.ExecJmp | machine.go:133-139 | the handler's effect is `Execute(OpJmp, ...)` |
| Vm.Machine.ExecBr0 | machine.go:141-150 | the handler's effect is `Execute(OpBr0, ...)` |
| Vm.Machine.ExecNop | machine.go:111-113 | the handler changes nothing |
| Vm.Machine.ExecFoo | machine.go:152-154 | the handler changes nothing |
| Vm.Machine.Step | machine.go:78-96 | the new registers and the reported outcome are those of `Transition` on the old state |
| Vm.Machine.Run | machine.go:98-105 | the new registers and the outcome are those of `Execution(old state, n)` |
| Vm.HaltChangesNothing | machine.go:78-85 | fetching the halt opcode reports `Halted` and changes no register and no memory cell |
| Vm.TransitionOutcome | machine.go:78-96 | a step reports `Halted` exactly on the halt opcode, and makes progress exactly when the pc is inside memory and the opcode has a handler |
| Vm.TransitionKeepsMemory | machine.go:78-96 | no step writes memory |
| Vm.FlagsAfterStep | machine.go:69-76 | after every step that makes progress, the status is `StatZero` if the accumulator is zero and `StatEmpty` otherwise |
| Vm.PcAdvancesByOne | machine.go:78-96 | after nop, set, add or foo the pc is the old pc + 1 modulo 2^32 |
| Vm.WrappingAdd | machine.go:125-131 | adding in int32 and storing as a word is addition modulo 2^32 |
| Vm.AccumulatorUpdate | machine.go:119-131 | `set` puts the sign-extended low 16 bits of the instruction in the accumulator; `add` adds them modulo 2^32 |
| Vm.JumpLandsPastTarget | machine.go:133-150 | a `jmp` leaves pc = old pc + operand + 1 (mod 2^32); `br0` does so only if the zero bit was set before the step, and otherwise leaves pc + 1 |
| Vm.StoppedStaysStopped | machine.go:98-105 | a run that starts at a halt or a fault stops at once with that outcome and an unchanged state |
| Vm.ExecutionIsBoundedIteration | machine.go:98-105 | `run(n)` does nothing when n <= 0; otherwise it makes k <= n successful steps, reports `Running` only when k = n, and else reports the outcome of the first step that failed |
| Vm.ExecutionSplits | machine.go:98-105 | a run of a + b steps is a run of a steps followed, if still running, by a run of b steps |
| Asm.ToInt16 | asm.go:58 | `int16(n)` is an int16 congruent to n modulo 2^16, and n itself when n fits |
| Asm.MakeNop | asm.go:9-11 | the word decodes to `OpNop` and its low 20 bits are zero |
| Asm.MakeHalt | asm.go:13-15 | the word decodes to `OpHalt` and its low 20 bits are zero |
| Asm.MakeSet | asm.go:17-19 | `w >> 20` is `OpSet`, bits 16..19 are zero, `w & 0xFFFF == uint16(n)`, and the machine's operand decode gives back n |
| Asm.MakeAdd | asm.go:21-23 | the same for `OpAdd` |
| Asm.MakeJmp | asm.go:25-27 | the same for `OpJmp` |
| Asm.MakeBr0 | asm.go:29-31 | the same for `OpBr0` |
| Asm.MakeFoo | asm.go:33-35 | the word decodes to `OpFoo` and its low 20 bits are zero |
| Asm.JoinSplit | asm.go:38 | joining the pieces of `strings.Split` with the separator gives back the text |
| Asm.SplitPiecesFree | asm.go:38 | no piece of a split contains the separator |
| Asm.SplitJoin | asm.go:45 | splitting joined pieces that are free of the separator gives back the pieces |
| Asm.AtoiFormat | asm.go:54 | `Atoi` parses the decimal form of every 64-bit int back to that int |
| Asm.Assemble | asm.go:37-85 | `assemble` returns `AssembleLines` of its input split on newlines |
| Asm.AssemblePrefixStops | asm.go:54-57 | once a line fails, the lines after it are never looked at |
| Asm.SkipIffEmpty | asm.go:41-43 | exactly the empty line contributes neither a word nor an error |
| Asm.AssembleSucceeds | asm.go:37-85 | assembly succeeds exactly when no line fails, and then returns the words of the lines in order |
| Asm.OneWordPerLine | asm.go:40-45 | on success there is one word per non-empty line, and the j-th word is the j-th non-empty line's instruction |
| Asm.AssembleFailsAtFirst | asm.go:54-80 | a failed assembly reports the failure of its first failing line; every earlier line is fine and no word is returned |
| Asm.LineFailures | asm.go:48-80 | a line fails with "unknown op: " and its first word exactly when that word is no mnemonic; with a bad number exactly when `Atoi` rejects the operand; with the missing-operand panic exactly when an operand mnemonic has no second word |
| Asm.OperandLineAssembles | asm.go:53-76 | `m n` for set/add/jmp/br0 assembles to the opcode of `m` with operand `int16(n)`, also after extra words |
| Asm.OperandLineDecodes | asm.go:58 | the assembled operand decodes to n modulo 2^16, so out-of-range operands are truncated, not rejected |
| Asm.PlainLineAssembles | asm.go:49-52 | `nop`, `halt` and `foo` assemble to their opcode alone, whatever words follow them |
| Asm.OperandMissing | asm.go:53-54 | an operand mnemonic alone on its line reads past the end of the words |
| Asm.SetThenHaltAssembles | asm.go:37-85 | the text `set n` followed by `halt` assembles to `[makeSet(n), makeHalt()]` |
| Asm.SetThenHaltRuns | machine.go:78-105 | these two words loaded at 0 of a new machine run to a halt with n in the accumulator and the zero flag set exactly when n = 0 |

## Left out

- `main.go` is not part of this model. It is a demo driver that assembles
  and prints a fixed program.
- Printing is left out, because it has no effect on state. This covers
  `print` and the trace output in every handler.
- `reset` is left out; its body is empty.
- The `_halt` handler is left out, because `step` returns before any
  handler would run for the halt opcode.
- The function table `vm.ops` is modelled as a conditional on the opcode
  (`Execute`, and the branches of `Machine.Step`).
- Go's `uint` is taken to be 64 bits wide. The shift amount
  `(32 - at) - width` in `ops.go` wraps as 64-bit arithmetic, and a shift
  by 32 or more gives zero.
- The types `opcode` and `regist` are not defined in the files modelled.
  They are taken as 8-bit unsigned integers.
- `imm12` is taken as a 16-bit two's-complement value, since
  `unpackImm12` writes into bits 12..15 of it.
- The imm20 field, `OpLui` and the jal/lw/sw instructions are left out.
  The unit test for them refers to definitions that are in none of the
  files modelled.
- There is no executor for the `ops.go` encoding in the source.
- Ops.RegRoundTrip: proved only for offsets `at <= 27`, where the whole
  field lies inside the word. For larger offsets Go shifts by a wrapped
  64-bit amount, and the field is lost or cut short.
- Ops.Imm12RoundTrip: proved only for offsets `at <= 20`, for the same
  reason.
- Asm.Atoi follows `strconv.Atoi`'s accepted syntax and its 64-bit range,
  but not its error values. A rejected operand is `BadNumber(token)`; Go's
  message text and the distinction between syntax and range errors are
  not modelled.
- Asm.Message renders only the unknown-mnemonic error. The text of the
  `strconv` errors is not modelled.
- Vm.Machine.Load requires the data to fit in memory. Go writes the cells
  before the first out-of-range index and then panics; that partial write
  is not modelled.
- Go strings are byte strings; here a `string` is a sequence of
  characters. The assembler only splits on `'\n'` and `' '` and reads
  ASCII digits, which give the same result either way.
- Vm.Machine.Load takes `data` as a value. A Go caller that passed a slice
  overlapping the machine's own memory would read cells as the loop
  rewrites them; that aliasing is not modelled, and no caller in the
  source does it.
- `memory` is a slice in the source and a fixed array of `MemSize` words
  here. The source never resizes it.
