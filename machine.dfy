/** The accumulator machine: three registers (program counter,
    accumulator, status) and a memory of `MemSize` words.

    `step` fetches the word at the program counter, decodes its opcode as
    `op >> 20`, stops on the halt opcode, and otherwise runs the handler of
    that opcode, recomputes the zero flag and adds one to the program
    counter, also after a jump.

    The pure functions `Transition` and `Execution` say what one step and a
    bounded run do to a `State`; the class `Machine` holds the register and
    memory arrays that the source updates in place, and each of its methods
    is proved to agree with those functions.

    Words are 32-bit unsigned integers.  The bit operations of the source
    are written as the arithmetic they perform on such a word: `w >> 20` is
    `w / 2^20`, `w & 0xFFFF` is `w % 2^16`, `stat & StatZero` is
    `stat % 2`, and the conversions `int16(..)`, `int32(..)` and `word(..)`
    are two's-complement reinterpretations. */
module Vm {

  const MemSize := 1000
  const WordModulus := 0x1_0000_0000

  /** Go `word`, a `uint32`. */
  type Word = x: int | 0 <= x < 0x1_0000_0000

  // Opcodes, numbered from zero in this order.
  const OpNop := 0
  const OpHalt := 1
  const OpSet := 2
  const OpAdd := 3
  const OpJmp := 4
  const OpBr0 := 5
  const OpFoo := 6
  const OpNull := 7

  // Register indices.
  const RegPC := 0
  const RegAcc := 1
  const RegStat := 2
  const RegNull := 3

  // Status register values.
  const StatEmpty: Word := 0
  const StatZero: Word := 1

  // ---------------------------------------------------------------------
  // Words and their decoding

  /** `word(v)`: the word whose bits are the low 32 bits of `v`. */
  function ToWord(v: int): Word
  {
    v % WordModulus
  }

  /** `int32(x)`: the `int32` whose bits are the low 32 bits of `x`;
      also the wrap-around of an `int32` sum. */
  function Int32(x: int): (v: int)
    ensures -0x8000_0000 <= v < 0x8000_0000
    ensures ToWord(v) == ToWord(x)
  {
    var m := x % WordModulus;
    if m < 0x8000_0000 then m else m - WordModulus
  }

  /** `op >> 20`: the opcode field of an instruction word. */
  function OpCode(w: Word): nat
  {
    w / 0x10_0000
  }

  /** `int32(int16(w & ((1 << 16) - 1)))`: the signed operand held in the
      low 16 bits of an instruction word. */
  function Operand(w: Word): (v: int)
    ensures -0x8000 <= v < 0x8000
    ensures v % 0x1_0000 == w % 0x1_0000
  {
    var lo := w % 0x1_0000;
    if lo < 0x8000 then lo else lo - 0x1_0000
  }

  /** `stat & StatZero == StatZero`. */
  predicate ZeroFlag(stat: Word)
  {
    stat % 2 == StatZero
  }

  /** The status value `setFlags` computes from the accumulator. */
  function Flags(acc: Word): Word
  {
    if acc == 0 then StatEmpty + StatZero else StatEmpty
  }

  // ---------------------------------------------------------------------
  // Abstract machine state and its transitions

  datatype State = State(pc: Word, acc: Word, stat: Word, mem: seq<Word>)

  /** Why a step cannot proceed: in the source these are run-time panics
      (`memory[pc]` out of range, `ops[opCode]` out of range). */
  datatype Fault = PcOutOfRange(pc: Word) | NoHandler(opCode: nat)

  /** `Running`: the step was made (`step` returned true); `Halted`: the
      halt opcode was fetched (`step` returned false). */
  datatype Outcome = Running | Halted | Panic(fault: Fault)

  /** All registers zero and `MemSize` zero words of memory. */
  function Initial(): (s: State)
    ensures |s.mem| == MemSize
  {
    State(0, 0, 0, seq(MemSize, _ => 0))
  }

  /** `pc + v` in `int32` arithmetic, stored back as a word. */
  function JumpTarget(pc: Word, v: int): Word
  {
    ToWord(Int32(Int32(pc) + v))
  }

  /** What the handler of `opCode` does with instruction `i`. */
  function Execute(opCode: nat, i: Word, s: State): State
    requires opCode < OpNull && opCode != OpHalt
  {
    if opCode == OpSet then
      s.(acc := ToWord(Operand(i)))
    else if opCode == OpAdd then
      s.(acc := ToWord(Int32(Int32(s.acc) + Operand(i))))
    else if opCode == OpJmp then
      s.(pc := JumpTarget(s.pc, Operand(i)))
    else if opCode == OpBr0 then
      (if ZeroFlag(s.stat) then s.(pc := JumpTarget(s.pc, Operand(i))) else s)
    else
      // OpNop and OpFoo change nothing
      s
  }

  /** One `step`: the state afterwards and what `step` reports. */
  function Transition(s: State): (State, Outcome)
  {
    if s.pc >= |s.mem| then (s, Panic(PcOutOfRange(s.pc)))
    else
      var op := s.mem[s.pc];
      var opCode := OpCode(op);
      if opCode == OpHalt then (s, Halted)
      else if opCode >= OpNull then (s, Panic(NoHandler(opCode)))
      else
        var t := Execute(opCode, op, s);
        var t := t.(stat := Flags(t.acc));
        (t.(pc := ToWord(t.pc as int + 1)), Running)
  }

  /** `run(n)`: step while the budget lasts and the step succeeds.  The
      outcome is `Running` when the budget ran out. */
  function Execution(s: State, n: int): (State, Outcome)
    decreases n
  {
    if n <= 0 then (s, Running)
    else
      var (t, o) := Transition(s);
      if o != Running then (t, o) else Execution(t, n - 1)
  }

  /** The state after `k` transitions. */
  function Iterate(s: State, k: nat): State
    decreases k
  {
    if k == 0 then s else Iterate(Transition(s).0, k - 1)
  }

  /** The memory after `load(at, data)`. */
  function Loaded(mem: seq<Word>, at: int, data: seq<Word>): (r: seq<Word>)
    requires |data| == 0 || (0 <= at && at + |data| <= |mem|)
    ensures |r| == |mem|
  {
    if |data| == 0 then mem else mem[..at] + data + mem[at + |data|..]
  }

  // ---------------------------------------------------------------------
  // The machine object

  class Machine {
    var registers: array<Word>
    var memory: array<Word>

    ghost predicate Valid()
      reads this
    {
      registers.Length == RegNull && memory.Length == MemSize && registers != memory
    }

    /** The registers and memory as a `State`. */
    function Snapshot(): (s: State)
      reads this, registers, memory
      requires Valid()
      ensures |s.mem| == MemSize
    {
      State(registers[RegPC], registers[RegAcc], registers[RegStat], memory[..])
    }

    /** `newMachine`. */
    constructor ()
      ensures Valid() && fresh(registers) && fresh(memory)
      ensures Snapshot() == Initial()
    {
      registers := new Word[RegNull](_ => 0);
      memory := new Word[MemSize](_ => 0);
    }

    /** `load`: copies `data` into memory from address `at` on. */
    method Load(at: int, data: seq<Word>)
      requires Valid()
      requires |data| == 0 || (0 <= at && at + |data| <= MemSize)
      modifies memory
      ensures Valid()
      ensures Snapshot() == old(Snapshot()).(mem := Loaded(old(Snapshot()).mem, at, data))
    {
      for i := 0 to |data|
        invariant forall k :: 0 <= k < MemSize ==>
          memory[k] == if at <= k < at + i then data[k - at] else old(memory[k])
      {
        memory[at + i] := data[i];
      }
      forall k | 0 <= k < MemSize
        ensures memory[..][k] == Loaded(old(memory[..]), at, data)[k]
      {
        LoadedAt(old(memory[..]), at, data, k);
      }
    }

    /** `set`: stores one word. */
    method Set(n: int, instruction: Word)
      requires Valid()
      requires 0 <= n < MemSize
      modifies memory
      ensures Valid()
      ensures Snapshot() == old(Snapshot()).(mem := old(Snapshot()).mem[n := instruction])
    {
      memory[n] := instruction;
    }

    /** `setFlags`: the status register records whether the accumulator is zero. */
    method SetFlags()
      requires Valid()
      modifies registers
      ensures Valid()
      ensures Snapshot() == old(Snapshot()).(stat := Flags(old(Snapshot()).acc))
    {
      var acc := registers[RegAcc];
      var stat := StatEmpty;
      if acc == 0 {
        stat := StatEmpty + StatZero;  // StatEmpty | StatZero
      }
      registers[RegStat] := stat;
    }

    method ExecNop(i: Word)
      requires Valid()
      modifies registers
      ensures Valid()
      ensures Snapshot() == Execute(OpNop, i, old(Snapshot()))
    {
    }

    method ExecFoo(i: Word)
      requires Valid()
      modifies registers
      ensures Valid()
      ensures Snapshot() == Execute(OpFoo, i, old(Snapshot()))
    {
    }

    method ExecSet(i: Word)
      requires Valid()
      modifies registers
      ensures Valid()
      ensures Snapshot() == Execute(OpSet, i, old(Snapshot()))
    {
      var v := Operand(i);
      registers[RegAcc] := ToWord(v);
    }

    method ExecAdd(i: Word)
      requires Valid()
      modifies registers
      ensures Valid()
      ensures Snapshot() == Execute(OpAdd, i, old(Snapshot()))
    {
      var v := Operand(i);
      var a := Int32(registers[RegAcc]);
      var nv := Int32(a + v);
      registers[RegAcc] := ToWord(nv);
    }

    method ExecJmp(i: Word)
      requires Valid()
      modifies registers
      ensures Valid()
      ensures Snapshot() == Execute(OpJmp, i, old(Snapshot()))
    {
      var v := Operand(i);
      var pc := Int32(registers[RegPC]);
      var npc := Int32(pc + v);
      registers[RegPC] := ToWord(npc);
    }

    method ExecBr0(i: Word)
      requires Valid()
      modifies registers
      ensures Valid()
      ensures Snapshot() == Execute(OpBr0, i, old(Snapshot()))
    {
      var v := Operand(i);
      var stat := registers[RegStat];
      if ZeroFlag(stat) {
        var pc := Int32(registers[RegPC]);
        var npc := Int32(pc + v);
        registers[RegPC] := ToWord(npc);
      }
    }

    /** `step`: fetch, decode, execute, update the flags, advance the
        program counter. */
    method Step() returns (o: Outcome)
      requires Valid()
      modifies registers
      ensures Valid()
      ensures (Snapshot(), o) == Transition(old(Snapshot()))
    {
      var pc := registers[RegPC];
      if pc >= memory.Length {
        return Panic(PcOutOfRange(pc));
      }
      var op := memory[pc];
      var opCode := OpCode(op);
      if opCode == OpHalt {
        return Halted;
      }
      if opCode >= OpNull {
        return Panic(NoHandler(opCode));
      }
      if opCode == OpNop {
        ExecNop(op);
      } else if opCode == OpSet {
        ExecSet(op);
      } else if opCode == OpAdd {
        ExecAdd(op);
      } else if opCode == OpJmp {
        ExecJmp(op);
      } else if opCode == OpBr0 {
        ExecBr0(op);
      } else {
        ExecFoo(op);
      }
      SetFlags();
      registers[RegPC] := ToWord(registers[RegPC] as int + 1);
      o := Running;
    }

    /** `run(n)`: at most `n` steps, stopping at the first one that does
        not make progress. */
    method Run(n: int) returns (o: Outcome)
      requires Valid()
      modifies registers
      ensures Valid()
      ensures (Snapshot(), o) == Execution(old(Snapshot()), n)
    {
      var k := n;
      o := Running;
      while k > 0
        invariant Valid()
        invariant o == Running
        invariant Execution(Snapshot(), k) == Execution(old(Snapshot()), n)
        decreases k
      {
        o := Step();
        if o != Running {
          return;
        }
        k := k - 1;
      }
    }
  }

  // ---------------------------------------------------------------------
  // Properties

  /** `load` writes `data[i]` at `at + i` and nothing else. */
  lemma LoadedAt(mem: seq<Word>, at: int, data: seq<Word>, k: int)
    requires |data| == 0 || (0 <= at && at + |data| <= |mem|)
    requires 0 <= k < |mem|
    ensures Loaded(mem, at, data)[k] == if at <= k < at + |data| then data[k - at] else mem[k]
  {
    if |data| > 0 {
      if k < at {
        assert Loaded(mem, at, data)[k] == mem[..at][k];
      } else if k < at + |data| {
        assert Loaded(mem, at, data)[k] == (mem[..at] + data)[k];
      }
    }
  }

  /** Fetching the halt opcode reports `Halted` and changes nothing. */
  lemma HaltChangesNothing(s: State)
    requires s.pc < |s.mem| && OpCode(s.mem[s.pc]) == OpHalt
    ensures Transition(s) == (s, Halted)
  {
  }

  /** No step writes memory. */
  lemma TransitionKeepsMemory(s: State)
    ensures Transition(s).0.mem == s.mem
  {
  }

  /** After every step that makes progress, the status register is
      `StatZero` exactly when the accumulator is zero and `StatEmpty`
      otherwise. */
  lemma FlagsAfterStep(s: State)
    requires Transition(s).1 == Running
    ensures var t := Transition(s).0;
      (t.acc == 0 ==> t.stat == StatZero) && (t.acc != 0 ==> t.stat == StatEmpty)
  {
  }

  /** A step fails to make progress only on the halt opcode or a fault. */
  lemma TransitionOutcome(s: State)
    ensures Transition(s).1 == Halted <==>
      s.pc < |s.mem| && OpCode(s.mem[s.pc]) == OpHalt
    ensures Transition(s).1 == Running <==>
      s.pc < |s.mem| && OpCode(s.mem[s.pc]) < OpNull && OpCode(s.mem[s.pc]) != OpHalt
  {
  }

  /** Adding in `int32` and storing as a word is addition modulo 2^32. */
  lemma WrappingAdd(a: Word, v: int)
    ensures ToWord(Int32(Int32(a) + v)) == (a + v) % WordModulus
  {
    var x := Int32(a);
    assert (x - a) % WordModulus == 0 by {
      assert ToWord(x) == ToWord(a);
    }
    assert ToWord(Int32(x + v)) == ToWord(x + v);
    ModuloShift(a + v, x - a);
  }

  lemma ModuloShift(y: int, d: int)
    requires d % WordModulus == 0
    ensures (y + d) % WordModulus == y % WordModulus
  {
    var q := d / WordModulus;
    assert d == WordModulus * q;
  }

  /** After a nop, set, add or foo step the program counter has moved on
      by one, modulo 2^32. */
  lemma PcAdvancesByOne(s: State)
    requires s.pc < |s.mem|
    requires OpCode(s.mem[s.pc]) in {OpNop, OpSet, OpAdd, OpFoo}
    ensures Transition(s).1 == Running
    ensures Transition(s).0.pc == (s.pc + 1) % WordModulus
  {
  }

  /** `set` loads the sign-extended low 16 bits of the instruction; `add`
      adds them to the accumulator modulo 2^32. */
  lemma AccumulatorUpdate(s: State)
    requires s.pc < |s.mem|
    ensures var op := s.mem[s.pc];
      OpCode(op) == OpSet ==> Transition(s).0.acc == Operand(op) % WordModulus
    ensures var op := s.mem[s.pc];
      OpCode(op) == OpAdd ==> Transition(s).0.acc == (s.acc + Operand(op)) % WordModulus
  {
    WrappingAdd(s.acc, Operand(s.mem[s.pc]));
  }

  /** A jump target, moved on by one, is `pc + v + 1` modulo 2^32. */
  lemma JumpTargetPlusOne(pc: Word, v: int)
    ensures ToWord(JumpTarget(pc, v) as int + 1) == (pc + v + 1) % WordModulus
  {
    WrappingAdd(pc, v);
    var j := JumpTarget(pc, v);
    ModuloShift(pc + v + 1, j - (pc + v));
  }

  /** Because `step` adds one after the handler, a taken jump lands on
      `pc + operand + 1`; `br0` jumps only if the zero flag was set
      before the step. */
  lemma JumpLandsPastTarget(s: State)
    requires s.pc < |s.mem|
    ensures var op := s.mem[s.pc];
      OpCode(op) == OpJmp ==>
        Transition(s).0.pc == (s.pc + Operand(op) + 1) % WordModulus
    ensures var op := s.mem[s.pc];
      OpCode(op) == OpBr0 ==>
        Transition(s).0.pc ==
          if ZeroFlag(s.stat) then (s.pc + Operand(op) + 1) % WordModulus
          else (s.pc + 1) % WordModulus
  {
    JumpTargetPlusOne(s.pc, Operand(s.mem[s.pc]));
  }

  /** `run(n)` on `s` ends after exactly `k` successful steps: `k` is at
      most `max(n, 0)`, the run reports `Running` only when it used the
      whole budget, and otherwise reports the outcome of the step after
      the k-th, which changed nothing. */
  ghost predicate BoundedRun(s: State, n: int, k: nat)
  {
    var (t, o) := Execution(s, n);
    k <= (if n <= 0 then 0 else n) &&
    t == Iterate(s, k) &&
    (forall j: nat :: j < k ==> Transition(Iterate(s, j)).1 == Running) &&
    (o == Running ==> k == (if n <= 0 then 0 else n)) &&
    (o != Running ==> k < n && Transition(Iterate(s, k)) == (t, o))
  }

  /** A state whose step does not make progress is a fixed point of `run`. */
  lemma StoppedStaysStopped(s: State, n: int)
    requires n > 0 && Transition(s).1 != Running
    ensures Execution(s, n) == (s, Transition(s).1)
  {
  }

  /** `run(n)` makes some `k <= max(n, 0)` steps, every one of them
      successful; it reports `Running` only when it used the whole budget,
      and otherwise the outcome of the step after the k-th. */
  lemma {:induction false} ExecutionIsBoundedIteration(s: State, n: int)
    ensures n <= 0 ==> Execution(s, n) == (s, Running)
    ensures exists k: nat :: BoundedRun(s, n, k)
    decreases n
  {
    if n <= 0 {
      assert Iterate(s, 0) == s;
      assert BoundedRun(s, n, 0);
    } else {
      var (u, p) := Transition(s);
      if p != Running {
        assert Iterate(s, 0) == s;
        assert BoundedRun(s, n, 0);
      } else {
        assert Execution(s, n) == Execution(u, n - 1);
        ExecutionIsBoundedIteration(u, n - 1);
        var k: nat :| BoundedRun(u, n - 1, k);
        assert Iterate(s, k + 1) == Iterate(u, k);
        forall j: nat | j < k + 1
          ensures Transition(Iterate(s, j)).1 == Running
        {
          if j > 0 {
            assert Iterate(s, j) == Iterate(u, j - 1);
          }
        }
        assert BoundedRun(s, n, k + 1);
      }
    }
  }

  /** Running `a` steps and then `b` more is running `a + b` steps, unless
      the first run already stopped. */
  lemma {:induction false} ExecutionSplits(s: State, a: nat, b: nat)
    ensures Execution(s, a + b) ==
      var (t, o) := Execution(s, a);
      if o == Running then Execution(t, b) else (t, o)
    decreases a
  {
    if a > 0 {
      var (u, p) := Transition(s);
      if p == Running {
        ExecutionSplits(u, a - 1, b);
      }
    }
  }
}
