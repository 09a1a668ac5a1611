/** The text assembler for the accumulator machine.

    A program is a newline-separated list of lines; empty lines are
    skipped, every other line is split on single spaces, and its first
    word picks the instruction.  `set`, `add`, `jmp` and `br0` take a
    decimal operand (the second word), truncated to 16 bits; `nop`,
    `halt` and `foo` take none, and any further words on a line are
    ignored.  Every instruction word is `opcode << 20 | uint16(operand)`,
    which is what `Vm.OpCode` and `Vm.Operand` decode. */
module Asm {
  import opened Vm

  /** Go `int16`. */
  type Int16 = x: int | -0x8000 <= x < 0x8000

  /** `int16(n)`: the low 16 bits of `n` read as two's complement. */
  function ToInt16(n: int): (v: Int16)
    ensures (v - n) % 0x1_0000 == 0
    ensures -0x8000 <= n < 0x8000 ==> v == n
  {
    (n + 0x8000) % 0x1_0000 - 0x8000
  }

  /** `word(uint16(n))`. */
  function Uint16(n: Int16): nat
  {
    n % 0x1_0000
  }

  // ---------------------------------------------------------------------
  // Instruction builders: the opcode in bits 20 and up, the operand in
  // bits 0..15; the disjoint OR is written as a sum.

  /** The opcode field `op << 20` of an instruction without an operand. */
  function Plain(op: nat): (w: Word)
    requires op < OpNull
    ensures OpCode(w) == op
    ensures w % 0x10_0000 == 0
  {
    op * 0x10_0000
  }

  /** `op << 20 | word(uint16(n))`, shared by the builders with an operand. */
  function WithOperand(op: nat, n: Int16): (w: Word)
    requires op < OpNull
    ensures OpCode(w) == op
    ensures (w / 0x1_0000) % 0x10 == 0
    ensures w % 0x1_0000 == Uint16(n)
    ensures Operand(w) == n
  {
    op * 0x10_0000 + Uint16(n)
  }

  function MakeNop(): (w: Word)
    ensures OpCode(w) == OpNop && w % 0x10_0000 == 0
  {
    Plain(OpNop)
  }

  function MakeHalt(): (w: Word)
    ensures OpCode(w) == OpHalt && w % 0x10_0000 == 0
  {
    Plain(OpHalt)
  }

  function MakeFoo(): (w: Word)
    ensures OpCode(w) == OpFoo && w % 0x10_0000 == 0
  {
    Plain(OpFoo)
  }

  function MakeSet(n: Int16): (w: Word)
    ensures OpCode(w) == OpSet && (w / 0x1_0000) % 0x10 == 0
    ensures w % 0x1_0000 == Uint16(n) && Operand(w) == n
  {
    WithOperand(OpSet, n)
  }

  function MakeAdd(n: Int16): (w: Word)
    ensures OpCode(w) == OpAdd && (w / 0x1_0000) % 0x10 == 0
    ensures w % 0x1_0000 == Uint16(n) && Operand(w) == n
  {
    WithOperand(OpAdd, n)
  }

  function MakeJmp(n: Int16): (w: Word)
    ensures OpCode(w) == OpJmp && (w / 0x1_0000) % 0x10 == 0
    ensures w % 0x1_0000 == Uint16(n) && Operand(w) == n
  {
    WithOperand(OpJmp, n)
  }

  function MakeBr0(n: Int16): (w: Word)
    ensures OpCode(w) == OpBr0 && (w / 0x1_0000) % 0x10 == 0
    ensures w % 0x1_0000 == Uint16(n) && Operand(w) == n
  {
    WithOperand(OpBr0, n)
  }

  // ---------------------------------------------------------------------
  // Splitting text

  /** `strings.Split(s, sep)` for a one-character separator: the pieces
      between separators, so `Split("", sep) == [""]`. */
  function Split(s: string, sep: char): (parts: seq<string>)
    ensures |parts| >= 1
    decreases |s|
  {
    if |s| == 0 then [""]
    else
      var rest := Split(s[1..], sep);
      if s[0] == sep then [""] + rest else [[s[0]] + rest[0]] + rest[1..]
  }

  /** `strings.Join(parts, sep)`, the inverse of `Split`. */
  function Join(parts: seq<string>, sep: char): string
    requires |parts| >= 1
    decreases |parts|
  {
    if |parts| == 1 then parts[0] else parts[0] + [sep] + Join(parts[1..], sep)
  }

  lemma JoinConsChar(c: char, parts: seq<string>, sep: char)
    requires |parts| >= 1
    ensures Join([[c] + parts[0]] + parts[1..], sep) == [c] + Join(parts, sep)
  {
    var ps := [[c] + parts[0]] + parts[1..];
    assert ps[1..] == parts[1..];
  }

  /** Joining the pieces with the separator gives back the text. */
  lemma {:induction false} JoinSplit(s: string, sep: char)
    ensures Join(Split(s, sep), sep) == s
    decreases |s|
  {
    if |s| > 0 {
      var rest := Split(s[1..], sep);
      JoinSplit(s[1..], sep);
      if s[0] == sep {
        assert ([""] + rest)[1..] == rest;
      } else {
        JoinConsChar(s[0], rest, sep);
      }
      assert s == [s[0]] + s[1..];
    }
  }

  /** No piece contains the separator. */
  lemma {:induction false} SplitPiecesFree(s: string, sep: char)
    ensures forall i :: 0 <= i < |Split(s, sep)| ==> sep !in Split(s, sep)[i]
    decreases |s|
  {
    if |s| > 0 {
      SplitPiecesFree(s[1..], sep);
    }
  }

  /** Text without the separator is one piece. */
  lemma {:induction false} SplitFree(a: string, sep: char)
    requires sep !in a
    ensures Split(a, sep) == [a]
    decreases |a|
  {
    if |a| > 0 {
      SplitFree(a[1..], sep);
      assert a == [a[0]] + a[1..];
    }
  }

  /** Splitting at the first separator. */
  lemma {:induction false} SplitAtFirst(a: string, b: string, sep: char)
    requires sep !in a
    ensures Split(a + [sep] + b, sep) == [a] + Split(b, sep)
    decreases |a|
  {
    if |a| == 0 {
      assert a + [sep] + b == [sep] + b;
      assert ([sep] + b)[1..] == b;
    } else {
      assert (a + [sep] + b)[1..] == a[1..] + [sep] + b;
      SplitAtFirst(a[1..], b, sep);
      assert a == [a[0]] + a[1..];
    }
  }

  /** Splitting the joined pieces gives back the pieces, when none of
      them contains the separator. */
  lemma {:induction false} SplitJoin(parts: seq<string>, sep: char)
    requires |parts| >= 1
    requires forall i :: 0 <= i < |parts| ==> sep !in parts[i]
    ensures Split(Join(parts, sep), sep) == parts
    decreases |parts|
  {
    if |parts| == 1 {
      SplitFree(parts[0], sep);
    } else {
      SplitJoin(parts[1..], sep);
      SplitAtFirst(parts[0], Join(parts[1..], sep), sep);
      assert [parts[0]] + parts[1..] == parts;
    }
  }

  // ---------------------------------------------------------------------
  // Decimal numbers

  predicate IsDigit(c: char)
  {
    '0' <= c <= '9'
  }

  predicate AllDigits(s: string)
  {
    forall i :: 0 <= i < |s| ==> IsDigit(s[i])
  }

  /** The value of a string of decimal digits, most significant first. */
  function DigitsValue(s: string): nat
    requires AllDigits(s)
    decreases |s|
  {
    if |s| == 0 then 0
    else DigitsValue(s[..|s| - 1]) * 10 + (s[|s| - 1] as int - '0' as int)
  }

  datatype Option<T> = None | Some(value: T)

  const MinInt := -0x8000_0000_0000_0000
  const MaxInt := 0x7FFF_FFFF_FFFF_FFFF

  /** `strconv.Atoi`: an optional `+` or `-`, then one or more decimal
      digits, and a value that fits Go's 64-bit `int`; anything else is
      an error. */
  function Atoi(s: string): (r: Option<int>)
    ensures r.Some? ==> MinInt <= r.value <= MaxInt
  {
    if |s| == 0 then None
    else
      var digits := if s[0] == '-' || s[0] == '+' then s[1..] else s;
      if |digits| == 0 || !AllDigits(digits) then None
      else
        var v: int := if s[0] == '-' then 0 - DigitsValue(digits) as int else DigitsValue(digits);
        if MinInt <= v <= MaxInt then Some(v) else None
  }

  function Digit(d: nat): (c: char)
    requires d < 10
    ensures IsDigit(c)
  {
    ('0' as int + d) as char
  }

  /** The decimal digits of `n`, without leading zeros. */
  function FormatNat(n: nat): (s: string)
    ensures |s| >= 1 && AllDigits(s)
  {
    if n < 10 then [Digit(n)] else FormatNat(n / 10) + [Digit(n % 10)]
  }

  /** `strconv.Itoa`. */
  function FormatInt(n: int): string
  {
    if n < 0 then "-" + FormatNat(-n) else FormatNat(n)
  }

  lemma {:induction false} FormatNatValue(n: nat)
    ensures DigitsValue(FormatNat(n)) == n
  {
    if n >= 10 {
      var s := FormatNat(n);
      FormatNatValue(n / 10);
      assert s[..|s| - 1] == FormatNat(n / 10);
    }
  }

  /** Parsing the decimal form of an `int` gives it back. */
  lemma AtoiFormat(n: int)
    requires MinInt <= n <= MaxInt
    ensures Atoi(FormatInt(n)) == Some(n)
  {
    if n < 0 {
      FormatNatValue(-n);
      assert FormatInt(n)[1..] == FormatNat(-n);
    } else {
      FormatNatValue(n);
    }
  }

  /** The decimal form of a number has no space in it. */
  lemma FormatIntNoSpace(n: int)
    ensures ' ' !in FormatInt(n)
  {
    var s := FormatInt(n);
    if n < 0 {
      assert forall i :: 1 <= i < |s| ==> s[i] == FormatNat(-n)[i - 1];
    }
    assert forall i :: 0 <= i < |s| ==> s[i] != ' ';
  }

  // ---------------------------------------------------------------------
  // Assembling

  /** Why assembly stopped.  In the source `BadNumber` is whatever error
      `strconv.Atoi` returned for the token. */
  datatype AsmError = UnknownOp(mnemonic: string) | BadNumber(token: string)

  /** The text of the error an unknown mnemonic produces. */
  function Message(e: AsmError): string
    requires e.UnknownOp?
  {
    "unknown op: " + e.mnemonic
  }

  /** What one line contributes: nothing (an empty line), one word, an
      error, or the index-out-of-range panic of reading a missing
      operand `ws[1]`. */
  datatype LineResult = Skip | Emit(w: Word) | Fail(e: AsmError) | MissingOperand

  /** The result of `assemble`: all the words, or the first error, or the
      panic of a missing operand. */
  datatype Assembled = Words(words: seq<Word>) | Error(e: AsmError) | Panicked

  /** The operand of `set`, `add`, `jmp` or `br0`, converted by `int16`
      and handed to the builder. */
  function OperandLine(ws: seq<string>, make: Int16 -> Word): LineResult
  {
    if |ws| < 2 then MissingOperand
    else
      match Atoi(ws[1])
      case None => Fail(BadNumber(ws[1]))
      case Some(n) => Emit(make(ToInt16(n)))
  }

  /** One iteration of the loop in `assemble`. */
  function AssembleLine(l: string): LineResult
  {
    if l == "" then Skip
    else
      var ws := Split(l, ' ');
      if ws[0] == "nop" then Emit(MakeNop())
      else if ws[0] == "halt" then Emit(MakeHalt())
      else if ws[0] == "set" then OperandLine(ws, MakeSet)
      else if ws[0] == "add" then OperandLine(ws, MakeAdd)
      else if ws[0] == "jmp" then OperandLine(ws, MakeJmp)
      else if ws[0] == "br0" then OperandLine(ws, MakeBr0)
      else if ws[0] == "foo" then Emit(MakeFoo())
      else Fail(UnknownOp(ws[0]))
  }

  /** What `assemble` computes from its lines, taken first to last. */
  function AssembleLines(ls: seq<string>): Assembled
    decreases |ls|
  {
    if |ls| == 0 then Words([])
    else
      match AssembleLines(ls[..|ls| - 1])
      case Words(out) =>
        (match AssembleLine(ls[|ls| - 1])
         case Skip => Words(out)
         case Emit(w) => Words(out + [w])
         case Fail(e) => Error(e)
         case MissingOperand => Panicked)
      case other => other
  }

  /** `assemble`. */
  method Assemble(src: string) returns (r: Assembled)
    ensures r == AssembleLines(Split(src, '\n'))
  {
    var lines := Split(src, '\n');
    var out: seq<Word> := [];
    for k := 0 to |lines|
      invariant AssembleLines(lines[..k]) == Words(out)
    {
      AssembleStep(lines, k);
      var l := lines[k];
      if l == "" {
        continue;
      }
      var ws := Split(l, ' ');
      var i: Word;
      if ws[0] == "nop" {
        i := MakeNop();
      } else if ws[0] == "halt" {
        i := MakeHalt();
      } else if ws[0] in {"set", "add", "jmp", "br0"} {
        if |ws| < 2 {
          r := Panicked;
          assert AssembleLine(l) == MissingOperand;
          AssemblePrefixStops(lines, k + 1);
          return;
        }
        var n := Atoi(ws[1]);
        if n.None? {
          r := Error(BadNumber(ws[1]));
          assert AssembleLine(l) == Fail(BadNumber(ws[1]));
          AssemblePrefixStops(lines, k + 1);
          return;
        }
        var v := ToInt16(n.value);
        if ws[0] == "set" {
          i := MakeSet(v);
        } else if ws[0] == "add" {
          i := MakeAdd(v);
        } else if ws[0] == "jmp" {
          i := MakeJmp(v);
        } else {
          i := MakeBr0(v);
        }
      } else if ws[0] == "foo" {
        i := MakeFoo();
      } else {
        r := Error(UnknownOp(ws[0]));
        assert AssembleLine(l) == Fail(UnknownOp(ws[0]));
        AssemblePrefixStops(lines, k + 1);
        return;
      }
      assert AssembleLine(l) == Emit(i);
      out := out + [i];
    }
    assert lines[..|lines|] == lines;
    r := Words(out);
  }

  /** One more line of a prefix that assembled so far. */
  lemma AssembleStep(ls: seq<string>, k: nat)
    requires k < |ls|
    ensures AssembleLines(ls[..k]).Words? ==>
      var out := AssembleLines(ls[..k]).words;
      AssembleLines(ls[..k + 1]) ==
        match AssembleLine(ls[k])
        case Skip => Words(out)
        case Emit(w) => Words(out + [w])
        case Fail(e) => Error(e)
        case MissingOperand => Panicked
  {
    assert ls[..k + 1][..k] == ls[..k];
  }

  // ---------------------------------------------------------------------
  // Properties of assembling

  /** Once a prefix of the lines fails, the rest is never looked at. */
  lemma {:induction false} AssemblePrefixStops(ls: seq<string>, k: nat)
    requires k <= |ls|
    requires !AssembleLines(ls[..k]).Words?
    ensures AssembleLines(ls) == AssembleLines(ls[..k])
    decreases |ls|
  {
    if k < |ls| {
      var init := ls[..|ls| - 1];
      assert init[..k] == ls[..k];
      AssemblePrefixStops(init, k);
    } else {
      assert ls[..k] == ls;
    }
  }

  /** Exactly the empty line contributes no word and no error. */
  lemma SkipIffEmpty(l: string)
    ensures AssembleLine(l) == Skip <==> l == ""
  {
  }

  predicate LineOk(r: LineResult)
  {
    r.Skip? || r.Emit?
  }

  /** The words of the lines that produce one, in line order. */
  function Emitted(ls: seq<string>): seq<Word>
    decreases |ls|
  {
    if |ls| == 0 then []
    else
      (match AssembleLine(ls[0]) case Emit(w) => [w] case _ => []) + Emitted(ls[1..])
  }

  lemma {:induction false} EmittedSnoc(ls: seq<string>, l: string)
    ensures Emitted(ls + [l]) ==
      Emitted(ls) + (match AssembleLine(l) case Emit(w) => [w] case _ => [])
    decreases |ls|
  {
    if |ls| > 0 {
      assert (ls + [l])[1..] == ls[1..] + [l];
      EmittedSnoc(ls[1..], l);
    } else {
      assert [l][1..] == [];
    }
  }

  /** Assembly succeeds exactly when no line fails, and then yields the
      word of every non-empty line, in source order. */
  lemma {:induction false} AssembleSucceeds(ls: seq<string>)
    ensures AssembleLines(ls).Words? <==> forall i :: 0 <= i < |ls| ==> LineOk(AssembleLine(ls[i]))
    ensures AssembleLines(ls).Words? ==> AssembleLines(ls).words == Emitted(ls)
    decreases |ls|
  {
    if |ls| > 0 {
      var init := ls[..|ls| - 1];
      AssembleSucceeds(init);
      EmittedSnoc(init, ls[|ls| - 1]);
      assert init + [ls[|ls| - 1]] == ls;
    }
  }

  /** The non-empty lines, in order. */
  function NonEmpty(ls: seq<string>): seq<string>
    decreases |ls|
  {
    if |ls| == 0 then []
    else (if ls[0] == "" then [] else [ls[0]]) + NonEmpty(ls[1..])
  }

  /** When no line fails, there is one word for every non-empty line, and
      the j-th word is what the j-th non-empty line assembles to. */
  lemma {:induction false} OneWordPerLine(ls: seq<string>)
    requires forall i :: 0 <= i < |ls| ==> LineOk(AssembleLine(ls[i]))
    ensures |Emitted(ls)| == |NonEmpty(ls)|
    ensures forall j :: 0 <= j < |Emitted(ls)| ==>
      AssembleLine(NonEmpty(ls)[j]) == Emit(Emitted(ls)[j])
    decreases |ls|
  {
    if |ls| > 0 {
      OneWordPerLine(ls[1..]);
      if ls[0] != "" {
        var w := AssembleLine(ls[0]).w;
        assert Emitted(ls) == [w] + Emitted(ls[1..]);
        assert NonEmpty(ls) == [ls[0]] + NonEmpty(ls[1..]);
        forall j | 0 <= j < |Emitted(ls)|
          ensures AssembleLine(NonEmpty(ls)[j]) == Emit(Emitted(ls)[j])
        {
          if j > 0 {
            assert NonEmpty(ls)[j] == NonEmpty(ls[1..])[j - 1];
          }
        }
      } else {
        assert Emitted(ls) == Emitted(ls[1..]);
        assert NonEmpty(ls) == NonEmpty(ls[1..]);
      }
    }
  }

  /** A failed assembly reports the first line that fails, and every
      line before it is fine. */
  lemma {:induction false} AssembleFailsAtFirst(ls: seq<string>)
    requires !AssembleLines(ls).Words?
    ensures exists i :: 0 <= i < |ls| && FirstFailure(ls, i)
    decreases |ls|
  {
    var init := ls[..|ls| - 1];
    assert forall j :: 0 <= j < |init| ==> init[j] == ls[j];
    if AssembleLines(init).Words? {
      AssembleSucceeds(init);
      assert FirstFailure(ls, |ls| - 1);
    } else {
      assert AssembleLines(ls) == AssembleLines(init);
      AssembleFailsAtFirst(init);
      var i :| 0 <= i < |init| && FirstFailure(init, i);
      assert FirstFailure(ls, i);
    }
  }

  /** Line `i` is the first that fails, every line before it is fine, and
      its failure is the result of the whole assembly. */
  ghost predicate FirstFailure(ls: seq<string>, i: int)
    requires 0 <= i < |ls|
  {
    (forall j :: 0 <= j < i ==> LineOk(AssembleLine(ls[j]))) &&
    match AssembleLine(ls[i])
    case Fail(e) => AssembleLines(ls) == Error(e)
    case MissingOperand => AssembleLines(ls) == Panicked
    case _ => false
  }

  /** The opcode a mnemonic with an operand assembles to. */
  function OperandOpCode(m: string): nat
  {
    if m == "set" then OpSet
    else if m == "add" then OpAdd
    else if m == "jmp" then OpJmp
    else OpBr0
  }

  /** The words of `m tok rest`, when neither `m` nor `tok` holds a space
      and `rest` is empty or starts with one. */
  lemma SplitOperandLine(m: string, tok: string, rest: string)
    requires ' ' !in m && ' ' !in tok
    requires rest == "" || rest[0] == ' '
    ensures var ws := Split(m + " " + tok + rest, ' ');
      |ws| >= 2 && ws[0] == m && ws[1] == tok
  {
    assert m + " " + tok + rest == m + [' '] + (tok + rest);
    SplitAtFirst(m, tok + rest, ' ');
    if rest == "" {
      assert tok + rest == tok;
      SplitFree(tok, ' ');
    } else {
      assert tok + rest == tok + [' '] + rest[1..];
      SplitAtFirst(tok, rest[1..], ' ');
    }
  }

  /** `m n` assembles to the opcode of `m` with `int16(n)` as operand: an
      operand outside the int16 range is truncated, not rejected.  Any
      further words on the line are ignored. */
  lemma OperandLineAssembles(m: string, n: int, rest: string)
    requires m in {"set", "add", "jmp", "br0"}
    requires MinInt <= n <= MaxInt
    requires rest == "" || rest[0] == ' '
    ensures AssembleLine(m + " " + FormatInt(n) + rest) ==
      Emit(WithOperand(OperandOpCode(m), ToInt16(n)))
  {
    FormatIntNoSpace(n);
    AtoiFormat(n);
    SplitOperandLine(m, FormatInt(n), rest);
  }

  /** The assembled operand decodes to `int16(n)`, which is `n` modulo
      2^16, and is `n` itself when `n` fits in 16 bits. */
  lemma OperandLineDecodes(m: string, n: int, rest: string)
    requires m in {"set", "add", "jmp", "br0"}
    requires MinInt <= n <= MaxInt
    requires rest == "" || rest[0] == ' '
    ensures var r := AssembleLine(m + " " + FormatInt(n) + rest);
      r.Emit? && OpCode(r.w) == OperandOpCode(m) &&
      (Operand(r.w) - n) % 0x1_0000 == 0 &&
      (-0x8000 <= n < 0x8000 ==> Operand(r.w) == n)
  {
    OperandLineAssembles(m, n, rest);
  }

  const OperandMnemonics: set<string> := {"set", "add", "jmp", "br0"}
  const Mnemonics: set<string> := {"nop", "halt", "foo"} + OperandMnemonics

  /** How a non-empty line fails: an unknown first word is reported with
      the text "unknown op: " and that word; an operand that `Atoi`
      rejects is reported with the operand; a missing operand is the
      index panic. */
  lemma LineFailures(l: string)
    ensures var ws := Split(l, ' ');
      (AssembleLine(l).Fail? && AssembleLine(l).e.UnknownOp?) <==>
        (l != "" && ws[0] !in Mnemonics)
    ensures var ws := Split(l, ' ');
      l != "" && ws[0] !in Mnemonics ==>
        Message(AssembleLine(l).e) == "unknown op: " + ws[0]
    ensures var ws := Split(l, ' ');
      (AssembleLine(l).Fail? && AssembleLine(l).e.BadNumber?) <==>
        (l != "" && ws[0] in OperandMnemonics && |ws| >= 2 && Atoi(ws[1]).None?)
    ensures var ws := Split(l, ' ');
      AssembleLine(l) == MissingOperand <==>
        (l != "" && ws[0] in OperandMnemonics && |ws| < 2)
  {
  }

  /** `nop`, `halt` and `foo` carry only their opcode, whatever follows
      them on the line. */
  lemma PlainLineAssembles(m: string, rest: string)
    requires m in {"nop", "halt", "foo"}
    requires rest == "" || rest[0] == ' '
    ensures AssembleLine(m + rest) ==
      Emit(Plain(if m == "nop" then OpNop else if m == "halt" then OpHalt else OpFoo))
  {
    assert ' ' !in m;
    if rest == "" {
      assert m + rest == m;
      SplitFree(m, ' ');
    } else {
      assert m + rest == m + [' '] + rest[1..];
      SplitAtFirst(m, rest[1..], ' ');
    }
  }

  /** An operand mnemonic alone on its line reads past the words. */
  lemma OperandMissing(m: string)
    requires m in OperandMnemonics
    ensures AssembleLine(m) == MissingOperand
  {
    assert ' ' !in m;
    SplitFree(m, ' ');
  }

  /** `set n` followed by `halt` assembles to those two instructions. */
  lemma SetThenHaltAssembles(n: Int16)
    ensures AssembleLines(["set " + FormatInt(n), "halt"]) == Words([MakeSet(n), MakeHalt()])
  {
    var ls := ["set " + FormatInt(n), "halt"];
    OperandLineAssembles("set", n, "");
    assert "set" + " " + FormatInt(n) + "" == ls[0];
    PlainLineAssembles("halt", "");
    assert "halt" + "" == ls[1];
    assert AssembleLine(ls[0]) == Emit(MakeSet(n)) by {
      assert OperandOpCode("set") == OpSet;
      assert ToInt16(n) == n;
      assert MakeSet(n) == WithOperand(OpSet, n);
    }
    assert ls[..1] == [ls[0]];
    assert [ls[0]][..0] == [];
    assert AssembleLines(ls[..1]) == Words([MakeSet(n)]);
  }

  /** The two instructions of `SetThenHaltAssembles`, loaded at address 0
      of a fresh machine, leave `n` in the accumulator, set the zero flag
      exactly when `n` is zero, and halt on the second step with the
      program counter on the halt instruction. */
  lemma SetThenHaltRuns(n: Int16)
    ensures var s := Initial().(mem := Loaded(Initial().mem, 0, [MakeSet(n), MakeHalt()]));
      var (t, o) := Execution(s, 2);
      o == Halted && t.pc == 1 && t.acc == n % WordModulus &&
      (t.stat == StatZero <==> n == 0) && t.mem == s.mem
  {
    var s := Initial().(mem := Loaded(Initial().mem, 0, [MakeSet(n), MakeHalt()]));
    LoadedAt(Initial().mem, 0, [MakeSet(n), MakeHalt()], 0);
    LoadedAt(Initial().mem, 0, [MakeSet(n), MakeHalt()], 1);
    AccumulatorUpdate(s);
    var u := Transition(s).0;
    assert u.pc == 1;
  }
}
