/**
 The Dalvik instructions the body recoverer understands, and a step semantics for them.

 Registers are typed cells, so that reading half a wide pair, an unset register or a
 register of the wrong width is stuck, as the bytecode verifier would have it.
 */
module DalvikMachine {
  import opened MachineInts
  import opened JavaBody
  import opened Options

  datatype UnaryOp = NegInt | NotInt | NegLong | NotLong | IntToLong | LongToInt | IntToByte | IntToChar | IntToShort

  datatype Op =
    | ConstInt(dst: nat, i: i32)
    | ConstWide(dst: nat, l: i64)
    | Move(wide: bool, dst: nat, src: nat)
    | UnaryTo(un: UnaryOp, dst: nat, src: nat)
    | BinaryTo(arith: ArithOp, wide: bool, dst: nat, left: nat, right: nat)
    | BinaryLit(arith: ArithOp, dst: nat, src: nat, i: i32)
    | ReverseSub(dst: nat, src: nat, i: i32)
    | CmpLong(dst: nat, left: nat, right: nat)
    | StaticPut(field: FieldRef, src: nat)
    | InvokeStatic(target: MethodRef, regs: seq<nat>)
    | IfZero(rel: Rel, src: nat, to: int)
    | IfTwo(rel: Rel, left: nat, right: nat, to: int)
    | Goto(to: int)
    | Switch(src: nat, keys: seq<i32>, targets: seq<int>)
    | ReturnReg(src: nat)
    | ReturnVoid
    | ThrowReg(src: nat)
    | Unsupported

  datatype Instr = Instr(offset: int, op: Op)

  datatype Method = Method(
    code: seq<Instr>, registers: nat, ins: nat, isStatic: bool,
    params: seq<string>, ret: string, name: string)
  {
    predicate IsVoid() { ret == "V" }
    predicate IsInit() { name == "<init>" || name == "<clinit>" }
  }

  /** The position of the instruction at an offset. */
  function IndexOf(code: seq<Instr>, offset: int): (r: Option<nat>)
    ensures r.Some? ==> r.value < |code| && code[r.value].offset == offset
    ensures r.None? ==> forall i :: 0 <= i < |code| ==> code[i].offset != offset
  {
    if code == [] then None
    else if code[|code| - 1].offset == offset then Some(|code| - 1)
    else IndexOf(code[..|code| - 1], offset)
  }

  // ----- Registers -----

  datatype Cell = Undef | Int(i: i32) | LongLo(l: i64) | LongHi {
    /** The value a read of this cell yields, if it may be read at all. */
    function Get(): Option<Value> {
      match this
      case Int(i) => Some(VInt(i))
      case LongLo(l) => Some(VLong(l))
      case _ => None
    }
  }

  type Regs = seq<Cell>

  function Peek(regs: Regs, r: nat): Option<Value> {
    if r < |regs| then regs[r].Get() else None
  }

  /** Destroys the other half of the wide pair that r belongs to, if any. */
  function SplitPair(regs: Regs, r: nat): (out: Regs)
    requires r < |regs|
    ensures |out| == |regs|
    ensures forall q :: 0 <= q < |regs| ==> out[q] == regs[q] || out[q] == Undef
  {
    if regs[r].LongHi? && r > 0 then regs[r - 1 := Undef]
    else if regs[r].LongLo? && r + 1 < |regs| then regs[r + 1 := Undef]
    else regs
  }

  /** Writes a value, into one register or a pair; None when the registers do not exist. */
  function Write(regs: Regs, r: nat, v: Value): (out: Option<Regs>)
    ensures out.Some? ==>
              && |out.value| == |regs| && r < |regs|
              && Peek(out.value, r) == Some(v)
              && forall q :: 0 <= q < |regs| && q != r ==>
                   Peek(out.value, q) == Peek(regs, q) || Peek(out.value, q) == None
  {
    if v.VInt? then
      if r < |regs| then Some(SplitPair(regs, r)[r := Int(v.i)]) else None
    else
      if r + 1 < |regs| then
        Some(SplitPair(SplitPair(regs, r), r + 1)[r := LongLo(v.l)][r + 1 := LongHi])
      else None
  }

  // ----- Straight-line instructions -----

  function UnaryResult(un: UnaryOp, v: Value): Option<Value> {
    match un
    case NegInt => if v.VInt? then Some(VInt(Wrap32(0 - v.i))) else None
    case NotInt => if v.VInt? then Some(VInt(Wrap32(-1 - v.i))) else None
    case NegLong => if v.VLong? then Some(VLong(Wrap64(0 - v.l))) else None
    case NotLong => if v.VLong? then Some(VLong(Wrap64(-1 - v.l))) else None
    case IntToLong => if v.VInt? then Some(VLong(v.i)) else None
    case LongToInt => if v.VLong? then Some(VInt(Wrap32(v.l))) else None
    case IntToByte => if v.VInt? then Some(VInt(WrapTo(v.i, 0x100))) else None
    case IntToChar => if v.VInt? then Some(VInt(v.i % 0x1_0000)) else None
    case IntToShort => if v.VInt? then Some(VInt(WrapTo(v.i, 0x1_0000))) else None
  }

  /** The opcode, not the operands, decides the width; a shift distance is always an int. */
  function BinaryResult(arith: ArithOp, wide: bool, l: Value, r: Value): Option<Value> {
    if wide then
      if l.VLong? && (if IsShift(arith) then r.VInt? else r.VLong?) then
        Some(VLong(Arith64(arith, l.l, r.Number())))
      else None
    else if l.VInt? && r.VInt? then Some(VInt(Arith32(arith, l.i, r.i)))
    else None
  }

  /** The arguments passed to a static method: one word or one aligned pair for each parameter, and no word left. */
  function PassArguments(regs: Regs, words: seq<nat>, params: seq<string>): Option<seq<Value>> {
    if params == [] then (if words == [] then Some([]) else None)
    else
      var w := DescriptorRegisterWidth(params[0]);
      if |words| < w || (w == 2 && words[1] != words[0] + 1) then None
      else
        var v := Peek(regs, words[0]);
        var rest := PassArguments(regs, words[w..], params[1..]);
        if v.Some? && rest.Some? && (v.value.VLong? <==> w == 2) then Some([v.value] + rest.value) else None
  }

  /** One straight-line instruction: the registers after it, and its effect. */
  function Execute(op: Op, regs: Regs): Option<(Regs, seq<Event>)> {
    match op
    case ConstInt(dst, i) => Silent(Write(regs, dst, VInt(i)))
    case ConstWide(dst, l) => Silent(Write(regs, dst, VLong(l)))
    case Move(wide, dst, src) =>
      var v := Peek(regs, src);
      if v.Some? && v.value.VLong? == wide then Silent(Write(regs, dst, v.value)) else None
    case UnaryTo(un, dst, src) =>
      var v := Peek(regs, src);
      if v.None? then None else WriteResult(regs, dst, UnaryResult(un, v.value))
    case BinaryTo(arith, wide, dst, left, right) =>
      var l := Peek(regs, left);
      var r := Peek(regs, right);
      if l.None? || r.None? then None else WriteResult(regs, dst, BinaryResult(arith, wide, l.value, r.value))
    case BinaryLit(arith, dst, src, i) =>
      var v := Peek(regs, src);
      if v.None? then None else WriteResult(regs, dst, BinaryResult(arith, false, v.value, VInt(i)))
    case ReverseSub(dst, src, i) =>
      var v := Peek(regs, src);
      if v.None? then None else WriteResult(regs, dst, BinaryResult(Sub, false, VInt(i), v.value))
    case CmpLong(dst, left, right) =>
      var l := Peek(regs, left);
      var r := Peek(regs, right);
      if l.Some? && r.Some? && l.value.VLong? && r.value.VLong? then
        Silent(Write(regs, dst, VInt(Sign(l.value.l, r.value.l))))
      else None
    case StaticPut(field, src) =>
      var v := Peek(regs, src);
      if v.Some? && (v.value.VLong? <==> DescriptorRegisterWidth(field.typ) == 2) then
        Some((regs, [Stored(field, v.value)]))
      else None
    case InvokeStatic(target, words) =>
      var vs := PassArguments(regs, words, target.params);
      if vs.Some? then Some((regs, [Called(target, vs.value)])) else None
    case _ => None
  }

  function Silent(regs: Option<Regs>): Option<(Regs, seq<Event>)> {
    if regs.Some? then Some((regs.value, [])) else None
  }

  function WriteResult(regs: Regs, dst: nat, v: Option<Value>): Option<(Regs, seq<Event>)> {
    if v.Some? then Silent(Write(regs, dst, v.value)) else None
  }

  // ----- Running a method -----

  /** What one instruction does: stop the method, transfer control, or fall through. */
  datatype Action =
    | Crash
    | Halt(end: End)
    | Jump(to: int)
    | Next(regs: Regs, effects: seq<Event>)

  function Act(m: Method, op: Op, regs: Regs): Action {
    match op
    case IfZero(rel, src, to) =>
      var v := Peek(regs, src);
      if v.None? || v.value.VLong? then Crash
      else if Related(rel, v.value.i, 0) then Jump(to)
      else Next(regs, [])
    case IfTwo(rel, left, right, to) =>
      var l := Peek(regs, left);
      var r := Peek(regs, right);
      if l.None? || l.value.VLong? || r.None? || r.value.VLong? then Crash
      else if Related(rel, l.value.i, r.value.i) then Jump(to)
      else Next(regs, [])
    case Goto(to) => Jump(to)
    case Switch(src, keys, targets) =>
      var v := Peek(regs, src);
      if v.None? || v.value.VLong? || |keys| != |targets| then Crash
      else
        var k := CaseIndex(keys, v.value.i);
        if k < |targets| then Jump(targets[k]) else Next(regs, [])
    case ReturnReg(src) =>
      var v := Peek(regs, src);
      if v.None? || m.IsVoid() || (v.value.VLong? != (DescriptorRegisterWidth(m.ret) == 2)) then Crash
      else Halt(Returned(v.value))
    case ReturnVoid => if m.IsVoid() then Halt(ReturnedVoid) else Crash
    case ThrowReg(src) =>
      var v := Peek(regs, src);
      if v.None? || v.value.VLong? then Crash else Halt(Thrown(v.value))
    case _ =>
      var next := Execute(op, regs);
      if next.None? then Crash else Next(next.value.0, next.value.1)
  }

  datatype Run = Stuck | OutOfFuel | Done(outcome: Outcome)

  function Prepend(trace: seq<Event>, run: Run): Run {
    if run.Done? then Done(Outcome(trace + run.outcome.trace, run.outcome.end)) else run
  }

  /** At most fuel instructions of m, starting with the one at position pc. */
  function RunFrom(m: Method, pc: nat, regs: Regs, fuel: nat): Run
    decreases fuel
  {
    if pc >= |m.code| then Stuck
    else if fuel == 0 then OutOfFuel
    else
      match Act(m, m.code[pc].op, regs)
      case Crash => Stuck
      case Halt(end) => Done(Outcome([], end))
      case Jump(to) =>
        var target := IndexOf(m.code, to);
        if target.None? then Stuck else RunFrom(m, target.value, regs, fuel - 1)
      case Next(regs', effects) => Prepend(effects, RunFrom(m, pc + 1, regs', fuel - 1))
  }

  /** A run that ends does not depend on how much fuel was left. */
  lemma {:induction false} MoreFuel(m: Method, pc: nat, regs: Regs, fuel: nat, more: nat)
    requires fuel <= more
    requires !RunFrom(m, pc, regs, fuel).OutOfFuel?
    ensures RunFrom(m, pc, regs, more) == RunFrom(m, pc, regs, fuel)
    decreases fuel
  {
    hide Act;
    if pc < |m.code| {
      match Act(m, m.code[pc].op, regs)
      case Jump(to) =>
        var target := IndexOf(m.code, to);
        if target.Some? { MoreFuel(m, target.value, regs, fuel - 1, more - 1); }
      case Next(regs', _) => MoreFuel(m, pc + 1, regs', fuel - 1, more - 1);
      case _ =>
    }
  }
}
