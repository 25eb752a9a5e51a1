/**
 How a method's registers are named: the receiver and the parameters occupy the top
 registers, wide parameters two of them, and all others are unnamed locals.
 */
module RegisterLayout {
  import opened MachineInts
  import opened JavaBody
  import opened DalvikMachine
  import opened Options

  function Words(params: seq<string>): nat {
    if params == [] then 0 else DescriptorRegisterWidth(params[0]) + Words(params[1..])
  }

  function ReceiverWords(m: Method): nat {
    if m.isStatic then 0 else 1
  }

  /** The declared argument size is the receiver and the parameters, and fits into the frame. */
  predicate WellLaidOut(m: Method) {
    m.ins == ReceiverWords(m) + Words(m.params) <= m.registers
  }

  /** The index of the parameter that occupies the given word, counted from cursor. */
  function ParamAt(params: seq<string>, first: nat, cursor: int, reg: int): Option<nat> {
    if params == [] then None
    else
      var width := DescriptorRegisterWidth(params[0]);
      if reg == cursor || (width == 2 && reg == cursor + 1) then Some(first)
      else ParamAt(params[1..], first + 1, cursor + width, reg)
  }

  /** The name of a register, as an expression. */
  function RegisterExpression(m: Method, reg: int): Expr {
    var paramStart := m.registers - m.ins;
    if reg < paramStart || paramStart < 0 then RawLocal(reg)
    else if !m.isStatic && reg == paramStart then This
    else
      var p := ParamAt(m.params, 0, paramStart + ReceiverWords(m), reg);
      if p.Some? then Param(p.value) else RawLocal(reg)
  }

  /** The declared type of a register, or the empty string. */
  function RegisterDescriptor(m: Method, cls: string, reg: int): string {
    var paramStart := m.registers - m.ins;
    if reg < paramStart || paramStart < 0 then ""
    else if !m.isStatic && reg == paramStart then cls
    else
      var p := ParamAt(m.params, 0, paramStart + ReceiverWords(m), reg);
      if p.Some? && p.value < |m.params| then m.params[p.value] else ""
  }

  /** registerExpression, as the scan over the parameters that it is. */
  method NameRegister(m: Method, reg: int) returns (e: Expr)
    ensures e == RegisterExpression(m, reg)
  {
    var paramStart := m.registers - m.ins;
    if reg < paramStart || paramStart < 0 {
      return RawLocal(reg);
    }
    var cursor := paramStart;
    if !m.isStatic {
      if reg == cursor {
        return This;
      }
      cursor := cursor + 1;
    }
    for i := 0 to |m.params|
      invariant ParamAt(m.params, 0, paramStart + ReceiverWords(m), reg) == ParamAt(m.params[i..], i, cursor, reg)
    {
      if reg == cursor {
        return Param(i);
      }
      var width := DescriptorRegisterWidth(m.params[i]);
      if width == 2 && reg == cursor + 1 {
        return Param(i);
      }
      cursor := cursor + width;
    }
    return RawLocal(reg);
  }

  /** registerDescriptor, which walks the parameters the same way. */
  method DescribeRegister(m: Method, cls: string, reg: int) returns (desc: string)
    ensures desc == RegisterDescriptor(m, cls, reg)
  {
    var paramStart := m.registers - m.ins;
    if reg < paramStart || paramStart < 0 {
      return "";
    }
    var cursor := paramStart;
    if !m.isStatic {
      if reg == cursor {
        return cls;
      }
      cursor := cursor + 1;
    }
    for i := 0 to |m.params|
      invariant ParamAt(m.params, 0, paramStart + ReceiverWords(m), reg) == ParamAt(m.params[i..], i, cursor, reg)
    {
      var width := DescriptorRegisterWidth(m.params[i]);
      if reg == cursor || (width == 2 && reg == cursor + 1) {
        return m.params[i];
      }
      cursor := cursor + width;
    }
    return "";
  }

  // ----- The calling convention -----

  function ValueCells(v: Value): Regs {
    match v
    case VInt(i) => [Int(i)]
    case VLong(l) => [LongLo(l), LongHi]
  }

  function ArgumentCells(args: seq<Value>): Regs {
    if args == [] then [] else ValueCells(args[0]) + ArgumentCells(args[1..])
  }

  function Unset(n: nat): Regs {
    seq(n, _ => Undef)
  }

  /** The registers on entry: locals unset, then the receiver, then the arguments. */
  function Entry(m: Method, call: Call): Regs
    requires WellLaidOut(m)
  {
    Unset(m.registers - m.ins) + (if m.isStatic then [] else [Int(call.self)]) + ArgumentCells(call.args)
  }

  lemma {:induction false} ArgumentCellsLength(call: Call)
    requires Fits(call)
    ensures |ArgumentCells(call.args)| == Words(call.descs)
    decreases |call.args|
  {
    if call.args != [] {
      var tail := Call(call.descs[1..], call.self, call.args[1..]);
      assert forall i :: 0 <= i < |tail.args| ==> tail.args[i] == call.args[i + 1] && tail.descs[i] == call.descs[i + 1];
      ArgumentCellsLength(tail);
    }
  }

  /** Word w of the arguments belongs to the parameter ParamAt finds, and a readable word holds its value. */
  lemma {:induction false} WordBelongsToParam(call: Call, first: nat, cursor: int, w: nat)
    requires Fits(call)
    requires w < |ArgumentCells(call.args)|
    decreases |call.args|
    ensures var p := ParamAt(call.descs, first, cursor, cursor + w);
            && p.Some? && first <= p.value < first + |call.args|
            && (ArgumentCells(call.args)[w].Get().Some? ==> ArgumentCells(call.args)[w].Get() == Some(call.args[p.value - first]))
  {
    var width := DescriptorRegisterWidth(call.descs[0]);
    assert |ValueCells(call.args[0])| == width;
    if w >= width {
      var tail := Call(call.descs[1..], call.self, call.args[1..]);
      assert forall i :: 0 <= i < |tail.args| ==> tail.args[i] == call.args[i + 1] && tail.descs[i] == call.descs[i + 1];
      WordBelongsToParam(tail, first + 1, cursor + width, w - width);
      assert ArgumentCells(call.args)[w] == ArgumentCells(tail.args)[w - width];
    }
  }

  /** A call of m: descriptors, receiver and argument widths agree. */
  predicate CallOf(m: Method, call: Call) {
    WellLaidOut(m) && call.descs == m.params && Fits(call)
  }

  /** On entry, every readable register holds the value of its name, and exactly the locals have no name. */
  lemma EntryNames(m: Method, call: Call, r: nat)
    requires CallOf(m, call)
    requires r < m.registers
    ensures |Entry(m, call)| == m.registers
    ensures Peek(Entry(m, call), r).Some? ==> Peek(Entry(m, call), r).value == Eval(RegisterExpression(m, r), call)
    ensures RegisterExpression(m, r).RawLocal? <==> r < m.registers - m.ins
    ensures Safe(RegisterExpression(m, r), m.params) <==> r >= m.registers - m.ins
  {
    ArgumentCellsLength(call);
    var start := m.registers - m.ins + ReceiverWords(m);
    if r >= start {
      WordBelongsToParam(call, 0, start, r - start);
    }
  }

  /** A named register's declared type is its parameter's; the receiver's is the class. */
  lemma NamesAgree(m: Method, cls: string, reg: nat)
    requires WellLaidOut(m)
    requires reg < m.registers
    ensures var e := RegisterExpression(m, reg);
            && (e.This? ==> RegisterDescriptor(m, cls, reg) == cls)
            && (e.Param? ==> e.index < |m.params| && RegisterDescriptor(m, cls, reg) == m.params[e.index])
            && (e.RawLocal? ==> RegisterDescriptor(m, cls, reg) == "")
  {
    ParamAtBound(m.params, 0, m.registers - m.ins + ReceiverWords(m), reg);
  }

  lemma {:induction false} ParamAtBound(params: seq<string>, first: nat, cursor: int, reg: int)
    ensures var p := ParamAt(params, first, cursor, reg); p.Some? ==> first <= p.value < first + |params|
  {
    if params != [] {
      ParamAtBound(params[1..], first + 1, cursor + DescriptorRegisterWidth(params[0]), reg);
    }
  }
}
