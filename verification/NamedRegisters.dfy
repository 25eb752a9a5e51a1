module NamedRegisters {
  // A stronger invariant than tracking: on the path a call takes, every readable register's expression may be
  // printed. From the start of a method it holds along any path, across branches, switches and loops.

  import opened MachineInts
  import opened JavaBody
  import opened DalvikMachine
  import opened RegisterLayout
  import opened LinearRecovery
  import opened BodyShapes
  import opened Options

  /** Every readable register has an expression without unnamed registers, which evaluates to what it holds. */
  ghost predicate Named(m: Method, values: Values, regs: Regs, call: Call) {
    Tracks(m, values, regs, call) && Printable(m, values, regs, call)
  }

  ghost predicate Printable(m: Method, values: Values, regs: Regs, call: Call) {
    forall r: nat | Peek(regs, r).Some? :: Safe(ValueOf(m, values, r), call.descs)
  }

  lemma EntryNamed(m: Method, call: Call)
    requires CallOf(m, call)
    ensures Named(m, map[], Entry(m, call), call)
  {
    EntryTracked(m, call);
    ArgumentCellsLength(call);
    forall r: nat | Peek(Entry(m, call), r).Some? ensures Safe(ValueOf(m, map[], r), call.descs) {
      EntryNames(m, call, r);
      assert r >= m.registers - m.ins;
    }
  }

  lemma PrintableWrite(m: Method, values: Values, regs: Regs, call: Call, dst: nat, v: Value, c: Carried)
    requires Printable(m, values, regs, call)
    requires Write(regs, dst, v).Some? && Safe(c.e, call.descs)
    ensures Printable(m, values[dst := c], Write(regs, dst, v).value, call)
  {
    var regs' := Write(regs, dst, v).value;
    forall r: nat | Peek(regs', r).Some? ensures Safe(ValueOf(m, values[dst := c], r), call.descs) {
      if r != dst {
        assert ValueOf(m, values[dst := c], r) == ValueOf(m, values, r);
        assert Peek(regs', r) == Peek(regs, r);
      }
    }
  }

  lemma {:induction false} ArgumentsPrintable(m: Method, values: Values, regs: Regs, call: Call, words: seq<nat>, params: seq<string>)
    requires Printable(m, values, regs, call)
    requires PassArguments(regs, words, params).Some?
    ensures forall i :: 0 <= i < |ArgumentWalk(m, words, params, values)| ==> Safe(ArgumentWalk(m, words, params, values)[i], call.descs)
    decreases |params|
  {
    if params != [] {
      var w := DescriptorRegisterWidth(params[0]);
      assert Peek(regs, words[0]).Some?;
      ArgumentsPrintable(m, values, regs, call, words[w..], params[1..]);
    }
  }

  /** An instruction that runs reads only what may be printed. */
  lemma ComputePrintable(m: Method, op: Op, values: Values, regs: Regs, call: Call)
    requires Printable(m, values, regs, call)
    requires !op.StaticPut? && !op.InvokeStatic?
    requires Symbolic(m, op, values).Some? && Execute(op, regs).Some?
    ensures Printable(m, Symbolic(m, op, values).value.0, Execute(op, regs).value.0, call)
    ensures Symbolic(m, op, values).value.1 == []
  {
    hide BinaryResult, UnaryResult, Write, Printable;
    hide ValueOf;
    match op
    case ConstInt(dst, i) => PrintableWrite(m, values, regs, call, dst, VInt(i), Carried(IntLit(i), ""));
    case ConstWide(dst, l) => PrintableWrite(m, values, regs, call, dst, VLong(l), Carried(LongLit(l), ""));
    case Move(_, dst, src) =>
      ReadPrintable(m, values, regs, call, src);
      PrintableWrite(m, values, regs, call, dst, Peek(regs, src).value, CarriedBy(m, values, src));
    case UnaryTo(un, dst, src) =>
      ReadPrintable(m, values, regs, call, src);
      PrintableWrite(m, values, regs, call, dst, UnaryResult(un, Peek(regs, src).value).value,
                     Carried(Unary(JavaUnary(un), ValueOf(m, values, src)), ""));
    case BinaryTo(arith, wide, dst, left, right) =>
      ReadPrintable(m, values, regs, call, left);
      ReadPrintable(m, values, regs, call, right);
      PrintableWrite(m, values, regs, call, dst, BinaryResult(arith, wide, Peek(regs, left).value, Peek(regs, right).value).value,
                     Carried(Binary(arith, ValueOf(m, values, left), ValueOf(m, values, right)), if wide then "J" else "I"));
    case BinaryLit(arith, dst, src, i) =>
      ReadPrintable(m, values, regs, call, src);
      PrintableWrite(m, values, regs, call, dst, BinaryResult(arith, false, Peek(regs, src).value, VInt(i)).value,
                     Carried(Binary(arith, ValueOf(m, values, src), IntLit(i)), "I"));
    case ReverseSub(dst, src, i) =>
      ReadPrintable(m, values, regs, call, src);
      PrintableWrite(m, values, regs, call, dst, BinaryResult(Sub, false, VInt(i), Peek(regs, src).value).value,
                     Carried(Binary(Sub, IntLit(i), ValueOf(m, values, src)), "I"));
    case CmpLong(dst, left, right) =>
      ReadPrintable(m, values, regs, call, left);
      ReadPrintable(m, values, regs, call, right);
      PrintableWrite(m, values, regs, call, dst, VInt(Sign(Peek(regs, left).value.l, Peek(regs, right).value.l)),
                     Carried(LongCompare(ValueOf(m, values, left), ValueOf(m, values, right)), "I"));
  }

  lemma ReadPrintable(m: Method, values: Values, regs: Regs, call: Call, r: nat)
    requires Printable(m, values, regs, call) && Peek(regs, r).Some?
    ensures Safe(ValueOf(m, values, r), call.descs)
    ensures CarriedBy(m, values, r).e == ValueOf(m, values, r)
  {
  }

  /** The invariant for one instruction; what the instruction prints is printable because it ran. */
  lemma StepNamed(m: Method, op: Op, values: Values, regs: Regs, call: Call)
    requires Named(m, values, regs, call)
    requires Symbolic(m, op, values).Some? && Execute(op, regs).Some?
    ensures Named(m, Symbolic(m, op, values).value.0, Execute(op, regs).value.0, call)
    ensures SafeStmts(Symbolic(m, op, values).value.1, call.descs)
    ensures RunStmts(Symbolic(m, op, values).value.1, call) == Ran(Execute(op, regs).value.1, None)
  {
    hide Tracks, Printable, RunStmts;
    match op {
      case StaticPut(field, src) => ReadPrintable(m, values, regs, call, src);
      case InvokeStatic(target, words) =>
        if target.params == [] {
          assert ArgumentExpressions(m, words, target.params, values) == [];
        } else {
          ArgumentsPrintable(m, values, regs, call, words, target.params);
        }
      case _ => ComputePrintable(m, op, values, regs, call);
    }
    StepTracks(m, op, values, regs, call);
  }

  lemma {:induction false} LinearNamed(m: Method, a: nat, b: nat, values: Values, regs: Regs, call: Call)
    requires a <= b <= |m.code| && AllSimple(m, a, b)
    requires Named(m, values, regs, call) && ExecuteAll(m, a, b, regs).Some?
    ensures Named(m, Linear(m, a, b, values).values, ExecuteAll(m, a, b, regs).value.0, call)
    ensures SafeStmts(Linear(m, a, b, values).block.stmts, call.descs)
    decreases b - a
  {
    hide Named, Symbolic, Execute, IsSimple;
    if a < b {
      var op := m.code[a].op;
      assert IsSimple(op);
      NotTerminal(op);
      SymbolicIffSimple(m, op, values);
      var step := Symbolic(m, op, values).value;
      StepNamed(m, op, values, regs, call);
      LinearNamed(m, a + 1, b, step.0, Execute(op, regs).value.0, call);
      SafeStmtsConcat(step.1, Linear(m, a + 1, b, step.0).block.stmts, call.descs);
    }
  }

  lemma NotTerminal(op: Op)
    requires IsSimple(op)
    ensures !IsTerminal(op)
  {
  }

  /** A static call passes the values of the expressions it is printed with. */
  lemma CallNamed(m: Method, op: Op, values: Values, regs: Regs, call: Call)
    requires Named(m, values, regs, call) && op.InvokeStatic? && Execute(op, regs).Some?
    ensures Execute(op, regs).value.0 == regs
    ensures RunStmts(PassingStep(m, op, values).value.1, call) == Ran(Execute(op, regs).value.1, None)
  {
    hide Tracks, Printable, RunStmts;
    var args := ArgumentExpressions(m, op.regs, op.target.params, values);
    RunOne(CallStatic(op.target, args), call);
    if op.target.params == [] {
      assert args == [];
    } else {
      ArgumentsPrintable(m, values, regs, call, op.regs, op.target.params);
      ArgumentsTracked(m, values, regs, call, op.regs, op.target.params);
    }
  }

  // ----- Following a call -----

  /** An instruction that control passes, also where the recoverer would refuse it for the name of the method it calls. */
  function PassingStep(m: Method, op: Op, values: Values): Option<(Values, Stmts)> {
    match op
    case InvokeStatic(target, words) =>
      Some((values, [CallStatic(target, ArgumentExpressions(m, words, target.params, values))]))
    case _ => Symbolic(m, op, values)
  }

  /** How a terminal instruction ends the method. */
  function EndOf(m: Method, op: Op, values: Values, call: Call): End
    requires IsTerminal(op)
  {
    match op
    case ReturnReg(src) => Returned(Eval(ValueOf(m, values, src), call))
    case ThrowReg(src) => Thrown(Eval(ValueOf(m, values, src), call))
    case _ => ReturnedVoid
  }

  /** A return fits the method's return type. */
  predicate Fitting(m: Method, op: Op) {
    (op.ReturnReg? ==> !m.IsVoid()) && (op.ReturnVoid? ==> m.IsVoid())
  }

  /** Where a branch, goto or switch leads on this call, judged by the stored expressions. */
  function NextPosition(m: Method, pc: nat, values: Values, call: Call): Option<nat>
    requires pc < |m.code|
  {
    var op := m.code[pc].op;
    if IsIf(op) then if Holds(ConditionOf(m, op, values), call) then IndexOf(m.code, op.to) else Some(pc + 1)
    else
      match op
      case Goto(to) => IndexOf(m.code, to)
      case Switch(src, keys, targets) =>
        var k := CaseIndex(keys, Eval(ValueOf(m, values, src), call).Number());
        if k < |targets| then IndexOf(m.code, targets[k]) else Some(pc + 1)
      case _ => None
  }

  /**
   Symbolic evaluation along the path a call takes: the statements of the code that is passed are run, branches
   follow the stored expressions. At most fuel instructions are followed.
   */
  function Followed(m: Method, pc: nat, values: Values, call: Call, fuel: nat): Run
    decreases fuel
  {
    if pc >= |m.code| then Stuck
    else if fuel == 0 then OutOfFuel
    else
      var op := m.code[pc].op;
      var step := PassingStep(m, op, values);
      if step.Some? then
        Prepend(RunStmts(step.value.1, call).trace, Followed(m, pc + 1, step.value.0, call, fuel - 1))
      else if IsTerminal(op) then if Fitting(m, op) then Done(Outcome([], EndOf(m, op, values, call))) else Stuck
      else
        var next := NextPosition(m, pc, values, call);
        if next.None? then Stuck else Followed(m, next.value, values, call, fuel - 1)
  }

  lemma PassingRuns(m: Method, op: Op, values: Values, regs: Regs, call: Call)
    requires Named(m, values, regs, call) && PassingStep(m, op, values).Some?
    ensures !IsTerminal(op)
    ensures Act(m, op, regs) == if Execute(op, regs).None? then Crash else Next(Execute(op, regs).value.0, Execute(op, regs).value.1)
    ensures Execute(op, regs).Some? ==>
              var step := PassingStep(m, op, values).value;
              var next := Execute(op, regs).value;
              RunStmts(step.1, call) == Ran(next.1, None) && Named(m, step.0, next.0, call)
  {
    hide Execute, RunStmts, Named;
    if Execute(op, regs).Some? {
      if op.InvokeStatic? { CallNamed(m, op, values, regs, call); } else { StepNamed(m, op, values, regs, call); }
    }
  }

  /** A branch, goto or switch, or the end of the method, is followed as the machine executes it. */
  lemma ControlFollowed(m: Method, pc: nat, values: Values, regs: Regs, call: Call)
    requires pc < |m.code| && Named(m, values, regs, call) && PassingStep(m, m.code[pc].op, values).None?
    ensures var op := m.code[pc].op;
            match Act(m, op, regs)
            case Crash => true
            case Halt(end) => IsTerminal(op) && Fitting(m, op) && end == EndOf(m, op, values, call)
            case Jump(to) => !IsTerminal(op) && NextPosition(m, pc, values, call) == IndexOf(m.code, to)
            case Next(regs', effects) =>
              !IsTerminal(op) && regs' == regs && effects == [] && NextPosition(m, pc, values, call) == Some(pc + 1)
  {
    hide Named, Safe;
    var op := m.code[pc].op;
    match op
    case IfZero(_, src, _) =>
      NamedRead(m, values, regs, call, src);
      assert Eval(IntLit(0), call) == VInt(0);
    case IfTwo(_, left, right, _) =>
      NamedRead(m, values, regs, call, left);
      NamedRead(m, values, regs, call, right);
    case Switch(src, _, _) => NamedRead(m, values, regs, call, src);
    case ReturnReg(src) => NamedRead(m, values, regs, call, src);
    case ThrowReg(src) => NamedRead(m, values, regs, call, src);
    case _ =>
  }

  lemma NamedRead(m: Method, values: Values, regs: Regs, call: Call, r: nat)
    requires Named(m, values, regs, call)
    ensures Peek(regs, r).Some? ==>
              Safe(ValueOf(m, values, r), call.descs) && Eval(ValueOf(m, values, r), call) == Peek(regs, r).value
  {
  }

  /** Symbolic evaluation along the path of a call ends exactly as the bytecode does, unless that is stuck. */
  lemma {:induction false} FollowedIsRun(m: Method, pc: nat, values: Values, regs: Regs, call: Call, fuel: nat)
    requires Named(m, values, regs, call)
    ensures RunFrom(m, pc, regs, fuel).Stuck? || RunFrom(m, pc, regs, fuel) == Followed(m, pc, values, call, fuel)
    decreases fuel
  {
    hide Act, Execute, Named, PassingStep, RunStmts, NextPosition, EndOf, Fitting;
    if pc < |m.code| && fuel > 0 {
      var op := m.code[pc].op;
      var step := PassingStep(m, op, values);
      if step.Some? {
        PassingRuns(m, op, values, regs, call);
        if Execute(op, regs).Some? {
          FollowedIsRun(m, pc + 1, step.value.0, Execute(op, regs).value.0, call, fuel - 1);
        }
      } else {
        ControlFollowed(m, pc, values, regs, call);
        PrependNothing(RunFrom(m, pc + 1, regs, fuel - 1));
        var next := NextPosition(m, pc, values, call);
        if !IsTerminal(op) && next.Some? { FollowedIsRun(m, next.value, values, regs, call, fuel - 1); }
      }
    }
  }
}
