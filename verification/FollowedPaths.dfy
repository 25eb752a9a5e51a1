/** Symbolic evaluation along a path, piece by piece: straight-line blocks, branches, and blocks that end the method. */
module FollowedPaths {
  import opened MachineInts
  import opened JavaBody
  import opened DalvikMachine
  import opened RegisterLayout
  import opened LinearRecovery
  import opened BodyShapes
  import opened NamedRegisters
  import opened BodiesPreserved
  import opened Options

  lemma SimplePasses(m: Method, op: Op, values: Values, call: Call)
    requires IsSimple(op)
    ensures !IsTerminal(op) && Symbolic(m, op, values).Some? && PassingStep(m, op, values) == Symbolic(m, op, values)
    ensures RunStmts(Symbolic(m, op, values).value.1, call).end.None?
  {
    hide RunStmts;
    RunNothing(call);
    match op
    case StaticPut(field, src) => RunOne(Put(field, ValueOf(m, values, src)), call);
    case InvokeStatic(target, words) => RunOne(CallStatic(target, ArgumentExpressions(m, words, target.params, values)), call);
    case _ =>
  }

  lemma RunNothing(call: Call)
    ensures RunStmts([], call) == Ran([], None)
  {
  }

  /** A path through straight-line code does its statements and goes on behind it, with the values it leaves. */
  lemma {:induction false} FollowedLinear(m: Method, a: nat, b: nat, values: Values, call: Call, fuel: nat)
    requires a <= b <= |m.code| && AllSimple(m, a, b) && fuel >= b - a
    ensures var l := Linear(m, a, b, values);
            var ran := RunStmts(l.block.stmts, call);
            && ran.end.None?
            && Followed(m, a, values, call, fuel) == Prepend(ran.trace, Followed(m, b, l.values, call, fuel - (b - a)))
    decreases b - a
  {
    hide Symbolic, PassingStep, IsSimple, NextPosition, EndOf, RunStmts;
    if a < b {
      var op := m.code[a].op;
      assert IsSimple(op);
      SimplePasses(m, op, values, call);
      var step := Symbolic(m, op, values).value;
      var rest := Linear(m, a + 1, b, step.0);
      FollowedLinear(m, a + 1, b, step.0, call, fuel - 1);
      RunStmtsConcat(step.1, rest.block.stmts, call);
      PrependTwice(RunStmts(step.1, call).trace, RunStmts(rest.block.stmts, call).trace,
                   Followed(m, b, rest.values, call, fuel - (b - a)));
    } else {
      RunNothing(call);
      PrependNothing(Followed(m, a, values, call, fuel));
    }
  }

  /** As FollowedLinear, in front of code whose path ends as some statements do. */
  lemma FollowedBlock(m: Method, a: nat, b: nat, values: Values, call: Call, fuel: nat, rest: Ran)
    requires a <= b <= |m.code| && AllSimple(m, a, b) && fuel >= b - a
    requires AgreesEnd(Followed(m, b, Linear(m, a, b, values).values, call, fuel - (b - a)), rest)
    ensures RunStmts(Linear(m, a, b, values).block.stmts, call).end.None?
    ensures AgreesEnd(Followed(m, a, values, call, fuel), Then(RunStmts(Linear(m, a, b, values).block.stmts, call), rest))
  {
    hide Linear, Followed, RunStmts;
    FollowedLinear(m, a, b, values, call, fuel);
    var ran := RunStmts(Linear(m, a, b, values).block.stmts, call);
    PrependAgrees(ran.trace, Followed(m, b, Linear(m, a, b, values).values, call, fuel - (b - a)), rest);
    assert ran == Ran(ran.trace, None);
  }

  /** A branch is followed to its target exactly when its condition holds. */
  lemma FollowedBranch(m: Method, pc: nat, values: Values, call: Call, fuel: nat)
    requires pc < |m.code| && IsIf(m.code[pc].op) && fuel > 0
    requires IndexOf(m.code, m.code[pc].op.to).Some?
    ensures Followed(m, pc, values, call, fuel)
         == Followed(m, if Holds(ConditionOf(m, m.code[pc].op, values), call) then IndexOf(m.code, m.code[pc].op.to).value else pc + 1,
                     values, call, fuel - 1)
  {
    hide ConditionOf;
  }

  lemma FollowedGoto(m: Method, pc: nat, values: Values, call: Call, fuel: nat)
    requires pc < |m.code| && m.code[pc].op.Goto? && IndexOf(m.code, m.code[pc].op.to).Some? && fuel > 0
    ensures Followed(m, pc, values, call, fuel) == Followed(m, IndexOf(m.code, m.code[pc].op.to).value, values, call, fuel - 1)
  {
  }

  lemma FollowedEnd(m: Method, pc: nat, values: Values, call: Call, fuel: nat)
    requires pc < |m.code| && IsTerminal(m.code[pc].op) && fuel > 0
    ensures Followed(m, pc, values, call, fuel)
         == if Fitting(m, m.code[pc].op) then Done(Outcome([], EndOf(m, m.code[pc].op, values, call))) else Stuck
  {
  }

  /** A block that ends the method ends the path as its printed form does. */
  lemma FollowedEnding(m: Method, a: nat, b: nat, values: Values, call: Call, fuel: nat)
    requires a <= b <= |m.code| && fuel >= b - a
    requires Linear(m, a, b, values).ok && Linear(m, a, b, values).block.ends
    ensures AgreesEnd(Followed(m, a, values, call, fuel), RunStmts(Printed(Linear(m, a, b, values).block, m.IsVoid()), call))
  {
    hide Linear, Followed, RunStmts, TerminalBlock, EndOf;
    LinearLast(m, a, b, values);
    var front := Linear(m, a, b - 1, values);
    var op := m.code[b - 1].op;
    var last := TerminalBlock(m, op, front.values);
    LinearIffSimple(m, a, b - 1, values);
    FollowedEnd(m, b - 1, front.values, call, fuel - (b - 1 - a));
    if Fitting(m, op) {
      var tail := TerminalTail(m, op, front.values);
      TailEnds(m, op, front.values, call);
      FollowedBlock(m, a, b - 1, values, call, fuel, RunStmts(tail, call));
      RunStmtsConcat(front.block.stmts, tail, call);
      FrontHasNoThrow(m, a, b - 1, values);
      PrintedIs(front.block.stmts, m, op, front.values);
    } else {
      FollowedLinear(m, a, b - 1, values, call, fuel);
    }
  }

  /** What a terminal instruction is printed as. */
  function TerminalTail(m: Method, op: Op, values: Values): Stmts
    requires IsTerminal(op) && Fitting(m, op)
  {
    match op
    case ReturnReg(src) => [Return(ValueOf(m, values, src))]
    case ThrowReg(src) => [Throw(ValueOf(m, values, src))]
    case _ => [ReturnNothing]
  }

  lemma TailEnds(m: Method, op: Op, values: Values, call: Call)
    requires IsTerminal(op) && Fitting(m, op)
    ensures RunStmts(TerminalTail(m, op, values), call) == Ran([], Some(EndOf(m, op, values, call)))
  {
    hide RunStmts;
    RunOne(TerminalTail(m, op, values)[0], call);
  }

  lemma PrintedIs(front: Stmts, m: Method, op: Op, values: Values)
    requires IsTerminal(op) && Fitting(m, op)
    requires NoThrow(front)
    ensures var last := TerminalBlock(m, op, values);
            Printed(Block(front + last.stmts, last.expr, true), m.IsVoid()) == front + TerminalTail(m, op, values)
  {
    var last := TerminalBlock(m, op, values);
    assert front + [] == front;
  }

  // ----- No statement of a block throws unless its last instruction does -----

  predicate NoThrow(ss: Stmts) {
    forall k :: 0 <= k < |ss| ==> !ss[k].Throw?
  }

  lemma {:induction false} FrontHasNoThrow(m: Method, a: nat, b: nat, values: Values)
    requires a <= b <= |m.code| && AllSimple(m, a, b)
    ensures NoThrow(Linear(m, a, b, values).block.stmts)
    decreases b - a
  {
    if a < b {
      SymbolicIffSimple(m, m.code[a].op, values);
      FrontHasNoThrow(m, a + 1, b, Symbolic(m, m.code[a].op, values).value.0);
    }
  }

  // ----- Bodies against paths -----

  /** The path of a call through the whole method. */
  function PathOf(m: Method, call: Call): Run {
    Followed(m, 0, map[], call, |m.code|)
  }

  /** A body preserves the method on a call exactly if it ends as the path of that call does, or the bytecode is stuck. */
  lemma PreservesIffPath(m: Method, body: Body, call: Call)
    requires CallOf(m, call)
    ensures Preserves(m, body, call)
       <==> RunFrom(m, 0, Entry(m, call), |m.code|).Stuck? || PathOf(m, call) == Done(RunBody(body, call))
  {
    hide RunFrom, Followed, RunBody, Entry, Named;
    EntryNamed(m, call);
    FollowedIsRun(m, 0, map[], Entry(m, call), call, |m.code|);
  }

  /** What follows a common beginning decides whether two lists end alike. */
  lemma ThenSame(first: Ran, a: Ran, b: Ran)
    requires first.end.None?
    ensures Then(first, a) == Then(first, b) <==> a == b
  {
    if first.trace + a.trace == first.trace + b.trace {
      assert (first.trace + a.trace)[|first.trace|..] == a.trace;
      assert (first.trace + b.trace)[|first.trace|..] == b.trace;
    }
  }
}
