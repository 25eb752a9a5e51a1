/**
 Two assignments of one register that meet: the code behind the join is evaluated once,
 with the register carrying a conditional expression.
 */
module ConditionalAssignments {
  import opened MachineInts
  import opened JavaBody
  import opened DalvikMachine
  import opened RegisterLayout
  import opened LinearRecovery
  import opened BodyShapes
  import opened BodiesPreserved
  import opened Options

  /** Evaluation never forgets a register. */
  lemma {:induction false} KeysGrow(m: Method, a: nat, b: nat, values: Values)
    requires a <= b <= |m.code|
    ensures values.Keys <= Linear(m, a, b, values).values.Keys
    decreases b - a
  {
    if a < b && !IsTerminal(m.code[a].op) && Symbolic(m, m.code[a].op, values).Some? {
      KeysGrow(m, a + 1, b, Symbolic(m, m.code[a].op, values).value.0);
    }
  }

  /** After an arm, keeping what the other registers carried before the branch tracks the machine's registers. */
  lemma SingleTracks(m: Method, a: nat, b: nat, before: Values, regs: Regs, call: Call, reg: nat, arm: Carried)
    requires a <= b <= |m.code|
    requires SingleAssignment(m, a, b, before) == Some((reg, arm))
    requires Tracks(m, Linear(m, a, b, before).values, regs, call)
    ensures Tracks(m, before[reg := arm], regs, call)
  {
    hide Linear;
    var after := Linear(m, a, b, before).values;
    KeysGrow(m, a, b, before);
    forall r: nat | Peek(regs, r).Some? && Safe(ValueOf(m, before[reg := arm], r), call.descs)
      ensures Eval(ValueOf(m, before[reg := arm], r), call) == Peek(regs, r).value
    {
      assert ValueOf(m, before[reg := arm], r) == ValueOf(m, after, r);
    }
  }

  /** Storing the conditional expression in place of the arm that was taken tracks the machine's registers. */
  lemma TernaryTracks(m: Method, before: Values, regs: Regs, call: Call, c: Cond, reg: nat, arm: Carried, joined: Carried)
    requires Fits(call)
    requires Tracks(m, before[reg := arm], regs, call)
    requires joined.e.Ternary? && joined.e.c == c
    requires SafeCond(c, call.descs) ==> arm.e == (if Holds(c, call) then joined.e.t else joined.e.f)
    ensures Tracks(m, before[reg := joined], regs, call)
  {
    forall r: nat | Peek(regs, r).Some? && Safe(ValueOf(m, before[reg := joined], r), call.descs)
      ensures Eval(ValueOf(m, before[reg := joined], r), call) == Peek(regs, r).value
    {
      if r == reg {
        TernaryPicks(c, joined.e.t, joined.e.f, call);
        assert ValueOf(m, before[reg := arm], r) == arm.e;
      } else {
        assert ValueOf(m, before[reg := joined], r) == ValueOf(m, before[reg := arm], r);
      }
    }
  }

  /** An arm has no effects: the machine reaches the join with nothing done, or is stuck. */
  lemma ArmReachesJoin(m: Method, a: nat, b: nat, join: nat, values: Values, regs: Regs, call: Call, fuel: nat)
    requires a <= b <= |m.code| && Leads(m, b, join) && fuel >= b - a + Hop(b, join)
    requires Tracks(m, values, regs, call)
    requires SingleAssignment(m, a, b, values).Some?
    ensures match ExecuteAll(m, a, b, regs)
            case None => RunFrom(m, a, regs, fuel).Stuck?
            case Some(done) =>
              && Tracks(m, Linear(m, a, b, values).values, done.0, call)
              && RunFrom(m, a, regs, fuel) == RunFrom(m, join, done.0, fuel - (b - a) - Hop(b, join))
  {
    hide Tracks, RunFrom, Linear, ExecuteAll, SingleAssignment;
    LinearIffSimple(m, a, b, values);
    LinearRuns(m, a, b, regs, fuel);
    if ExecuteAll(m, a, b, regs).Some? {
      var done := ExecuteAll(m, a, b, regs).value;
      LinearTracks(m, a, b, values, regs, call);
      assert done.1 == [];
      PrependNothing(RunFrom(m, b, done.0, fuel - (b - a)));
      LeadsRuns(m, b, join, done.0, fuel - (b - a));
    }
  }

  /** The tail behind a join, printed at the end of the body. */
  lemma TailAgrees(m: Method, join: nat, values: Values, regs: Regs, call: Call, fuel: nat)
    requires join <= |m.code| && fuel >= |m.code| - join
    requires Tracks(m, values, regs, call)
    requires Linear(m, join, |m.code|, values).ok && Linear(m, join, |m.code|, values).block.ends
    requires SafeStmts(Closed(Linear(m, join, |m.code|, values).block, m.IsVoid()), call.descs)
    ensures Agrees(RunFrom(m, join, regs, fuel), RunStmts(Closed(Linear(m, join, |m.code|, values).block, m.IsVoid()), call))
  {
    hide Tracks, RunFrom, Linear, RunStmts;
    var block := Linear(m, join, |m.code|, values).block;
    ReturnsByRegister(m, join, |m.code|, values);
    assert block.stmts + [] == block.stmts;
    EndingBlockAgrees(m, join, |m.code|, values, regs, call, fuel,
                      if block.expr.Some? && !m.IsVoid() then [Return(block.expr.value)] else []);
  }

  /** From the start of either arm, the bytecode does what the tail printed behind the join does. */
  lemma ArmAgrees(
    m: Method, a: nat, b: nat, join: nat, before: Values, regs: Regs, call: Call, fuel: nat,
    c: Cond, reg: nat, arm: Carried, joined: Carried)
    requires a <= b <= |m.code| && Leads(m, b, join) && Fits(call)
    requires fuel >= b - a + Hop(b, join) + |m.code| - join
    requires Tracks(m, before, regs, call)
    requires SingleAssignment(m, a, b, before) == Some((reg, arm))
    requires joined.e.Ternary? && joined.e.c == c
    requires SafeCond(c, call.descs) ==> arm.e == (if Holds(c, call) then joined.e.t else joined.e.f)
    requires var tail := Linear(m, join, |m.code|, before[reg := joined]);
             tail.ok && tail.block.ends && SafeStmts(Closed(tail.block, m.IsVoid()), call.descs)
    ensures Agrees(RunFrom(m, a, regs, fuel),
                   RunStmts(Closed(Linear(m, join, |m.code|, before[reg := joined]).block, m.IsVoid()), call))
  {
    hide Tracks, RunFrom, Linear, ExecuteAll, RunStmts, SingleAssignment;
    ArmReachesJoin(m, a, b, join, before, regs, call, fuel);
    if ExecuteAll(m, a, b, regs).Some? {
      var regs' := ExecuteAll(m, a, b, regs).value.0;
      SingleTracks(m, a, b, before, regs', call, reg, arm);
      TernaryTracks(m, before, regs', call, c, reg, arm, joined);
      TailAgrees(m, join, before[reg := joined], regs', call, fuel - (b - a) - Hop(b, join));
    }
  }

  lemma ConditionalAssignmentPreserves(m: Method, i: nat, call: Call)
    requires CallOf(m, call)
    requires ConditionalAssignmentAt(m, i).Some? && SafeBody(ConditionalAssignmentAt(m, i).value, call.descs)
    ensures Preserves(m, ConditionalAssignmentAt(m, i).value, call)
  {
    hide Tracks, RunFrom, Linear, ExecuteAll, RunStmts, ConditionOf, SingleAssignment;
    var t := TargetOf(m, i);
    var j := ForwardGoto(m, i + 1, t, Some(m.code[i].op.to));
    var join := IndexOf(m.code, m.code[j].op.to).value;
    var prefix := Linear(m, 0, i, map[]);
    var fall := SingleAssignment(m, i + 1, j, prefix.values).value;
    var target := SingleAssignment(m, t, join, prefix.values).value;
    var c := ConditionOf(m, m.code[i].op, prefix.values);
    var joined := Joined(c, target.1, fall.1);
    var stmts := Closed(Linear(m, join, |m.code|, prefix.values[fall.0 := joined]).block, m.IsVoid());
    SafeStmtsConcat(prefix.block.stmts, stmts, call.descs);
    RunStmtsConcat(prefix.block.stmts, stmts, call);
    EntryTracked(m, call);
    BlockThen(m, 0, i, map[], Entry(m, call), call, |m.code|, RunStmts(stmts, call));
    if ExecuteAll(m, 0, i, Entry(m, call)).Some? {
      var regs := ExecuteAll(m, 0, i, Entry(m, call)).value.0;
      var fuel: nat := |m.code| - i - 1;
      BranchFollowsCondition(m, i, prefix.values, regs, call, fuel + 1);
      if SafeCond(c, call.descs) ==> Holds(c, call) {
        ArmAgrees(m, t, join, join, prefix.values, regs, call, fuel, c, target.0, target.1, joined);
      }
      if SafeCond(c, call.descs) ==> !Holds(c, call) {
        ArmAgrees(m, i + 1, j, join, prefix.values, regs, call, fuel, c, fall.0, fall.1, joined);
      }
    }
  }
}
