/** A nest of branches read past code that assigns again, and a guard that returns a register as it was at the start. */
module UnfaithfulChoices {
  import opened MachineInts
  import opened JavaBody
  import opened DalvikMachine
  import opened RegisterLayout
  import opened LinearRecovery
  import opened BodyShapes
  import opened BodiesPreserved
  import opened Liveness
  import opened TerminalSlices
  import opened GuardedReturns
  import opened NestedChoices
  import opened UnfaithfulBodies
  import opened Options

  /** A call with two int arguments. */
  function TwoInts(p: i32, q: i32): Call {
    Call(["I", "I"], 0, [VInt(p), VInt(q)])
  }

  lemma TwoWords()
    ensures Words(["I", "I"]) == 2
  {
    assert ["I", "I"][1..] == ["I"] && ["I"][1..] == [];
    assert Words(["I"]) == 1;
  }

  lemma TwoCells(p: i32, q: i32)
    ensures ArgumentCells([VInt(p), VInt(q)]) == [Int(p), Int(q)]
  {
    assert [VInt(p), VInt(q)][1..] == [VInt(q)] && [VInt(q)][1..] == [];
    assert ArgumentCells([VInt(q)]) == [Int(q)];
  }

  /** A branch that is not taken, or one that is. */
  lemma Falls(m: Method, pc: nat, regs: Regs, fuel: nat)
    requires pc < |m.code| && fuel > 0 && Act(m, m.code[pc].op, regs) == Next(regs, [])
    ensures RunFrom(m, pc, regs, fuel) == RunFrom(m, pc + 1, regs, fuel - 1)
  {
    Silently(m, pc, regs, regs, fuel);
  }

  lemma Jumps(m: Method, pc: nat, regs: Regs, to: nat, fuel: nat)
    requires pc < |m.code| && to < |m.code| && fuel > 0 && Tiled(m.code)
    requires Act(m, m.code[pc].op, regs) == Jump(m.code[to].offset)
    ensures RunFrom(m, pc, regs, fuel) == RunFrom(m, to, regs, fuel - 1)
  {
    hide Act;
    OffsetNamesPosition(m.code, to);
  }

  lemma Halts(m: Method, pc: nat, regs: Regs, end: End, fuel: nat)
    requires pc < |m.code| && fuel > 0 && Act(m, m.code[pc].op, regs) == Halt(end)
    ensures RunFrom(m, pc, regs, fuel) == Done(Outcome([], end))
  {
    hide Act;
  }

  // ----- A guard's default is evaluated too early -----

  /** v1 := v1 + 1, where v1 is the first parameter, and two guards that return v1. */
  function GuardMethod(): Method {
    Method([
      Instr(0, BinaryLit(Add, 1, 1, 1)),
      Instr(2, IfZero(Eq, 2, 7)),
      Instr(4, IfZero(Eq, 1, 7)),
      Instr(6, ReturnReg(2)),
      Instr(7, ReturnReg(1))], 3, 2, true, ["I", "I"], "I", "m")
  }

  const NEXT := Binary(Add, Param(0), IntLit(1))

  /** The guards return the parameter, not the register. */
  const GUARD_BODY := [
    ReturnIf(Cond(Eq, Param(1), IntLit(0)), Some(Param(0))),
    ReturnIf(Cond(Eq, NEXT, IntLit(0)), Some(Param(0))),
    Return(Param(1))]

  lemma GuardParams()
    ensures var m := GuardMethod();
            && WellLaidOut(m) && Tiled(m.code) && !m.IsVoid() && !m.IsInit() && |m.code| == 5
            && RegisterExpression(m, 1) == Param(0) && RegisterExpression(m, 2) == Param(1)
  {
    TwoWords();
    assert ["I", "I"][1..] == ["I"];
  }

  lemma GuardLinear()
    ensures var m := GuardMethod();
            var next: Values := map[1 := Carried(NEXT, "I")];
            && Linear(m, 0, 1, map[]) == Evaluated(next, Block([], None, false), true)
            && Linear(m, 2, 2, next) == Evaluated(next, Block([], None, false), true)
            && Linear(m, 3, 4, next) == Evaluated(next, Block([], Some(Param(1)), true), true)
            && Linear(m, 4, 5, next) == Evaluated(next, Block([], Some(NEXT), true), true)
            && Linear(m, 4, 5, map[]) == Evaluated(map[], Block([], Some(Param(0)), true), true)
  {
    hide RegisterExpression;
    GuardParams();
    var m := GuardMethod();
    var next: Values := map[1 := Carried(NEXT, "I")];
    assert Linear(m, 1, 1, next) == Evaluated(next, Block([], None, false), true);
  }

  lemma GuardMethodLines()
    ensures var m := GuardMethod();
            BuildGuards(m, 0, 4, map[], Some(Param(0))) == GuardLines(GUARD_BODY, 2, false)
  {
    hide Linear, RegisterExpression;
    GuardParams();
    GuardLinear();
    var m := GuardMethod();
    var next: Values := map[1 := Carried(NEXT, "I")];
    assert NextIfTo(m, 0, 4, 7) == 1 && NextIfTo(m, 2, 4, 7) == 2 && NextIfTo(m, 3, 4, 7) == 4;
    var last := [Return(Param(1))];
    assert BuildGuards(m, 3, 4, next, Some(Param(0))) == GuardLines(last, 0, true) by {
      assert [] + last == last;
    }
    var second := [ReturnIf(Cond(Eq, NEXT, IntLit(0)), Some(Param(0)))] + last;
    assert BuildGuards(m, 2, 4, next, Some(Param(0))) == GuardLines(second, 1, false) by {
      assert [] + second == second;
    }
    assert [] + ([ReturnIf(Cond(Eq, Param(1), IntLit(0)), Some(Param(0)))] + second) == GUARD_BODY;
  }

  lemma GuardRecovered()
    ensures GuardedReturnAt(GuardMethod(), 1) == Some(Straight(GUARD_BODY))
    ensures !DefaultKept(GuardMethod(), 0, 4, map[])
  {
    hide Linear, BuildGuards, RegisterExpression, DefaultKept;
    GuardParams();
    GuardLinear();
    GuardMethodLines();
    OffsetNamesPosition(GuardMethod().code, 4);
    FaithfulGuards(GuardMethod(), 0, 4, map[], Some(Param(0)));
  }

  lemma GuardTiled()
    ensures Tiled(GuardMethod().code) && |GuardMethod().code| == 5 && GuardMethod().code[4].offset == 7
  {
  }

  lemma GuardActions(p: i32)
    ensures var m := GuardMethod();
            var start, after := [Undef, Int(p), Int(0)], [Undef, Int(Wrap32(p + 1)), Int(0)];
            && Act(m, m.code[0].op, start) == Next(after, []) && Act(m, m.code[1].op, after) == Jump(7)
            && Act(m, m.code[4].op, after) == Halt(Returned(VInt(Wrap32(p + 1))))
  {
    assert Arith32(Add, p, 1) == Wrap32(p + 1);
    assert [Undef, Int(p), Int(0)][1 := Int(Wrap32(p + 1))] == [Undef, Int(Wrap32(p + 1)), Int(0)];
  }

  lemma GuardRuns(p: i32)
    ensures var m := GuardMethod();
            RunFrom(m, 0, [Undef, Int(p), Int(0)], 5) == Done(Outcome([], Returned(VInt(Wrap32(p + 1)))))
  {
    hide RunFrom, Act;
    GuardTiled();
    GuardActions(p);
    var m := GuardMethod();
    var after := [Undef, Int(Wrap32(p + 1)), Int(0)];
    Silently(m, 0, [Undef, Int(p), Int(0)], after, 5);
    Jumps(m, 1, after, 4, 4);
    Halts(m, 4, after, Returned(VInt(Wrap32(p + 1))), 3);
  }

  /**
   The value a guard returns is read from the registers as they are at the start of the method: here the
   bytecode returns one more than the body.
   */
  lemma GuardReturnsStaleValue(p: i32)
    ensures var m := GuardMethod();
            var call := TwoInts(p, 0);
            && CallOf(m, call) && Tiled(m.code)
            && GuardedReturnAt(m, 1).Some? && SafeBody(GuardedReturnAt(m, 1).value, m.params)
            && RunFrom(m, 0, Entry(m, call), |m.code|) == Done(Outcome([], Returned(VInt(Wrap32(p + 1)))))
            && RunBody(GuardedReturnAt(m, 1).value, call) == Outcome([], Returned(VInt(p)))
            && Wrap32(p + 1) != p
            && !DefaultKept(m, 0, 4, map[])
  {
    hide RunFrom, BuildGuards, Linear, GuardedReturnAt, GuardedReturnLines, DefaultKept;
    TwoWords();
    TwoCells(p, 0);
    GuardParams();
    GuardRecovered();
    GuardRuns(p);
    var m := GuardMethod();
    assert Entry(m, TwoInts(p, 0)) == [Undef, Int(p), Int(0)];
    GuardBodyRuns(p);
  }

  lemma GuardBodyRuns(p: i32)
    ensures SafeBody(Straight(GUARD_BODY), ["I", "I"])
    ensures RunBody(Straight(GUARD_BODY), TwoInts(p, 0)) == Outcome([], Returned(VInt(p)))
  {
    var call := TwoInts(p, 0);
    assert Eval(Param(0), call) == VInt(p) && Eval(Param(1), call) == VInt(0) && Eval(IntLit(0), call) == VInt(0);
    assert Holds(Cond(Eq, Param(1), IntLit(0)), call);
    assert RunStmt(GUARD_BODY[0], call) == Ran([], Some(Returned(VInt(p))));
  }

  // ----- Code between two branches is passed over -----

  /** v0 is 1 if p0 is not 0, and then in any case 2 or 3. */
  function ChoiceMethod(): Method {
    Method([
      Instr(0, IfZero(Eq, 1, 3)),
      Instr(2, ConstInt(0, 1)),
      Instr(3, IfZero(Eq, 2, 7)),
      Instr(5, ConstInt(0, 2)),
      Instr(6, Goto(8)),
      Instr(7, ConstInt(0, 3)),
      Instr(8, ReturnReg(0))], 3, 2, true, ["I", "I"], "I", "m")
  }

  const CHOICE := Ternary(
    Cond(Eq, Param(0), IntLit(0)), Ternary(Cond(Eq, Param(1), IntLit(0)), IntLit(3), IntLit(2)), IntLit(1))

  lemma ChoiceParams()
    ensures var m := ChoiceMethod();
            && WellLaidOut(m) && Tiled(m.code) && !m.IsVoid() && !m.IsInit() && |m.code| == 7
            && RegisterExpression(m, 1) == Param(0) && RegisterExpression(m, 2) == Param(1)
  {
    TwoWords();
    assert ["I", "I"][1..] == ["I"];
  }

  /** A single constant is a single assignment to v0. */
  lemma ChoiceConstant(a: nat, i: i32)
    requires a < 6 && ChoiceMethod().code[a].op == ConstInt(0, i)
    ensures SingleAssignment(ChoiceMethod(), a, a + 1, map[]) == Some((0, Carried(IntLit(i), "")))
  {
    var m := ChoiceMethod();
    var after: Values := map[0 := Carried(IntLit(i), "")];
    assert Linear(m, a + 1, a + 1, after) == Evaluated(after, Block([], None, false), true);
    assert Linear(m, a, a + 1, map[]) == Evaluated(after, Block([], None, false), true);
    assert ChangedRegs(map[], after) == {0};
  }

  lemma ChoiceOffsets()
    ensures var m := ChoiceMethod();
            && IndexOf(m.code, 3) == Some(2) && IndexOf(m.code, 7) == Some(5) && IndexOf(m.code, 8) == Some(6)
  {
    var m := ChoiceMethod();
    OffsetNamesPosition(m.code, 2);
    OffsetNamesPosition(m.code, 5);
    OffsetNamesPosition(m.code, 6);
  }

  lemma ChoicePaths()
    ensures var m := ChoiceMethod();
            && AssignmentPath(m, 1, 6, 6, map[], 0) == NoChoice
            && AssignmentPath(m, 1, 2, 6, map[], 0) == Choice(0, Carried(IntLit(1), ""), false)
            && AssignmentPath(m, 3, 6, 6, map[], 0) == Choice(0, Carried(IntLit(2), ""), true)
            && AssignmentPath(m, 5, 6, 6, map[], 0) == Choice(0, Carried(IntLit(3), ""), true)
  {
    hide SingleAssignment;
    var m := ChoiceMethod();
    ChoiceConstant(1, 1);
    ChoiceConstant(3, 2);
    ChoiceConstant(5, 3);
    assert NextGoto(m, 1, 6) == 4 && NextGoto(m, 1, 2) == 2 && NextGoto(m, 3, 6) == 4 && NextGoto(m, 5, 6) == 6 by {
      assert NextGoto(m, 2, 6) == 4 && NextGoto(m, 3, 6) == 4 && NextGoto(m, 4, 6) == 4;
    }
    ChoiceHasBranch();
  }

  lemma ChoiceHasBranch()
    ensures SingleAssignment(ChoiceMethod(), 1, 4, map[]) == None
  {
    var m := ChoiceMethod();
    var after: Values := map[0 := Carried(IntLit(1), "")];
    assert !Linear(m, 2, 4, after).ok;
    assert !Linear(m, 1, 4, map[]).ok;
  }

  lemma ChoiceParsed()
    ensures ParseChoice(ChoiceMethod(), 0, 6, map[], 0) == Choice(0, Carried(CHOICE, ""), false)
  {
    hide AssignmentPath, RegisterExpression;
    var m := ChoiceMethod();
    ChoiceParams();
    ChoiceOffsets();
    ChoicePaths();
    assert ParseChoice(m, 5, 6, map[], 2) == AssignmentPath(m, 5, 6, 6, map[], 0);
    assert ParseChoice(m, 3, 6, map[], 2) == AssignmentPath(m, 3, 6, 6, map[], 0);
    assert ParseChoice(m, 1, 6, map[], 1) == AssignmentPath(m, 1, 6, 6, map[], 0);
    var inner := Ternary(Cond(Eq, Param(1), IntLit(0)), IntLit(3), IntLit(2));
    assert ParseChoice(m, 2, 6, map[], 1) == Choice(0, Carried(inner, ""), true);
  }

  lemma ChoiceLinear()
    ensures var m := ChoiceMethod();
            var values: Values := map[0 := Carried(CHOICE, "")];
            && Linear(m, 0, 0, map[]) == Evaluated(map[], Block([], None, false), true)
            && Linear(m, 6, 7, values) == Evaluated(values, Block([], Some(CHOICE), true), true)
  {
  }

  lemma ChoiceFirstJoin()
    ensures var m := ChoiceMethod();
            && ForwardIf(m, 0) && TargetOf(m, 0) == 2 && Opens(m, 0)
            && FirstJoin(m, 0, 1, 2) == Some((6, Straight([Return(CHOICE)])))
  {
    hide MultiBranchJoin;
    var m := ChoiceMethod();
    ChoiceOffsets();
    ChoiceAtJoin();
    var found := Some((6, Straight([Return(CHOICE)])));
    assert FirstJoin(m, 0, 4, 2) == found;
    assert FirstJoin(m, 0, 3, 2) == found;
    assert FirstJoin(m, 0, 2, 2) == found;
  }

  lemma ChoiceAtJoin()
    ensures Opens(ChoiceMethod(), 0) && MultiBranchJoin(ChoiceMethod(), 0, 6) == Some(Straight([Return(CHOICE)]))
  {
    hide Linear, ParseChoice, RegisterExpression;
    ChoiceParams();
    ChoiceParsed();
    ChoiceLinear();
    var none: Values := map[];
    assert none[0 := Carried(CHOICE, "")] == map[0 := Carried(CHOICE, "")];
    assert [] + ([] + [Return(CHOICE)]) == [Return(CHOICE)];
  }

  lemma ChoiceRecovered()
    ensures MultiBranchAt(ChoiceMethod(), 0) == Some(Straight([Return(CHOICE)]))
    ensures !NestReadRight(ChoiceMethod(), 0)
  {
    hide FirstJoin, ParseChoice, ForwardIf, Opens, TargetOf, AllClean, Arms;
    ChoiceParams();
    ChoiceFirstJoin();
    ChoiceParsed();
    NestCleanIff(ChoiceMethod(), 0, 6, map[], 0);
    assert Linear(ChoiceMethod(), 0, 0, map[]).values == map[];
  }

  lemma ChoiceTiled()
    ensures Tiled(ChoiceMethod().code) && |ChoiceMethod().code| == 7
    ensures ChoiceMethod().code[5].offset == 7
  {
  }

  lemma ChoiceActions(p: i32)
    requires p != 0
    ensures var m := ChoiceMethod();
            var start, mid, end := [Undef, Int(p), Int(0)], [Int(1), Int(p), Int(0)], [Int(3), Int(p), Int(0)];
            && Act(m, m.code[0].op, start) == Next(start, []) && Act(m, m.code[1].op, start) == Next(mid, [])
            && Act(m, m.code[2].op, mid) == Jump(7) && Act(m, m.code[5].op, mid) == Next(end, [])
            && Act(m, m.code[6].op, end) == Halt(Returned(VInt(3)))
  {
    var start, mid, end := [Undef, Int(p), Int(0)], [Int(1), Int(p), Int(0)], [Int(3), Int(p), Int(0)];
    assert start[0 := Int(1)] == mid && mid[0 := Int(3)] == end;
  }

  lemma ChoiceRuns(p: i32)
    requires p != 0
    ensures RunFrom(ChoiceMethod(), 0, [Undef, Int(p), Int(0)], 7) == Done(Outcome([], Returned(VInt(3))))
  {
    hide RunFrom, Act;
    ChoiceTiled();
    ChoiceActions(p);
    var m := ChoiceMethod();
    var start, mid, end := [Undef, Int(p), Int(0)], [Int(1), Int(p), Int(0)], [Int(3), Int(p), Int(0)];
    Falls(m, 0, start, 7);
    Silently(m, 1, start, mid, 6);
    Jumps(m, 2, mid, 5, 5);
    Silently(m, 5, mid, end, 4);
    Halts(m, 6, end, Returned(VInt(3)), 3);
  }

  /** The assignment in front of the second branch is taken for the last one: here the bytecode returns 3, and the body 1. */
  lemma ChoicePassesOverCode(p: i32)
    requires p != 0
    ensures var m := ChoiceMethod();
            var call := TwoInts(p, 0);
            && CallOf(m, call) && Tiled(m.code)
            && MultiBranchAt(m, 0).Some? && SafeBody(MultiBranchAt(m, 0).value, m.params)
            && RunFrom(m, 0, Entry(m, call), |m.code|) == Done(Outcome([], Returned(VInt(3))))
            && RunBody(MultiBranchAt(m, 0).value, call) == Outcome([], Returned(VInt(1)))
            && !NestReadRight(m, 0)
  {
    hide RunFrom, MultiBranchAt, NestReadRight;
    TwoWords();
    TwoCells(p, 0);
    ChoiceParams();
    ChoiceRecovered();
    ChoiceRuns(p);
    assert Entry(ChoiceMethod(), TwoInts(p, 0)) == [Undef, Int(p), Int(0)];
    ChoiceBodyRuns(p);
  }

  lemma ChoiceBodyRuns(p: i32)
    requires p != 0
    ensures SafeBody(Straight([Return(CHOICE)]), ["I", "I"])
    ensures RunBody(Straight([Return(CHOICE)]), TwoInts(p, 0)) == Outcome([], Returned(VInt(1)))
  {
    var call := TwoInts(p, 0);
    assert Eval(Param(0), call) == VInt(p) && Eval(IntLit(0), call) == VInt(0) && Eval(IntLit(1), call) == VInt(1);
    assert !Holds(Cond(Eq, Param(0), IntLit(0)), call);
    assert !IsLong(CHOICE, ["I", "I"]) by {
      assert !IsLong(IntLit(1), ["I", "I"]) && !IsLong(IntLit(2), ["I", "I"]) && !IsLong(IntLit(3), ["I", "I"]);
    }
    assert Eval(CHOICE, call) == VInt(1);
    RunOne(Return(CHOICE), call);
  }
}
