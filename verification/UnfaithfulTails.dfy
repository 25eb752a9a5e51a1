/**
 Three more methods whose printed body does something else: code behind a short goto that is passed over, and two
 chunks that are printed twice, in a case of a switch and in the tail behind a nest.
 */
module UnfaithfulTails {
  import opened MachineInts
  import opened JavaBody
  import opened DalvikMachine
  import opened RegisterLayout
  import opened LinearRecovery
  import opened BodyShapes
  import opened BodiesPreserved
  import opened Liveness
  import opened FollowedPaths
  import opened TerminalSlices
  import opened NestedChoices
  import opened UnfaithfulBodies
  import opened UnfaithfulChoices
  import opened Options

  function OneInt(p: i32): Call {
    Call(["I"], 0, [VInt(p)])
  }

  /** Two registers, of which the second is the only parameter. */
  lemma OneParameter(m: Method, p: i32)
    requires m.registers == 2 && m.ins == 1 && m.isStatic && m.params == ["I"]
    ensures CallOf(m, OneInt(p)) && Entry(m, OneInt(p)) == [Undef, Int(p)]
    ensures RegisterExpression(m, 1) == Param(0)
  {
    assert Words(["I"]) == 1 by { assert ["I"][1..] == []; }
    assert ArgumentCells([VInt(p)]) == [Int(p)] by { assert [VInt(p)][1..] == []; }
  }

  /** A single constant is a single assignment to v0. */
  lemma ConstantAssigned(m: Method, a: nat, i: i32)
    requires a < |m.code| && m.code[a].op == ConstInt(0, i)
    ensures SingleAssignment(m, a, a + 1, map[]) == Some((0, Carried(IntLit(i), "")))
  {
    var after: Values := map[0 := Carried(IntLit(i), "")];
    assert Linear(m, a + 1, a + 1, after) == Evaluated(after, Block([], None, false), true);
    assert Linear(m, a, a + 1, map[]) == Evaluated(after, Block([], None, false), true);
    assert ChangedRegs(map[], after) == {0};
  }

  // ----- Code behind a short goto -----

  /** v0 is 2 if p0 is 0, and otherwise 1 and then, behind a goto, 3. */
  function ShortMethod(): Method {
    Method([
      Instr(0, IfZero(Eq, 1, 4)),
      Instr(2, ConstInt(0, 1)),
      Instr(3, Goto(6)),
      Instr(4, ConstInt(0, 2)),
      Instr(5, Goto(7)),
      Instr(6, ConstInt(0, 3)),
      Instr(7, ReturnReg(0))], 2, 1, true, ["I"], "I", "m")
  }

  const EITHER := Ternary(Cond(Eq, Param(0), IntLit(0)), IntLit(2), IntLit(1))

  lemma ShortOffsets()
    ensures var m := ShortMethod();
            && |m.code| == 7 && !m.IsVoid() && !m.IsInit() && Tiled(m.code)
            && IndexOf(m.code, 4) == Some(3) && IndexOf(m.code, 6) == Some(5) && IndexOf(m.code, 7) == Some(6)
  {
    var m := ShortMethod();
    OffsetNamesPosition(m.code, 3);
    OffsetNamesPosition(m.code, 5);
    OffsetNamesPosition(m.code, 6);
  }

  lemma ShortPaths()
    ensures var m := ShortMethod();
            && AssignmentPath(m, 1, 6, 6, map[], 0) == Choice(0, Carried(IntLit(1), ""), false)
            && AssignmentPath(m, 3, 6, 6, map[], 0) == Choice(0, Carried(IntLit(2), ""), true)
            && AssignmentPath(m, 3, 5, 5, map[], 0) == NoChoice
  {
    hide SingleAssignment;
    var m := ShortMethod();
    ShortOffsets();
    ConstantAssigned(m, 1, 1);
    ConstantAssigned(m, 3, 2);
    assert NextGoto(m, 1, 6) == 2 && NextGoto(m, 3, 6) == 4 && NextGoto(m, 3, 5) == 4;
  }

  /** The join behind the first goto is refused; the one behind the second is taken, and the first goto passed over. */
  lemma ShortParsed()
    ensures ParseChoice(ShortMethod(), 0, 6, map[], 0) == Choice(0, Carried(EITHER, ""), false)
    ensures ParseChoice(ShortMethod(), 0, 5, map[], 0) == NoChoice
  {
    hide AssignmentPath, RegisterExpression;
    var m := ShortMethod();
    OneParameter(m, 0);
    ShortOffsets();
    ShortPaths();
    assert ParseChoice(m, 1, 6, map[], 1) == AssignmentPath(m, 1, 6, 6, map[], 0);
    assert ParseChoice(m, 3, 6, map[], 1) == AssignmentPath(m, 3, 6, 6, map[], 0);
    assert ParseChoice(m, 3, 5, map[], 1) == NoChoice;
  }

  lemma ShortJoins()
    ensures var m := ShortMethod();
            && Opens(m, 0) && Linear(m, 0, 0, map[]).values == map[]
            && MultiBranchJoin(m, 0, 5).None?
            && MultiBranchJoin(m, 0, 6) == Some(Straight([Return(EITHER)]))
  {
    hide ParseChoice, RegisterExpression;
    var m := ShortMethod();
    ShortParsed();
    var values: Values := map[0 := Carried(EITHER, "")];
    assert Linear(m, 0, 0, map[]) == Evaluated(map[], Block([], None, false), true);
    assert Linear(m, 6, 7, values) == Evaluated(values, Block([], Some(EITHER), true), true);
    var none: Values := map[];
    assert none[0 := Carried(EITHER, "")] == values;
    assert [] + ([] + [Return(EITHER)]) == [Return(EITHER)];
  }

  lemma ShortRecovered()
    ensures MultiBranchAt(ShortMethod(), 0) == Some(Straight([Return(EITHER)]))
    ensures !NestReadRight(ShortMethod(), 0)
  {
    hide MultiBranchJoin, ParseChoice, AllClean, Arms, Linear;
    var m := ShortMethod();
    ShortOffsets();
    ShortJoins();
    ShortParsed();
    var found := Some((6, Straight([Return(EITHER)])));
    assert FirstJoin(m, 0, 4, 3) == found;
    assert FirstJoin(m, 0, 3, 3) == found;
    assert FirstJoin(m, 0, 2, 3) == found;
    assert FirstJoin(m, 0, 1, 3) == found;
    NestCleanIff(m, 0, 6, map[], 0);
  }

  lemma ShortActions(p: i32)
    requires p != 0
    ensures var m := ShortMethod();
            && Act(m, m.code[0].op, [Undef, Int(p)]) == Next([Undef, Int(p)], [])
            && Act(m, m.code[1].op, [Undef, Int(p)]) == Next([Int(1), Int(p)], [])
            && Act(m, m.code[2].op, [Int(1), Int(p)]) == Jump(6) && m.code[5].offset == 6
            && Act(m, m.code[5].op, [Int(1), Int(p)]) == Next([Int(3), Int(p)], [])
            && Act(m, m.code[6].op, [Int(3), Int(p)]) == Halt(Returned(VInt(3)))
  {
    assert [Undef, Int(p)][0 := Int(1)] == [Int(1), Int(p)] && [Int(1), Int(p)][0 := Int(3)] == [Int(3), Int(p)];
  }

  lemma ShortRuns(p: i32)
    requires p != 0
    ensures RunFrom(ShortMethod(), 0, [Undef, Int(p)], 7) == Done(Outcome([], Returned(VInt(3))))
  {
    hide RunFrom, Act;
    var m := ShortMethod();
    ShortOffsets();
    ShortActions(p);
    Falls(m, 0, [Undef, Int(p)], 7);
    Silently(m, 1, [Undef, Int(p)], [Int(1), Int(p)], 6);
    Jumps(m, 2, [Int(1), Int(p)], 5, 5);
    Silently(m, 5, [Int(1), Int(p)], [Int(3), Int(p)], 4);
    Halts(m, 6, [Int(3), Int(p)], Returned(VInt(3)), 3);
  }

  lemma EitherEvaluates(p: i32)
    requires p != 0
    ensures Safe(EITHER, ["I"]) && Eval(EITHER, OneInt(p)) == VInt(1)
  {
    var call := OneInt(p);
    assert Eval(Param(0), call) == VInt(p) && Eval(IntLit(0), call) == VInt(0) && Eval(IntLit(1), call) == VInt(1);
    assert !Holds(Cond(Eq, Param(0), IntLit(0)), call);
    assert !IsLong(EITHER, ["I"]) by { assert !IsLong(IntLit(1), ["I"]) && !IsLong(IntLit(2), ["I"]); }
  }

  /** The assignment in front of a goto is taken for the last one, though the goto leads to another: 3 is returned, and 1 by the body. */
  lemma ShortGotoPassedOver(p: i32)
    requires p != 0
    ensures var m := ShortMethod();
            var call := OneInt(p);
            && CallOf(m, call) && Tiled(m.code)
            && MultiBranchAt(m, 0).Some? && SafeBody(MultiBranchAt(m, 0).value, m.params)
            && RunFrom(m, 0, Entry(m, call), |m.code|) == Done(Outcome([], Returned(VInt(3))))
            && RunBody(MultiBranchAt(m, 0).value, call) == Outcome([], Returned(VInt(1)))
            && !NestReadRight(m, 0)
  {
    hide RunFrom, MultiBranchAt, NestReadRight, Eval, Safe;
    OneParameter(ShortMethod(), p);
    ShortOffsets();
    ShortRecovered();
    ShortRuns(p);
    EitherEvaluates(p);
    RunOne(Return(EITHER), OneInt(p));
  }

  // ----- A case of a switch -----

  /** v0 is 0, and in case 1 it is incremented, and stored unless it is 0. */
  function CaseMethod(): Method {
    Method([
      Instr(0, ConstInt(0, 0)),
      Instr(1, Switch(1, [1], [5])),
      Instr(4, ReturnVoid),
      Instr(5, BinaryLit(Add, 0, 0, 1)),
      Instr(7, IfZero(Eq, 0, 11)),
      Instr(9, StaticPut(F, 0)),
      Instr(11, ReturnVoid)], 2, 1, true, ["I"], "V", "m")
  }

  const CASE_BODY := SwitchOn(
    [], Param(0), [1], [[ReturnIf(Cond(Eq, TWO_MORE, IntLit(0)), None), Put(F, TWO_MORE), ReturnNothing]], [ReturnNothing])

  lemma CaseFacts()
    ensures var m := CaseMethod();
            && |m.code| == 7 && m.IsVoid() && !m.IsInit() && Tiled(m.code)
            && IndexOf(m.code, 5) == Some(3) && m.code[6].offset == 11
            && TerminalEnd(m, 3) == 7 && TerminalEnd(m, 2) == 3
  {
    var m := CaseMethod();
    OffsetNamesPosition(m.code, 3);
    assert TerminalEnd(m, 3) == 7 by { assert TerminalEnd(m, 5) == 7; }
  }

  lemma CaseLinear()
    ensures var m := CaseMethod();
            var v0: Values := map[0 := Carried(IntLit(0), "")];
            && Linear(m, 0, 1, map[]) == Evaluated(v0, Block([], None, false), true)
            && !Linear(m, 3, 7, v0).ok && Linear(m, 3, 7, v0).values == map[0 := Carried(ONE_MORE, "I")]
            && Linear(m, 2, 3, v0) == Evaluated(v0, Block([], None, true), true)
  {
    var m := CaseMethod();
    var v0: Values := map[0 := Carried(IntLit(0), "")];
    var v1 := v0[0 := Carried(ONE_MORE, "I")];
    assert Linear(m, 1, 1, v0) == Evaluated(v0, Block([], None, false), true);
    assert Linear(m, 4, 7, v1) == Evaluated(v1, Block([], None, false), false);
  }

  lemma CaseGuarded()
    ensures GuardedFrom(CaseMethod(), 3, 6, map[0 := Carried(ONE_MORE, "I")]) == Some(TWICE_STMTS)
  {
    var m := CaseMethod();
    var v1: Values := map[0 := Carried(ONE_MORE, "I")];
    var v2 := v1[0 := Carried(TWO_MORE, "I")];
    assert NextIf(m, 3, 6) == 4;
    assert Linear(m, 3, 4, v1) == Evaluated(v2, Block([], None, false), true) by {
      assert Linear(m, 4, 4, v2) == Evaluated(v2, Block([], None, false), true);
    }
    assert NextIf(m, 5, 6) == 6;
    assert Linear(m, 5, 6, v2) == Evaluated(v2, Block([Put(F, TWO_MORE)], None, false), true) by {
      assert Linear(m, 6, 6, v2) == Evaluated(v2, Block([], None, false), true);
    }
    assert GuardedFrom(m, 5, 6, v2) == Some([Put(F, TWO_MORE)]);
    var guard := ReturnIf(Cond(Eq, TWO_MORE, IntLit(0)), None);
    assert [] + [guard] + [Put(F, TWO_MORE)] == [guard, Put(F, TWO_MORE)];
  }

  lemma CaseSlices()
    ensures var m := CaseMethod();
            var v0: Values := map[0 := Carried(IntLit(0), "")];
            && TerminalSlice(m, 3, v0) == Slice(Block(TWICE_STMTS, None, true), 7)
            && TerminalSlice(m, 2, v0) == Slice(Block([], None, true), 3)
            && CaseBlocks(m, [5], v0) == Some([Block(TWICE_STMTS, None, true)])
  {
    hide Linear, GuardedFrom;
    var m := CaseMethod();
    var v0: Values := map[0 := Carried(IntLit(0), "")];
    CaseFacts();
    CaseLinear();
    CaseGuarded();
    var targets: seq<int> := [5];
    assert targets[1..] == [];
    var block := Block(TWICE_STMTS, None, true);
    assert TerminalSlice(m, 3, v0).block == block;
    assert CaseBlocks(m, targets[1..], v0) == Some([]);
    assert [block] + [] == [block];
    assert CaseBlocks(m, targets, v0) == Some([block]);
  }

  lemma CaseRecovered()
    ensures SwitchAt(CaseMethod(), 1) == Some(CASE_BODY)
    ensures !Rereads(CaseMethod(), 3, Linear(CaseMethod(), 0, 1, map[]).values)
  {
    hide Linear, TerminalSlice, CaseBlocks, RegisterExpression, Printed, PrintAll, LiveIn;
    hide Rereads;
    var m := CaseMethod();
    var v0: Values := map[0 := Carried(IntLit(0), "")];
    OneParameter(m, 0);
    CaseFacts();
    CaseLinear();
    CaseSlices();
    CasePrinted();
    CaseUnsettled();
  }

  lemma CasePrinted()
    ensures Printed(Block([], None, true), true) == [ReturnNothing]
    ensures PrintAll([Block(TWICE_STMTS, None, true)], true) == CASE_BODY.cases
  {
    assert Printed(Block(TWICE_STMTS, None, true), true) == CASE_BODY.cases[0];
  }

  lemma CaseUnsettled()
    ensures !Rereads(CaseMethod(), 3, Linear(CaseMethod(), 0, 1, map[]).values)
  {
    hide Linear;
    var m := CaseMethod();
    var v0: Values := map[0 := Carried(IntLit(0), "")];
    CaseFacts();
    CaseLinear();
    assert 0 in LiveIn(m, 3, 6, {}) by { assert 0 in LiveIn(m, 4, 6, {}); }
    assert ValueOf(m, v0, 0) == IntLit(0) && ValueOf(m, Linear(m, 3, 7, v0).values, 0) == ONE_MORE;
  }

  lemma CaseSwitches()
    ensures Act(CaseMethod(), Switch(1, [1], [5]), [Int(0), Int(1)]) == Jump(5)
  {
    assert CaseIndex([1], 1) == 0;
  }

  lemma CaseActions()
    ensures var m := CaseMethod();
            && Act(m, m.code[0].op, [Undef, Int(1)]) == Next([Int(0), Int(1)], [])
            && m.code[1].op == Switch(1, [1], [5]) && m.code[3].offset == 5
            && Act(m, m.code[3].op, [Int(0), Int(1)]) == Next([Int(1), Int(1)], [])
            && Act(m, m.code[4].op, [Int(1), Int(1)]) == Next([Int(1), Int(1)], [])
            && Execute(m.code[5].op, [Int(1), Int(1)]) == Some(([Int(1), Int(1)], [Stored(F, VInt(1))]))
  {
    assert Arith32(Add, 0, 1) == 1;
    assert [Int(0), Int(1)][0 := Int(1)] == [Int(1), Int(1)] && [Undef, Int(1)][0 := Int(0)] == [Int(0), Int(1)];
  }

  lemma CaseRuns()
    ensures RunFrom(CaseMethod(), 0, [Undef, Int(1)], 7) == Done(Outcome([Stored(F, VInt(1))], ReturnedVoid))
  {
    hide RunFrom, Act, Execute;
    var m := CaseMethod();
    CaseFacts();
    CaseSwitches();
    CaseActions();
    Silently(m, 0, [Undef, Int(1)], [Int(0), Int(1)], 7);
    Jumps(m, 1, [Int(0), Int(1)], 3, 6);
    Silently(m, 3, [Int(0), Int(1)], [Int(1), Int(1)], 5);
    Falls(m, 4, [Int(1), Int(1)], 4);
    Stores(m, 5, [Int(1), Int(1)], 3);
    ReturnVoidRuns(m, 6, [Int(1), Int(1)], 2);
    assert [Stored(F, VInt(1))] + [] == [Stored(F, VInt(1))];
  }

  lemma CaseBody()
    ensures SafeBody(CASE_BODY, ["I"])
    ensures RunBody(CASE_BODY, OneInt(1)) == Outcome([Stored(F, VInt(2))], ReturnedVoid)
  {
    var call := OneInt(1);
    TwiceBody();
    assert SafeStmts(CASE_BODY.cases[0], ["I"]) by { assert CASE_BODY.cases[0] == TWICE_BODY.rest; }
    assert RunStmts(CASE_BODY.cases[0], call) == Ran([Stored(F, VInt(2))], Some(ReturnedVoid)) by { TwiceRest(); }
    assert Eval(Param(0), call) == VInt(1) && CaseIndex([1], 1) == 0;
    assert RunCases(CASE_BODY.cases, CASE_BODY.default, 0, call) == Ran([Stored(F, VInt(2))], Some(ReturnedVoid));
  }

  lemma TwiceRest()
    ensures RunStmts(TWICE_BODY.rest, OneInt(1)) == Ran([Stored(F, VInt(2))], Some(ReturnedVoid))
  {
    var call := OneInt(1);
    var rest := TWICE_BODY.rest;
    assert Eval(ONE_MORE, call) == VInt(1);
    assert Eval(TWO_MORE, call) == VInt(2);
    assert rest[1..][1..] == rest[2..];
    assert RunStmts(rest[2..], call) == Ran([], Some(ReturnedVoid)) by { RunOne(ReturnNothing, call); }
    assert RunStmts(rest[1..], call) == Ran([Stored(F, VInt(2))], Some(ReturnedVoid));
  }

  /** The increment of the case is printed twice: 1 is stored, and 2 by the body. */
  lemma CasePrintedTwice()
    ensures var m := CaseMethod();
            var call := OneInt(1);
            && CallOf(m, call) && Tiled(m.code)
            && SwitchAt(m, 1).Some? && SafeBody(SwitchAt(m, 1).value, m.params)
            && RunFrom(m, 0, Entry(m, call), |m.code|) == Done(Outcome([Stored(F, VInt(1))], ReturnedVoid))
            && RunBody(SwitchAt(m, 1).value, call) == Outcome([Stored(F, VInt(2))], ReturnedVoid)
            && !Rereads(m, 3, Linear(m, 0, 1, map[]).values)
  {
    hide RunFrom, SwitchAt, Rereads, RunBody, Linear;
    OneParameter(CaseMethod(), 1);
    CaseFacts();
    CaseRecovered();
    CaseRuns();
    CaseBody();
  }

  // ----- The tail behind a nest -----

  /** v0 is 2 or 1, then incremented, and stored unless it is 0. */
  function TailMethod(): Method {
    Method([
      Instr(0, IfZero(Eq, 1, 5)),
      Instr(2, ConstInt(0, 1)),
      Instr(3, Goto(6)),
      Instr(5, ConstInt(0, 2)),
      Instr(6, BinaryLit(Add, 0, 0, 1)),
      Instr(8, IfZero(Eq, 0, 12)),
      Instr(10, StaticPut(F, 0)),
      Instr(12, ReturnVoid)], 2, 1, true, ["I"], "V", "m")
  }

  const EITHER_NEXT := Binary(Add, EITHER, IntLit(1))
  const EITHER_TWICE := Binary(Add, EITHER_NEXT, IntLit(1))
  const TAIL_STMTS := [ReturnIf(Cond(Eq, EITHER_TWICE, IntLit(0)), None), Put(F, EITHER_TWICE)]

  lemma TailFacts()
    ensures var m := TailMethod();
            && |m.code| == 8 && m.IsVoid() && !m.IsInit() && Tiled(m.code)
            && IndexOf(m.code, 5) == Some(3) && IndexOf(m.code, 6) == Some(4) && m.code[7].offset == 12
  {
    var m := TailMethod();
    OffsetNamesPosition(m.code, 3);
    OffsetNamesPosition(m.code, 4);
  }

  lemma TailPaths()
    ensures var m := TailMethod();
            && AssignmentPath(m, 1, 4, 4, map[], 0) == Choice(0, Carried(IntLit(1), ""), true)
            && AssignmentPath(m, 3, 4, 4, map[], 0) == Choice(0, Carried(IntLit(2), ""), true)
  {
    hide SingleAssignment;
    var m := TailMethod();
    TailFacts();
    ConstantAssigned(m, 1, 1);
    ConstantAssigned(m, 3, 2);
    assert NextGoto(m, 1, 4) == 2 && NextGoto(m, 3, 4) == 4;
  }

  lemma TailParsed()
    ensures ParseChoice(TailMethod(), 0, 4, map[], 0) == Choice(0, Carried(EITHER, ""), true)
  {
    hide AssignmentPath, RegisterExpression;
    var m := TailMethod();
    OneParameter(m, 0);
    TailFacts();
    TailPaths();
    assert ParseChoice(m, 1, 4, map[], 1) == AssignmentPath(m, 1, 4, 4, map[], 0);
    assert ParseChoice(m, 3, 4, map[], 1) == AssignmentPath(m, 3, 4, 4, map[], 0);
  }

  lemma TailLinear()
    ensures var m := TailMethod();
            var joined: Values := map[0 := Carried(EITHER, "")];
            && Linear(m, 0, 0, map[]) == Evaluated(map[], Block([], None, false), true)
            && !Linear(m, 4, 8, joined).ok && Linear(m, 4, 8, joined).values == map[0 := Carried(EITHER_NEXT, "I")]
  {
    var m := TailMethod();
    var joined: Values := map[0 := Carried(EITHER, "")];
    var v1 := joined[0 := Carried(EITHER_NEXT, "I")];
    assert Linear(m, 5, 8, v1) == Evaluated(v1, Block([], None, false), false);
  }

  lemma TailVoid()
    ensures VoidTail(TailMethod(), 4, map[0 := Carried(EITHER_NEXT, "I")]) == Some(TAIL_STMTS)
  {
    var m := TailMethod();
    var v1: Values := map[0 := Carried(EITHER_NEXT, "I")];
    var v2 := v1[0 := Carried(EITHER_TWICE, "I")];
    assert NextIfTo(m, 4, 7, 12) == 5;
    assert Linear(m, 4, 5, v1) == Evaluated(v2, Block([], None, false), true) by {
      assert Linear(m, 5, 5, v2) == Evaluated(v2, Block([], None, false), true);
    }
    assert Linear(m, 6, 7, v2) == Evaluated(v2, Block([Put(F, EITHER_TWICE)], None, false), true) by {
      assert Linear(m, 7, 7, v2) == Evaluated(v2, Block([], None, false), true);
    }
    var guard := ReturnIf(Cond(Eq, EITHER_TWICE, IntLit(0)), None);
    assert [] + [guard] + [Put(F, EITHER_TWICE)] == TAIL_STMTS;
  }

  lemma TailRecovered()
    ensures MultiBranchAt(TailMethod(), 0) == Some(Straight(TAIL_STMTS))
    ensures !NestReadRight(TailMethod(), 0)
  {
    hide ParseChoice, Linear, VoidTail, RegisterExpression, LiveIn;
    var m := TailMethod();
    TailFacts();
    TailParsed();
    TailLinear();
    TailVoid();
    var none: Values := map[];
    assert none[0 := Carried(EITHER, "")] == map[0 := Carried(EITHER, "")];
    assert [] + TAIL_STMTS == TAIL_STMTS;
    assert MultiBranchJoin(m, 0, 4) == Some(Straight(TAIL_STMTS));
    assert FirstJoin(m, 0, 2, 3) == Some((4, Straight(TAIL_STMTS)));
    assert FirstJoin(m, 0, 1, 3) == Some((4, Straight(TAIL_STMTS)));
    TailUnsettled();
  }

  lemma TailUnsettled()
    ensures !TailRereads(TailMethod(), 4, map[0 := Carried(EITHER, "")])
  {
    hide Linear;
    var m := TailMethod();
    var joined: Values := map[0 := Carried(EITHER, "")];
    TailLinear();
    assert 0 in LiveIn(m, 4, 7, {}) by { assert 0 in LiveIn(m, 5, 7, {}); }
    assert ValueOf(m, joined, 0) == EITHER && ValueOf(m, Linear(m, 4, 8, joined).values, 0) == EITHER_NEXT;
  }

  lemma TailActions(p: i32)
    requires p != 0
    ensures var m := TailMethod();
            && Act(m, m.code[0].op, [Undef, Int(p)]) == Next([Undef, Int(p)], [])
            && Act(m, m.code[1].op, [Undef, Int(p)]) == Next([Int(1), Int(p)], [])
            && Act(m, m.code[2].op, [Int(1), Int(p)]) == Jump(6) && m.code[4].offset == 6
            && Act(m, m.code[4].op, [Int(1), Int(p)]) == Next([Int(2), Int(p)], [])
            && Act(m, m.code[5].op, [Int(2), Int(p)]) == Next([Int(2), Int(p)], [])
            && Execute(m.code[6].op, [Int(2), Int(p)]) == Some(([Int(2), Int(p)], [Stored(F, VInt(2))]))
  {
    assert Arith32(Add, 1, 1) == 2;
    assert [Undef, Int(p)][0 := Int(1)] == [Int(1), Int(p)] && [Int(1), Int(p)][0 := Int(2)] == [Int(2), Int(p)];
  }

  lemma TailRuns(p: i32)
    requires p != 0
    ensures RunFrom(TailMethod(), 0, [Undef, Int(p)], 8) == Done(Outcome([Stored(F, VInt(2))], ReturnedVoid))
  {
    hide RunFrom, Act, Execute;
    var m := TailMethod();
    TailFacts();
    TailActions(p);
    Falls(m, 0, [Undef, Int(p)], 8);
    Silently(m, 1, [Undef, Int(p)], [Int(1), Int(p)], 7);
    Jumps(m, 2, [Int(1), Int(p)], 4, 6);
    Silently(m, 4, [Int(1), Int(p)], [Int(2), Int(p)], 5);
    Falls(m, 5, [Int(2), Int(p)], 4);
    Stores(m, 6, [Int(2), Int(p)], 3);
    ReturnVoidRuns(m, 7, [Int(2), Int(p)], 2);
    assert [Stored(F, VInt(2))] + [] == [Stored(F, VInt(2))];
  }

  lemma TailBody(p: i32)
    requires p != 0
    ensures SafeBody(Straight(TAIL_STMTS), ["I"])
    ensures RunBody(Straight(TAIL_STMTS), OneInt(p)) == Outcome([Stored(F, VInt(3))], ReturnedVoid)
  {
    var call := OneInt(p);
    EitherEvaluates(p);
    hide EITHER;
    assert Safe(EITHER_NEXT, ["I"]) && Safe(EITHER_TWICE, ["I"]);
    assert Eval(EITHER_NEXT, call) == VInt(2) by { assert Arith32(Add, 1, 1) == 2; }
    assert Eval(EITHER_TWICE, call) == VInt(3) by { assert Arith32(Add, 2, 1) == 3; }
    assert Eval(IntLit(0), call) == VInt(0);
    assert RunStmt(TAIL_STMTS[0], call) == Ran([], None);
    assert RunStmt(TAIL_STMTS[1], call) == Ran([Stored(F, VInt(3))], None);
    assert TAIL_STMTS == [TAIL_STMTS[0]] + [TAIL_STMTS[1]];
    RunStmtsConcat([TAIL_STMTS[0]], [TAIL_STMTS[1]], call);
    RunOne(TAIL_STMTS[0], call);
    RunOne(TAIL_STMTS[1], call);
  }

  /** The increment behind the nest is printed twice: 2 is stored, and 3 by the body. */
  lemma TailPrintedTwice(p: i32)
    requires p != 0
    ensures var m := TailMethod();
            var call := OneInt(p);
            && CallOf(m, call) && Tiled(m.code)
            && MultiBranchAt(m, 0).Some? && SafeBody(MultiBranchAt(m, 0).value, m.params)
            && RunFrom(m, 0, Entry(m, call), |m.code|) == Done(Outcome([Stored(F, VInt(2))], ReturnedVoid))
            && RunBody(MultiBranchAt(m, 0).value, call) == Outcome([Stored(F, VInt(3))], ReturnedVoid)
            && !NestReadRight(m, 0)
  {
    hide RunFrom, MultiBranchAt, NestReadRight, RunBody;
    OneParameter(TailMethod(), p);
    TailFacts();
    TailRecovered();
    TailRuns(p);
    TailBody(p);
  }
}
