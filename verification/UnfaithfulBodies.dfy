/**
 A method of which an if/else body is printed that does something else: the lemma gives the method, the
 call, what the bytecode does, and what the printed body does.
 */
module UnfaithfulBodies {
  import opened MachineInts
  import opened JavaBody
  import opened DalvikMachine
  import opened RegisterLayout
  import opened LinearRecovery
  import opened BodyShapes
  import opened BodiesPreserved
  import opened Liveness
  import opened TerminalSlices
  import opened Options

  const F := FieldRef("LA;", "f", "I")

  /** A branch to return-void over: v0 := v0 + 1, a guard on v0, a store of v0. */
  function TwiceMethod(): Method {
    Method([
      Instr(0, ConstInt(0, 0)),
      Instr(1, IfZero(Eq, 1, 9)),
      Instr(3, BinaryLit(Add, 0, 0, 1)),
      Instr(5, IfZero(Eq, 0, 8)),
      Instr(6, StaticPut(F, 0)),
      Instr(8, ReturnVoid),
      Instr(9, ReturnVoid)], 2, 1, true, ["I"], "V", "m")
  }

  /** The guarded block is evaluated from the values its failed straight evaluation left: the increment is printed twice. */
  lemma IncrementPrintedTwice()
    ensures var m := TwiceMethod();
            var call := Call(["I"], 0, [VInt(1)]);
            && CallOf(m, call) && Tiled(m.code)
            && IfTerminalAt(m, 1).Some? && SafeBody(IfTerminalAt(m, 1).value, m.params)
            && RunFrom(m, 0, Entry(m, call), |m.code|) == Done(Outcome([Stored(F, VInt(1))], ReturnedVoid))
            && RunBody(IfTerminalAt(m, 1).value, call) == Outcome([Stored(F, VInt(2))], ReturnedVoid)
            && !Rereads(m, 2, Linear(m, 0, 1, map[]).values)
  {
    var m := TwiceMethod();
    var call := Call(["I"], 0, [VInt(1)]);
    assert Words(["I"]) == 1 by { assert ["I"][1..] == []; }
    assert CallOf(m, call);
    assert Tiled(m.code);
    TwiceMachine();
    TwiceRecovered();
    TwiceBody();
    TwiceUnsettled();
  }

  lemma TwiceMachine()
    ensures var m := TwiceMethod();
            var call := Call(["I"], 0, [VInt(1)]);
            && WellLaidOut(m)
            && RunFrom(m, 0, Entry(m, call), 7) == Done(Outcome([Stored(F, VInt(1))], ReturnedVoid))
  {
    TwiceEntry();
    TwiceRunsFront();
    TwiceRunsBack();
  }

  lemma TwiceEntry()
    ensures WellLaidOut(TwiceMethod())
    ensures Entry(TwiceMethod(), Call(["I"], 0, [VInt(1)])) == [Undef, Int(1)]
  {
    assert Words(["I"]) == 1 by { assert ["I"][1..] == []; }
    assert ArgumentCells([VInt(1)]) == [Int(1)] by { assert [VInt(1)][1..] == []; }
  }

  lemma TwiceRunsFront()
    ensures RunFrom(TwiceMethod(), 0, [Undef, Int(1)], 7) == RunFrom(TwiceMethod(), 3, [Int(1), Int(1)], 4)
  {
    hide RunFrom, Act, Execute;
    var m := TwiceMethod();
    TwiceActions();
    Silently(m, 0, [Undef, Int(1)], [Int(0), Int(1)], 7);
    Silently(m, 1, [Int(0), Int(1)], [Int(0), Int(1)], 6);
    Silently(m, 2, [Int(0), Int(1)], [Int(1), Int(1)], 5);
  }

  lemma TwiceRunsBack()
    ensures RunFrom(TwiceMethod(), 3, [Int(1), Int(1)], 4) == Done(Outcome([Stored(F, VInt(1))], ReturnedVoid))
  {
    hide RunFrom, Act, Execute;
    var m := TwiceMethod();
    var after := [Int(1), Int(1)];
    TwiceActions();
    Silently(m, 3, after, after, 4);
    Stores(m, 4, after, 3);
    ReturnVoidRuns(m, 5, after, 2);
    assert [Stored(F, VInt(1))] + [] == [Stored(F, VInt(1))];
  }

  lemma TwiceActions()
    ensures var m := TwiceMethod();
            && Act(m, m.code[0].op, [Undef, Int(1)]) == Next([Int(0), Int(1)], [])
            && Act(m, m.code[1].op, [Int(0), Int(1)]) == Next([Int(0), Int(1)], [])
            && Act(m, m.code[2].op, [Int(0), Int(1)]) == Next([Int(1), Int(1)], [])
            && Act(m, m.code[3].op, [Int(1), Int(1)]) == Next([Int(1), Int(1)], [])
            && Execute(m.code[4].op, [Int(1), Int(1)]) == Some(([Int(1), Int(1)], [Stored(F, VInt(1))]))
  {
    assert Arith32(Add, 0, 1) == 1;
    assert [Int(0), Int(1)][0 := Int(1)] == [Int(1), Int(1)];
    assert [Undef, Int(1)][0 := Int(0)] == [Int(0), Int(1)];
  }

  /** An instruction without effects that falls through. */
  lemma Silently(m: Method, pc: nat, regs: Regs, regs': Regs, fuel: nat)
    requires pc < |m.code| && fuel > 0
    requires Act(m, m.code[pc].op, regs) == Next(regs', [])
    ensures RunFrom(m, pc, regs, fuel) == RunFrom(m, pc + 1, regs', fuel - 1)
  {
    hide Act;
    PrependNothing(RunFrom(m, pc + 1, regs', fuel - 1));
  }

  lemma Stores(m: Method, pc: nat, regs: Regs, fuel: nat)
    requires pc < |m.code| && fuel > 0 && Execute(m.code[pc].op, regs).Some? && IsSimple(m.code[pc].op)
    ensures var next := Execute(m.code[pc].op, regs).value;
            RunFrom(m, pc, regs, fuel) == Prepend(next.1, RunFrom(m, pc + 1, next.0, fuel - 1))
  {
    StepRuns(m, pc, regs, fuel);
  }

  const ONE_MORE := Binary(Add, IntLit(0), IntLit(1))
  const TWO_MORE := Binary(Add, ONE_MORE, IntLit(1))

  /** The body printed for TwiceMethod. */
  const TWICE_BODY := IfThen(
    [], Cond(Eq, Param(0), IntLit(0)), [ReturnNothing],
    [ReturnIf(Cond(Eq, TWO_MORE, IntLit(0)), None), Put(F, TWO_MORE), ReturnNothing])

  lemma TwiceGuarded()
    ensures GuardedFrom(TwiceMethod(), 2, 5, map[0 := Carried(ONE_MORE, "I")])
         == Some([ReturnIf(Cond(Eq, TWO_MORE, IntLit(0)), None), Put(F, TWO_MORE)])
  {
    var m := TwiceMethod();
    var v1: Values := map[0 := Carried(ONE_MORE, "I")];
    var v2 := v1[0 := Carried(TWO_MORE, "I")];
    assert NextIf(m, 2, 5) == 3;
    assert Linear(m, 2, 3, v1) == Evaluated(v2, Block([], None, false), true) by {
      assert Linear(m, 3, 3, v2) == Evaluated(v2, Block([], None, false), true);
    }
    assert NextIf(m, 4, 5) == 5;
    assert Linear(m, 4, 5, v2) == Evaluated(v2, Block([Put(F, TWO_MORE)], None, false), true) by {
      assert Linear(m, 5, 5, v2) == Evaluated(v2, Block([], None, false), true);
    }
    assert GuardedFrom(m, 4, 5, v2) == Some([Put(F, TWO_MORE)]);
    var guard := ReturnIf(Cond(Eq, TWO_MORE, IntLit(0)), None);
    assert [] + [guard] + [Put(F, TWO_MORE)] == [guard, Put(F, TWO_MORE)];
  }

  /** The if/else body, put together from its parts. */
  lemma IfTerminalFromParts(m: Method, i: nat, t: nat, prefix: Evaluated, fall: Slice, target: Slice)
    requires |m.code| >= 4 && !m.IsInit() && ForwardIf(m, i) && t == TargetOf(m, i)
    requires prefix == Linear(m, 0, i, map[]) && prefix.ok && !prefix.block.ends
    requires fall == TerminalSlice(m, i + 1, prefix.values) && fall.Slice? && fall.end <= t
    requires target == TerminalSlice(m, t, prefix.values) && target.Slice?
    ensures IfTerminalAt(m, i)
         == Some(IfThen(prefix.block.stmts, ConditionOf(m, m.code[i].op, prefix.values),
                        Printed(target.block, m.IsVoid()), Printed(fall.block, m.IsVoid())))
  {
  }

  lemma TwiceRecovered()
    ensures IfTerminalAt(TwiceMethod(), 1) == Some(TWICE_BODY)
  {
    hide Linear, TerminalSlice, IfTerminalAt, TwiceMethod, ForwardIf, TargetOf, RegisterExpression;
    TwiceFacts();
    TwiceLinear();
    TwiceSlices();
    var v0: Values := map[0 := Carried(IntLit(0), "")];
    IfTerminalFromParts(TwiceMethod(), 1, 6, Evaluated(v0, Block([], None, false), true),
                        Slice(Block(TWICE_STMTS, None, true), 6), Slice(Block([], None, true), 7));
    assert Printed(Block(TWICE_STMTS, None, true), true) == TWICE_BODY.rest;
    assert Printed(Block([], None, true), true) == [ReturnNothing];
    assert ConditionOf(TwiceMethod(), IfZero(Eq, 1, 9), v0) == TWICE_BODY.c;
  }

  lemma TwiceFacts()
    ensures var m := TwiceMethod();
            && |m.code| == 7 && m.IsVoid() && !m.IsInit() && m.code[1].op == IfZero(Eq, 1, 9)
            && Tiled(m.code) && ForwardIf(m, 1) && TargetOf(m, 1) == 6
            && RegisterExpression(m, 1) == Param(0)
  {
    OffsetNamesPosition(TwiceMethod().code, 6);
  }

  const TWICE_STMTS := [ReturnIf(Cond(Eq, TWO_MORE, IntLit(0)), None), Put(F, TWO_MORE)]

  lemma TwiceSlices()
    ensures var m := TwiceMethod();
            var v0: Values := map[0 := Carried(IntLit(0), "")];
            && TerminalSlice(m, 2, v0) == Slice(Block(TWICE_STMTS, None, true), 6)
            && TerminalSlice(m, 6, v0) == Slice(Block([], None, true), 7)
  {
    hide Linear, GuardedFrom;
    var m := TwiceMethod();
    TwiceLinear();
    TwiceGuarded();
    assert TerminalEnd(m, 2) == 6 by { assert TerminalEnd(m, 4) == 6; }
    assert TerminalEnd(m, 6) == 7;
  }

  lemma TwiceLinear()
    ensures var m := TwiceMethod();
            var v0: Values := map[0 := Carried(IntLit(0), "")];
            && Linear(m, 0, 1, map[]) == Evaluated(v0, Block([], None, false), true)
            && !Linear(m, 2, 6, v0).ok && Linear(m, 2, 6, v0).values == map[0 := Carried(ONE_MORE, "I")]
            && Linear(m, 6, 7, v0) == Evaluated(v0, Block([], None, true), true)
  {
    var m := TwiceMethod();
    var v0: Values := map[0 := Carried(IntLit(0), "")];
    var v1 := v0[0 := Carried(ONE_MORE, "I")];
    assert Linear(m, 1, 1, v0) == Evaluated(v0, Block([], None, false), true);
    assert Linear(m, 3, 6, v1) == Evaluated(v1, Block([], None, false), false);
  }

  lemma TwiceBody()
    ensures SafeBody(TWICE_BODY, ["I"])
    ensures RunBody(TWICE_BODY, Call(["I"], 0, [VInt(1)])) == Outcome([Stored(F, VInt(2))], ReturnedVoid)
  {
    var call := Call(["I"], 0, [VInt(1)]);
    assert Eval(ONE_MORE, call) == VInt(1);
    assert Eval(TWO_MORE, call) == VInt(2);
    var rest := TWICE_BODY.rest;
    assert RunStmts(rest[2..], call) == Ran([], Some(ReturnedVoid)) by { RunOne(ReturnNothing, call); }
    assert rest[1..][1..] == rest[2..];
    assert RunStmts(rest[1..], call) == Ran([Stored(F, VInt(2))], Some(ReturnedVoid));
    assert RunStmts(rest, call) == Ran([Stored(F, VInt(2))], Some(ReturnedVoid));
  }

  lemma TwiceUnsettled()
    ensures !Rereads(TwiceMethod(), 2, Linear(TwiceMethod(), 0, 1, map[]).values)
  {
    hide Linear;
    TwiceLinear();
    var m := TwiceMethod();
    assert TerminalEnd(m, 2) == 6 by { assert TerminalEnd(m, 4) == 6; }
    assert 0 in LiveIn(m, 2, 5, {}) by { assert 0 in LiveIn(m, 3, 5, {}); }
    var v0: Values := map[0 := Carried(IntLit(0), "")];
    assert ValueOf(m, v0, 0) == IntLit(0) && ValueOf(m, Linear(m, 2, 6, v0).values, 0) == ONE_MORE;
  }
}
