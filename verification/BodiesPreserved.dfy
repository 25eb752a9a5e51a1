module BodiesPreserved {
  // Every recovered body does what the bytecode does: the same effects in the same order, and
  // the same returned or thrown value.

  import opened MachineInts
  import opened JavaBody
  import opened DalvikMachine
  import opened RegisterLayout
  import opened LinearRecovery
  import opened BodyShapes
  import opened Options

  /** Offsets grow along the code, as the instruction decoder lays them out. */
  predicate Tiled(code: seq<Instr>) {
    forall i, j :: 0 <= i < j < |code| ==> code[i].offset < code[j].offset
  }

  lemma OffsetNamesPosition(code: seq<Instr>, k: nat)
    requires Tiled(code) && k < |code|
    ensures IndexOf(code, code[k].offset) == Some(k)
  {
    assert IndexOf(code, code[k].offset).Some?;
  }

  // ----- When a run and a statement list agree -----

  /** The run is stuck, or ends exactly as the statements do. */
  predicate AgreesEnd(run: Run, ran: Ran) {
    run.Stuck? || (ran.end.Some? && run == Done(Outcome(ran.trace, ran.end.value)))
  }

  /** As AgreesEnd, where reaching the end of the statements is a return without a value. */
  predicate Agrees(run: Run, ran: Ran) {
    run.Stuck? || run == Done(Outcome(ran.trace, if ran.end.Some? then ran.end.value else ReturnedVoid))
  }

  lemma PrependAgrees(trace: seq<Event>, run: Run, ran: Ran)
    ensures Agrees(run, ran) ==> Agrees(Prepend(trace, run), Then(Ran(trace, None), ran))
    ensures AgreesEnd(run, ran) ==> AgreesEnd(Prepend(trace, run), Then(Ran(trace, None), ran))
  {
  }

  /** What may follow the statements of a block so that it still ends as its last instruction does. */
  predicate Closes(m: Method, op: Op, block: Block, tail: Stmts)
    requires IsTerminal(op)
  {
    match op
    case ReturnReg(_) => m.IsVoid() || (block.expr.Some? && tail == [Return(block.expr.value)])
    case ReturnVoid => !m.IsVoid() || tail == [] || tail == [ReturnNothing]
    case _ => true
  }

  /** A block with a terminal instruction is a block without one, followed by it. */
  lemma {:induction false} LinearLast(m: Method, a: nat, b: nat, values: Values)
    requires a <= b <= |m.code|
    requires Linear(m, a, b, values).ok && Linear(m, a, b, values).block.ends
    ensures a < b && IsTerminal(m.code[b - 1].op)
    ensures var r := Linear(m, a, b, values);
            var front := Linear(m, a, b - 1, values);
            var last := TerminalBlock(m, m.code[b - 1].op, front.values);
            && front.ok && !front.block.ends
            && r.block == Block(front.block.stmts + last.stmts, last.expr, true)
    decreases b - a
  {
    hide Symbolic, TerminalBlock;
    var op := m.code[a].op;
    if IsTerminal(op) {
      var last := TerminalBlock(m, op, values);
      assert [] + last.stmts == last.stmts;
    } else {
      var step := Symbolic(m, op, values).value;
      LinearLast(m, a + 1, b, step.0);
      var front := Linear(m, a + 1, b - 1, step.0);
      var last := TerminalBlock(m, m.code[b - 1].op, front.values);
      assert step.1 + (front.block.stmts + last.stmts) == (step.1 + front.block.stmts) + last.stmts;
    }
  }

  /** The last instruction of a block against the statements printed for it. */
  lemma TerminalAgrees(m: Method, pc: nat, values: Values, regs: Regs, call: Call, fuel: nat, tail: Stmts)
    requires pc < |m.code| && IsTerminal(m.code[pc].op) && fuel > 0
    requires Tracks(m, values, regs, call)
    requires var last := TerminalBlock(m, m.code[pc].op, values);
             Closes(m, m.code[pc].op, last, tail) && SafeStmts(last.stmts + tail, call.descs)
    ensures var run := RunFrom(m, pc, regs, fuel);
            var ran := RunStmts(TerminalBlock(m, m.code[pc].op, values).stmts + tail, call);
            && Agrees(run, ran)
            && (tail != [] || m.code[pc].op.ThrowReg? || !m.IsVoid() ==> AgreesEnd(run, ran))
  {
    var op := m.code[pc].op;
    var last := TerminalBlock(m, op, values);
    var stmts := last.stmts + tail;
    match op
    case ReturnReg(src) =>
      if !m.IsVoid() {
        assert stmts == [Return(ValueOf(m, values, src))];
        assert SafeStmt(stmts[0], call.descs);
        RunOne(stmts[0], call);
      }
    case ReturnVoid =>
      if m.IsVoid() {
        assert stmts == tail;
        if tail != [] { RunOne(ReturnNothing, call); }
      }
    case ThrowReg(src) =>
      assert stmts[0] == Throw(ValueOf(m, values, src));
      assert SafeStmt(stmts[0], call.descs);
      assert RunStmts(stmts, call) == RunStmt(stmts[0], call);
  }

  /** A recovered block that ends the method, with any admissible closing statement, ends as the bytecode does. */
  lemma EndingBlockAgrees(m: Method, a: nat, b: nat, values: Values, regs: Regs, call: Call, fuel: nat, tail: Stmts)
    requires a <= b <= |m.code| && fuel >= b - a
    requires Tracks(m, values, regs, call)
    requires Linear(m, a, b, values).ok && Linear(m, a, b, values).block.ends
    requires b > a && IsTerminal(m.code[b - 1].op)
    requires Closes(m, m.code[b - 1].op, Linear(m, a, b, values).block, tail)
    requires SafeStmts(Linear(m, a, b, values).block.stmts + tail, call.descs)
    ensures var run := RunFrom(m, a, regs, fuel);
            var ran := RunStmts(Linear(m, a, b, values).block.stmts + tail, call);
            && Agrees(run, ran)
            && (tail != [] || m.code[b - 1].op.ThrowReg? || !m.IsVoid() ==> AgreesEnd(run, ran))
  {
    hide Tracks, TerminalBlock, RunFrom, Linear, ExecuteAll, RunStmts;
    LinearLast(m, a, b, values);
    var front := Linear(m, a, b - 1, values);
    var last := TerminalBlock(m, m.code[b - 1].op, front.values);
    assert (front.block.stmts + last.stmts) + tail == front.block.stmts + (last.stmts + tail);
    SafeStmtsConcat(front.block.stmts, last.stmts + tail, call.descs);
    LinearIffSimple(m, a, b - 1, values);
    LinearRuns(m, a, b - 1, regs, fuel);
    if ExecuteAll(m, a, b - 1, regs).Some? {
      var done := ExecuteAll(m, a, b - 1, regs).value;
      LinearTracks(m, a, b - 1, values, regs, call);
      TerminalAgrees(m, b - 1, front.values, done.0, call, fuel - (b - 1 - a), tail);
      RunStmtsConcat(front.block.stmts, last.stmts + tail, call);
      PrependAgrees(done.1, RunFrom(m, b - 1, done.0, fuel - (b - 1 - a)), RunStmts(last.stmts + tail, call));
    }
  }

  /** A straight-line block in front of code that agrees with some statements. */
  lemma BlockThen(m: Method, a: nat, b: nat, values: Values, regs: Regs, call: Call, fuel: nat, rest: Ran)
    requires a <= b <= |m.code| && fuel >= b - a
    requires Tracks(m, values, regs, call)
    requires Linear(m, a, b, values).ok && !Linear(m, a, b, values).block.ends
    requires SafeStmts(Linear(m, a, b, values).block.stmts, call.descs)
    ensures var run := RunFrom(m, a, regs, fuel);
            var ran := Then(RunStmts(Linear(m, a, b, values).block.stmts, call), rest);
            match ExecuteAll(m, a, b, regs)
            case None => run.Stuck?
            case Some(done) =>
              && Tracks(m, Linear(m, a, b, values).values, done.0, call)
              && (Agrees(RunFrom(m, b, done.0, fuel - (b - a)), rest) ==> Agrees(run, ran))
              && (AgreesEnd(RunFrom(m, b, done.0, fuel - (b - a)), rest) ==> AgreesEnd(run, ran))
  {
    hide Tracks, RunFrom, Linear, ExecuteAll, RunStmts, ConditionOf;
    LinearIffSimple(m, a, b, values);
    LinearRuns(m, a, b, regs, fuel);
    if ExecuteAll(m, a, b, regs).Some? {
      var done := ExecuteAll(m, a, b, regs).value;
      LinearTracks(m, a, b, values, regs, call);
      PrependAgrees(done.1, RunFrom(m, b, done.0, fuel - (b - a)), rest);
    }
  }

  /** The machine takes a branch exactly when the condition holds, if that condition may be printed. */
  lemma BranchFollowsCondition(m: Method, i: nat, values: Values, regs: Regs, call: Call, fuel: nat)
    requires i < |m.code| && IsIf(m.code[i].op) && fuel > 0
    requires Tracks(m, values, regs, call)
    requires IndexOf(m.code, m.code[i].op.to).Some?
    ensures var run := RunFrom(m, i, regs, fuel);
            var c := ConditionOf(m, m.code[i].op, values);
            || run.Stuck?
            || (run == RunFrom(m, IndexOf(m.code, m.code[i].op.to).value, regs, fuel - 1)
                && (SafeCond(c, call.descs) ==> Holds(c, call)))
            || (run == RunFrom(m, i + 1, regs, fuel - 1) && (SafeCond(c, call.descs) ==> !Holds(c, call)))
  {
    PrependNothing(RunFrom(m, i + 1, regs, fuel - 1));
  }

  /** A goto moves control and nothing else. */
  lemma GotoRuns(m: Method, j: nat, regs: Regs, fuel: nat)
    requires j < |m.code| && m.code[j].op.Goto? && fuel > 0
    requires IndexOf(m.code, m.code[j].op.to).Some?
    ensures RunFrom(m, j, regs, fuel) == RunFrom(m, IndexOf(m.code, m.code[j].op.to).value, regs, fuel - 1)
  {
  }

  // ----- The theorem -----

  /** On this call the bytecode is stuck, or ends exactly as the body does; it never runs on. */
  predicate Preserves(m: Method, body: Body, call: Call)
    requires CallOf(m, call)
  {
    var run := RunFrom(m, 0, Entry(m, call), |m.code|);
    run.Stuck? || run == Done(RunBody(body, call))
  }

  /** Prefix, branch and two sides: each side is only asked about when the branch goes its way. */
  lemma IfThenPreserves(m: Method, i: nat, body: Body, call: Call)
    requires CallOf(m, call) && ForwardIf(m, i) && Opens(m, i)
    requires var prefix := Linear(m, 0, i, map[]);
             && body.IfThen? && body.prefix == prefix.block.stmts
             && body.c == ConditionOf(m, m.code[i].op, prefix.values)
             && SafeBody(body, call.descs)
             && (ExecuteAll(m, 0, i, Entry(m, call)).Some? ==>
                   var regs := ExecuteAll(m, 0, i, Entry(m, call)).value.0;
                   var fuel := |m.code| - i - 1;
                   && (Holds(body.c, call) ==> AgreesEnd(RunFrom(m, TargetOf(m, i), regs, fuel), RunStmts(body.thn, call)))
                   && (!Holds(body.c, call) ==> Agrees(RunFrom(m, i + 1, regs, fuel), RunStmts(body.rest, call))))
    ensures Preserves(m, body, call)
  {
    hide Tracks, RunFrom, Linear, ExecuteAll, RunStmts, ConditionOf;
    EntryTracked(m, call);
    var prefix := Linear(m, 0, i, map[]);
    var rest := if Holds(body.c, call) then Then(RunStmts(body.thn, call), RunStmts(body.rest, call)) else RunStmts(body.rest, call);
    BlockThen(m, 0, i, map[], Entry(m, call), call, |m.code|, rest);
    if ExecuteAll(m, 0, i, Entry(m, call)).Some? {
      BranchFollowsCondition(m, i, prefix.values, ExecuteAll(m, 0, i, Entry(m, call)).value.0, call, |m.code| - i);
    }
  }

  /** The registers after the prefix, with the stored expressions tracking them. */
  lemma PrefixTracked(m: Method, i: nat, call: Call)
    requires CallOf(m, call) && i <= |m.code| && Opens(m, i)
    requires SafeStmts(Linear(m, 0, i, map[]).block.stmts, call.descs)
    requires ExecuteAll(m, 0, i, Entry(m, call)).Some?
    ensures Tracks(m, Linear(m, 0, i, map[]).values, ExecuteAll(m, 0, i, Entry(m, call)).value.0, call)
  {
    EntryTracked(m, call);
    LinearTracks(m, 0, i, map[], Entry(m, call), call);
  }

  /** Control at b is at the instruction at `at`, either because they are one or by a goto. */
  predicate Leads(m: Method, b: nat, at: nat) {
    && b < |m.code| && at < |m.code|
    && (b == at || (m.code[b].op.Goto? && IndexOf(m.code, m.code[b].op.to) == Some(at)))
  }

  function Hop(b: nat, at: nat): nat {
    if b == at then 0 else 1
  }

  lemma LeadsRuns(m: Method, b: nat, at: nat, regs: Regs, fuel: nat)
    requires Leads(m, b, at) && fuel >= Hop(b, at)
    ensures b != at ==> fuel > 0 && RunFrom(m, b, regs, fuel) == RunFrom(m, at, regs, fuel - 1)
    ensures RunFrom(m, b, regs, fuel) == RunFrom(m, at, regs, fuel - Hop(b, at))
  {
    if b != at { GotoRuns(m, b, regs, fuel); }
  }

  /** A straight-line block, possibly a goto, and then code that agrees with some statements on the registers reached. */
  lemma BlockLeadsTo(m: Method, a: nat, b: nat, at: nat, values: Values, regs: Regs, call: Call, fuel: nat, rest: Ran)
    requires a <= b <= |m.code| && Leads(m, b, at) && fuel >= b - a + Hop(b, at)
    requires Tracks(m, values, regs, call)
    requires Linear(m, a, b, values).ok && !Linear(m, a, b, values).block.ends
    requires SafeStmts(Linear(m, a, b, values).block.stmts, call.descs)
    requires ExecuteAll(m, a, b, regs).Some? ==>
               AgreesEnd(RunFrom(m, at, ExecuteAll(m, a, b, regs).value.0, fuel - (b - a) - Hop(b, at)), rest)
    ensures AgreesEnd(RunFrom(m, a, regs, fuel), Then(RunStmts(Linear(m, a, b, values).block.stmts, call), rest))
  {
    hide Tracks, RunFrom, Linear, ExecuteAll, RunStmts, ConditionOf;
    BlockThen(m, a, b, values, regs, call, fuel, rest);
    if ExecuteAll(m, a, b, regs).Some? {
      LeadsRuns(m, b, at, ExecuteAll(m, a, b, regs).value.0, fuel - (b - a));
    }
  }

  /** A straight-line block whose control ends at a return. */
  lemma BlockReturnAgrees(m: Method, a: nat, b: nat, at: nat, values: Values, regs: Regs, call: Call, fuel: nat, tail: Stmts)
    requires a <= b <= |m.code| && Leads(m, b, at) && fuel >= b - a + Hop(b, at) + 1
    requires IsTerminal(m.code[at].op) && tail != []
    requires Tracks(m, values, regs, call)
    requires Linear(m, a, b, values).ok && !Linear(m, a, b, values).block.ends
    requires var r := Linear(m, a, b, values);
             && m.code[at].op.ReturnReg? ==> m.IsVoid() || tail == [Return(ValueOf(m, r.values, m.code[at].op.src))]
    requires m.code[at].op.ReturnVoid? ==> !m.IsVoid() || tail == [ReturnNothing]
    requires !m.code[at].op.ThrowReg?
    requires SafeStmts(Linear(m, a, b, values).block.stmts + tail, call.descs)
    ensures AgreesEnd(RunFrom(m, a, regs, fuel), RunStmts(Linear(m, a, b, values).block.stmts + tail, call))
  {
    hide Tracks, RunFrom, Linear, ExecuteAll, RunStmts, ConditionOf;
    var r := Linear(m, a, b, values);
    SafeStmtsConcat(r.block.stmts, tail, call.descs);
    RunStmtsConcat(r.block.stmts, tail, call);
    if ExecuteAll(m, a, b, regs).Some? {
      LinearTracks(m, a, b, values, regs, call);
      assert [] + tail == tail;
      TerminalAgrees(m, at, r.values, ExecuteAll(m, a, b, regs).value.0, call, fuel - (b - a) - Hop(b, at), tail);
    }
    BlockLeadsTo(m, a, b, at, values, regs, call, fuel, RunStmts(tail, call));
  }

  // ----- One lemma for each shape -----

  lemma IfGotoReturnPreserves(m: Method, i: nat, call: Call)
    requires CallOf(m, call)
    requires IfGotoReturnAt(m, i).Some? && SafeBody(IfGotoReturnAt(m, i).value, call.descs)
    ensures Preserves(m, IfGotoReturnAt(m, i).value, call)
  {
    hide Tracks, RunFrom, Linear, ExecuteAll, RunStmts, ConditionOf;
    var t := TargetOf(m, i);
    var j := ForwardGoto(m, i + 1, t, None);
    var join := IndexOf(m.code, m.code[j].op.to).value;
    var prefix := Linear(m, 0, i, map[]);
    var body := IfGotoReturnAt(m, i).value;
    if ExecuteAll(m, 0, i, Entry(m, call)).Some? {
      var regs := ExecuteAll(m, 0, i, Entry(m, call)).value.0;
      PrefixTracked(m, i, call);
      var fuel: nat := |m.code| - i - 1;
      var fall := Linear(m, i + 1, j, prefix.values);
      var target := Linear(m, t, join, prefix.values);
      BlockReturnAgrees(m, t, join, join, prefix.values, regs, call, fuel, [Return(ValueOf(m, target.values, m.code[join].op.src))]);
      BlockReturnAgrees(m, i + 1, j, join, prefix.values, regs, call, fuel, [Return(ValueOf(m, fall.values, m.code[join].op.src))]);
    }
    IfThenPreserves(m, i, body, call);
  }

  lemma VoidIfGotoPreserves(m: Method, i: nat, call: Call)
    requires CallOf(m, call)
    requires VoidIfGotoAt(m, i).Some? && SafeBody(VoidIfGotoAt(m, i).value, call.descs)
    ensures Preserves(m, VoidIfGotoAt(m, i).value, call)
  {
    hide Tracks, RunFrom, Linear, ExecuteAll, RunStmts, ConditionOf;
    var t := TargetOf(m, i);
    var j := ForwardGoto(m, i + 1, t, None);
    var join := IndexOf(m.code, m.code[j].op.to).value;
    var prefix := Linear(m, 0, i, map[]);
    var body := VoidIfGotoAt(m, i).value;
    if ExecuteAll(m, 0, i, Entry(m, call)).Some? {
      var regs := ExecuteAll(m, 0, i, Entry(m, call)).value.0;
      PrefixTracked(m, i, call);
      var fuel: nat := |m.code| - i - 1;
      BlockReturnAgrees(m, t, join, join, prefix.values, regs, call, fuel, [ReturnNothing]);
      FallsOffAgrees(m, i + 1, j, join, prefix.values, regs, call, fuel);
    }
    IfThenPreserves(m, i, body, call);
  }

  lemma ReturnVoidRuns(m: Method, pc: nat, regs: Regs, fuel: nat)
    requires pc < |m.code| && m.code[pc].op.ReturnVoid? && m.IsVoid() && fuel > 0
    ensures RunFrom(m, pc, regs, fuel) == Done(Outcome([], ReturnedVoid))
  {
  }

  /** A block whose control ends at return-void, printed without a statement for it. */
  lemma FallsOffAgrees(m: Method, a: nat, b: nat, at: nat, values: Values, regs: Regs, call: Call, fuel: nat)
    requires a <= b <= |m.code| && Leads(m, b, at) && fuel >= b - a + Hop(b, at) + 1
    requires m.code[at].op.ReturnVoid? && m.IsVoid()
    requires Tracks(m, values, regs, call)
    requires Linear(m, a, b, values).ok && !Linear(m, a, b, values).block.ends
    requires SafeStmts(Linear(m, a, b, values).block.stmts, call.descs)
    ensures Agrees(RunFrom(m, a, regs, fuel), RunStmts(Linear(m, a, b, values).block.stmts, call))
  {
    hide Tracks, RunFrom, Linear, ExecuteAll, RunStmts, ConditionOf;
    var nothing := Ran([], None);
    BlockThen(m, a, b, values, regs, call, fuel, nothing);
    if ExecuteAll(m, a, b, regs).Some? {
      LeadsRuns(m, b, at, ExecuteAll(m, a, b, regs).value.0, fuel - (b - a));
      ReturnVoidRuns(m, at, ExecuteAll(m, a, b, regs).value.0, fuel - (b - a) - Hop(b, at));
    }
    var ran := RunStmts(Linear(m, a, b, values).block.stmts, call);
    assert ran.trace + [] == ran.trace;
  }

  lemma VoidGuardPreserves(m: Method, i: nat, call: Call)
    requires CallOf(m, call)
    requires VoidGuardAt(m, i).Some? && SafeBody(VoidGuardAt(m, i).value, call.descs)
    ensures Preserves(m, VoidGuardAt(m, i).value, call)
  {
    hide Tracks, RunFrom, Linear, ExecuteAll, RunStmts, ConditionOf;
    var t := TargetOf(m, i);
    var prefix := Linear(m, 0, i, map[]);
    var body := VoidGuardAt(m, i).value;
    if ExecuteAll(m, 0, i, Entry(m, call)).Some? {
      var regs := ExecuteAll(m, 0, i, Entry(m, call)).value.0;
      PrefixTracked(m, i, call);
      var fuel: nat := |m.code| - i - 1;
      RunOne(ReturnNothing, call);
      ReturnVoidRuns(m, t, regs, fuel);
      FallsOffAgrees(m, i + 1, t, t, prefix.values, regs, call, fuel);
    }
    IfThenPreserves(m, i, body, call);
  }

  lemma AssignedReturnPreserves(m: Method, i: nat, call: Call)
    requires CallOf(m, call)
    requires AssignedReturnAt(m, i).Some? && SafeBody(AssignedReturnAt(m, i).value, call.descs)
    ensures Preserves(m, AssignedReturnAt(m, i).value, call)
  {
    hide Tracks, RunFrom, Linear, ExecuteAll, RunStmts, ConditionOf;
    var t := TargetOf(m, i);
    var prefix := Linear(m, 0, i, map[]);
    var fall := Linear(m, i + 1, t, prefix.values);
    var body := AssignedReturnAt(m, i).value;
    if ExecuteAll(m, 0, i, Entry(m, call)).Some? {
      var regs := ExecuteAll(m, 0, i, Entry(m, call)).value.0;
      PrefixTracked(m, i, call);
      var fuel: nat := |m.code| - i - 1;
      assert [] + body.thn == body.thn;
      TerminalAgrees(m, t, prefix.values, regs, call, fuel, body.thn);
      BlockReturnAgrees(m, i + 1, t, t, prefix.values, regs, call, fuel, [Return(ValueOf(m, fall.values, m.code[t].op.src))]);
    }
    IfThenPreserves(m, i, body, call);
  }

  /** A block that returns a value ends with a return instruction. */
  lemma ReturnsByRegister(m: Method, a: nat, b: nat, values: Values)
    requires a <= b <= |m.code|
    requires Linear(m, a, b, values).ok && Linear(m, a, b, values).block.ends
    ensures a < b && IsTerminal(m.code[b - 1].op)
    ensures Linear(m, a, b, values).block.expr.Some? <==> m.code[b - 1].op.ReturnReg?
    ensures m.code[b - 1].op.ThrowReg? ==>
              var ss := Linear(m, a, b, values).block.stmts; ss != [] && ss[|ss| - 1].Throw?
  {
    LinearLast(m, a, b, values);
  }

  /** Fall-through code and then the shared tail, duplicated behind it. */
  lemma FallSideAgrees(m: Method, i: nat, s: Sides, regs: Regs, call: Call, fuel: nat)
    requires ForwardIf(m, i) && s == ReturningSides(m, i) && s.Sides? && !m.IsVoid()
    requires Tracks(m, s.prefix.values, regs, call)
    requires fuel == |m.code| - i - 1
    requires SafeStmts(s.fall.block.stmts + (s.fallTail.block.stmts + [Return(s.fallTail.block.expr.value)]), call.descs)
    ensures AgreesEnd(RunFrom(m, i + 1, regs, fuel),
                      RunStmts(s.fall.block.stmts + (s.fallTail.block.stmts + [Return(s.fallTail.block.expr.value)]), call))
  {
    hide Tracks, RunFrom, Linear, ExecuteAll, RunStmts, ConditionOf;
    var t := TargetOf(m, i);
    var n := |m.code|;
    var tail := [Return(s.fallTail.block.expr.value)];
    var rest := RunStmts(s.fallTail.block.stmts + tail, call);
    SafeStmtsConcat(s.fall.block.stmts, s.fallTail.block.stmts + tail, call.descs);
    RunStmtsConcat(s.fall.block.stmts, s.fallTail.block.stmts + tail, call);
    ReturnsByRegister(m, t, n, s.fall.values);
    if ExecuteAll(m, i + 1, t, regs).Some? {
      LinearTracks(m, i + 1, t, s.prefix.values, regs, call);
      EndingBlockAgrees(m, t, n, s.fall.values, ExecuteAll(m, i + 1, t, regs).value.0, call, n - t, tail);
    }
    BlockLeadsTo(m, i + 1, t, t, s.prefix.values, regs, call, fuel, rest);
  }

  lemma TargetSideAgrees(m: Method, i: nat, s: Sides, regs: Regs, call: Call, fuel: nat)
    requires ForwardIf(m, i) && s == ReturningSides(m, i) && s.Sides? && !m.IsVoid()
    requires Tracks(m, s.prefix.values, regs, call)
    requires fuel == |m.code| - i - 1
    requires SafeStmts(s.target.block.stmts + [Return(s.target.block.expr.value)], call.descs)
    ensures AgreesEnd(RunFrom(m, TargetOf(m, i), regs, fuel),
                      RunStmts(s.target.block.stmts + [Return(s.target.block.expr.value)], call))
  {
    hide Tracks, RunFrom, Linear, ExecuteAll, RunStmts, ConditionOf;
    ReturnsByRegister(m, TargetOf(m, i), |m.code|, s.prefix.values);
    EndingBlockAgrees(m, TargetOf(m, i), |m.code|, s.prefix.values, regs, call, fuel, [Return(s.target.block.expr.value)]);
  }

  lemma SidesPreserve(m: Method, i: nat, call: Call)
    requires CallOf(m, call) && ForwardIf(m, i) && !m.IsVoid()
    requires ReturningSides(m, i).Sides?
    requires SafeBody(SidesBody(m, i, ReturningSides(m, i)), call.descs)
    ensures Preserves(m, SidesBody(m, i, ReturningSides(m, i)), call)
  {
    hide Tracks, RunFrom, Linear, ExecuteAll, RunStmts, ConditionOf;
    var s := ReturningSides(m, i);
    if ExecuteAll(m, 0, i, Entry(m, call)).Some? {
      var regs := ExecuteAll(m, 0, i, Entry(m, call)).value.0;
      PrefixTracked(m, i, call);
      TargetSideAgrees(m, i, s, regs, call, |m.code| - i - 1);
      FallSideAgrees(m, i, s, regs, call, |m.code| - i - 1);
    }
    IfThenPreserves(m, i, SidesBody(m, i, s), call);
  }

  lemma IfInitReturnPreserves(m: Method, i: nat, call: Call)
    requires CallOf(m, call)
    requires IfInitReturnAt(m, i).Some? && SafeBody(IfInitReturnAt(m, i).value, call.descs)
    ensures Preserves(m, IfInitReturnAt(m, i).value, call)
  {
    hide Tracks, RunFrom, Linear, ExecuteAll, RunStmts, ConditionOf;
    SidesPreserve(m, i, call);
  }

  lemma PlainIfReturnPreserves(m: Method, i: nat, call: Call)
    requires CallOf(m, call)
    requires PlainIfReturnAt(m, i).Some? && SafeBody(PlainIfReturnAt(m, i).value, call.descs)
    ensures Preserves(m, PlainIfReturnAt(m, i).value, call)
  {
    hide Tracks, RunFrom, Linear, ExecuteAll, RunStmts, ConditionOf;
    var t := TargetOf(m, i);
    var prefix := Linear(m, 0, i, map[]);
    var fall := Linear(m, i + 1, t, prefix.values);
    var target := Linear(m, t, |m.code|, prefix.values);
    var body := PlainIfReturnAt(m, i).value;
    if ExecuteAll(m, 0, i, Entry(m, call)).Some? {
      var regs := ExecuteAll(m, 0, i, Entry(m, call)).value.0;
      PrefixTracked(m, i, call);
      var fuel: nat := |m.code| - i - 1;
      ReturnsByRegister(m, i + 1, t, prefix.values);
      ReturnsByRegister(m, t, |m.code|, prefix.values);
      EndingBlockAgrees(m, t, |m.code|, prefix.values, regs, call, fuel, [ReturnOf(target.block.expr)]);
      EndingBlockAgrees(m, i + 1, t, prefix.values, regs, call, fuel, [ReturnOf(fall.block.expr)]);
    }
    IfThenPreserves(m, i, body, call);
  }

  /** Without statements on either side, one return of a conditional expression does what the two returns do. */
  lemma TernaryReturn(prefix: Stmts, c: Cond, t: Expr, f: Expr, call: Call)
    requires Fits(call) && SafeBody(Straight(prefix + [Return(Ternary(c, t, f))]), call.descs)
    ensures SafeBody(IfThen(prefix, c, [] + [Return(t)], [] + ([] + [Return(f)])), call.descs)
    ensures RunBody(Straight(prefix + [Return(Ternary(c, t, f))]), call)
         == RunBody(IfThen(prefix, c, [] + [Return(t)], [] + ([] + [Return(f)])), call)
  {
    var last := [Return(Ternary(c, t, f))];
    SafeStmtsConcat(prefix, last, call.descs);
    assert SafeStmt(last[0], call.descs);
    assert [] + [Return(t)] == [Return(t)] && [] + ([] + [Return(f)]) == [Return(f)];
    TernaryPicks(c, t, f, call);
    RunStmtsConcat(prefix, last, call);
    RunOne(last[0], call);
    RunOne(Return(t), call);
    RunOne(Return(f), call);
  }

  lemma FallThroughReturnPreserves(m: Method, i: nat, call: Call)
    requires CallOf(m, call)
    requires FallThroughReturnAt(m, i).Some? && SafeBody(FallThroughReturnAt(m, i).value, call.descs)
    ensures Preserves(m, FallThroughReturnAt(m, i).value, call)
  {
    hide Tracks, RunFrom, Linear, ExecuteAll, RunStmts, ConditionOf, RunBody, SafeBody;
    var s := ReturningSides(m, i);
    if s.target.block.stmts == [] && s.fall.block.stmts == [] && s.fallTail.block.stmts == [] {
      var c := ConditionOf(m, m.code[i].op, s.prefix.values);
      TernaryReturn(s.prefix.block.stmts, c, s.target.block.expr.value, s.fallTail.block.expr.value, call);
    }
    SidesPreserve(m, i, call);
  }

  lemma LinearBodyPreserves(m: Method, call: Call)
    requires CallOf(m, call)
    requires LinearBody(m).Some? && SafeBody(LinearBody(m).value, call.descs)
    ensures Preserves(m, LinearBody(m).value, call)
  {
    hide Tracks, RunFrom, Linear, ExecuteAll, RunStmts;
    EntryTracked(m, call);
    var r := Linear(m, 0, |m.code|, map[]);
    ReturnsByRegister(m, 0, |m.code|, map[]);
    var tail: Stmts := if r.block.expr.Some? then [Return(r.block.expr.value)] else [];
    assert r.block.stmts + [] == r.block.stmts;
    EndingBlockAgrees(m, 0, |m.code|, map[], Entry(m, call), call, |m.code|, tail);
  }
}
