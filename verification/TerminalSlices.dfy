module TerminalSlices {
  // Slices that run to the first terminal instruction, straight-line or guarded, and the two shapes built from them.
  //
  // In a void method a slice that is not straight-line is evaluated a second time, in guarded form, from the value
  // map the failed first attempt left behind. What is printed is then what the code means exactly if every register
  // that is live at the start of the slice still has its expression in that map.

  import opened MachineInts
  import opened JavaBody
  import opened DalvikMachine
  import opened RegisterLayout
  import opened LinearRecovery
  import opened BodyShapes
  import opened NamedRegisters
  import opened BodiesPreserved
  import opened Liveness
  import opened FollowedPaths
  import opened Options

  lemma {:induction false} GuardedShape(m: Method, idx: nat, last: nat, values: Values)
    requires idx <= last < |m.code|
    requires GuardedFrom(m, idx, last, values).Some?
    ensures NoThrow(GuardedFrom(m, idx, last, values).value)
    ensures forall p :: idx <= p < last ==> IsSimple(m.code[p].op) || IsIf(m.code[p].op)
    decreases last - idx
  {
    hide Linear, IsSimple, ConditionOf;
    if idx < last {
      var g := NextIf(m, idx, last);
      LinearIffSimple(m, idx, g, values);
      FrontHasNoThrow(m, idx, g, values);
      if g < last { GuardedShape(m, g + 1, last, Linear(m, idx, g, values).values); }
    }
  }

  // ----- Guarded blocks -----

  lemma GuardedFromStep(m: Method, idx: nat, last: nat, values: Values)
    requires idx <= last < |m.code| && GuardedFrom(m, idx, last, values).Some?
    ensures idx == last ==> GuardedFrom(m, idx, last, values).value == []
    ensures idx < last ==>
              var g := NextIf(m, idx, last);
              var chunk := Linear(m, idx, g, values);
              && chunk.ok && !chunk.block.ends
              && (g == last ==> GuardedFrom(m, idx, last, values).value == chunk.block.stmts)
              && (g < last ==>
                    && m.code[g].op.to == m.code[last].offset
                    && GuardedFrom(m, g + 1, last, chunk.values).Some?
                    && GuardedFrom(m, idx, last, values).value
                    == chunk.block.stmts + [ReturnIf(ConditionOf(m, m.code[g].op, chunk.values), None)]
                       + GuardedFrom(m, g + 1, last, chunk.values).value)
  {
  }

  /** Followed along a call, guarded chunks end as their printed form does. */
  lemma {:induction false} FollowedGuarded(m: Method, idx: nat, last: nat, values: Values, call: Call, fuel: nat)
    requires idx <= last < |m.code| && Tiled(m.code)
    requires m.code[last].op.ReturnVoid? && m.IsVoid() && fuel >= last - idx + 1
    requires GuardedFrom(m, idx, last, values).Some?
    ensures AgreesEnd(Followed(m, idx, values, call, fuel), RunStmts(GuardedFrom(m, idx, last, values).value + [ReturnNothing], call))
    decreases last - idx
  {
    hide Followed, Linear, RunStmts, ConditionOf, GuardedFrom;
    RunOne(ReturnNothing, call);
    GuardedFromStep(m, idx, last, values);
    var g := NextIf(m, idx, last);
    var stmts := GuardedFrom(m, idx, last, values).value;
    if idx == last {
      assert stmts + [ReturnNothing] == [ReturnNothing];
      FollowedEnd(m, last, values, call, fuel);
    } else {
      var chunk := Linear(m, idx, g, values);
      LinearIffSimple(m, idx, g, values);
      if g == last {
        FollowedEnd(m, last, chunk.values, call, fuel - (g - idx));
        FollowedBlock(m, idx, g, values, call, fuel, RunStmts([ReturnNothing], call));
        RunStmtsConcat(chunk.block.stmts, [ReturnNothing], call);
      } else {
        var c := ConditionOf(m, m.code[g].op, chunk.values);
        var rest := GuardedFrom(m, g + 1, last, chunk.values).value;
        var fuel': nat := fuel - (g - idx) - 1;
        OffsetNamesPosition(m.code, last);
        FollowedBranch(m, g, chunk.values, call, fuel' + 1);
        FollowedEnd(m, last, chunk.values, call, fuel');
        FollowedGuarded(m, g + 1, last, chunk.values, call, fuel');
        GuardRuns(c, rest + [ReturnNothing], call);
        var tail := [ReturnIf(c, None)] + (rest + [ReturnNothing]);
        FollowedBlock(m, idx, g, values, call, fuel, RunStmts(tail, call));
        assert stmts + [ReturnNothing] == chunk.block.stmts + tail;
        RunStmtsConcat(chunk.block.stmts, tail, call);
      }
    }
  }

  lemma GuardRuns(c: Cond, rest: Stmts, call: Call)
    ensures RunStmts([ReturnIf(c, None)] + rest, call)
         == if Holds(c, call) then Ran([], Some(ReturnedVoid)) else RunStmts(rest, call)
  {
    hide RunStmts, Holds;
    RunStmtsConcat([ReturnIf(c, None)], rest, call);
    RunOne(ReturnIf(c, None), call);
    ThenNothing(RunStmts(rest, call));
  }

  // ----- The second evaluation -----

  /** The slice as its code means it: the guarded form too starts from the values the slice is entered with. */
  function FreshSlice(m: Method, start: nat, values: Values): Slice {
    if start >= |m.code| then NoSlice
    else
      var end := TerminalEnd(m, start);
      var linear := Linear(m, start, end, values);
      if linear.ok && linear.block.ends then Slice(linear.block, end)
      else if m.IsVoid() then
        var guarded := GuardedVoid(m, start, end, values);
        if guarded.Some? then Slice(guarded.value, end) else NoSlice
      else NoSlice
  }

  /** Every register that is live at the start of the slice still has its expression when the slice is evaluated again. */
  ghost predicate Rereads(m: Method, start: nat, values: Values) {
    start < |m.code| ==>
      var end := TerminalEnd(m, start);
      var linear := Linear(m, start, end, values);
      (linear.ok && linear.block.ends) || SameOn(m, LiveIn(m, start, end - 1, {}), linear.values, values)
  }

  /** What the matcher prints for a slice is what its code means exactly if the second evaluation rereads the same values. */
  lemma SliceIsFresh(m: Method, start: nat, values: Values)
    requires TerminalSlice(m, start, values).Slice?
    ensures FreshSlice(m, start, values).Slice?
    ensures TerminalSlice(m, start, values) == FreshSlice(m, start, values) <==> Rereads(m, start, values)
  {
    hide Linear, GuardedFrom, SameOn, LiveIn;
    var end := TerminalEnd(m, start);
    var linear := Linear(m, start, end, values);
    if !(linear.ok && linear.block.ends) {
      GuardedLive(m, start, end - 1, linear.values, values);
    }
  }

  /** No register that is live at the start of the slice is written in front of its first branch. */
  predicate Undisturbed(m: Method, start: nat) {
    start < |m.code| ==>
      var end := TerminalEnd(m, start);
      forall p :: start <= p < FirstHard(m, start, end) ==> Writes(m.code[p].op) !! LiveIn(m, start, end - 1, {})
  }

  /** The first position from a up to b that is not a simple instruction. */
  function FirstHard(m: Method, a: nat, b: nat): (g: nat)
    requires a <= b <= |m.code|
    ensures a <= g <= b && AllSimple(m, a, g)
    ensures g < b ==> !IsSimple(m.code[g].op)
    decreases b - a
  {
    if a == b || !IsSimple(m.code[a].op) then a else FirstHard(m, a + 1, b)
  }

  /** A failed evaluation leaves the values of the simple instructions it passed. */
  lemma {:induction false} FailureLeaves(m: Method, a: nat, b: nat, values: Values)
    requires a <= b <= |m.code|
    requires !(Linear(m, a, b, values).ok && Linear(m, a, b, values).block.ends)
    ensures Linear(m, a, b, values).values == Linear(m, a, FirstHard(m, a, b), values).values
    decreases b - a
  {
    hide Symbolic;
    if a < b && !IsTerminal(m.code[a].op) {
      SymbolicIffSimple(m, m.code[a].op, values);
      if IsSimple(m.code[a].op) { FailureLeaves(m, a + 1, b, Symbolic(m, m.code[a].op, values).value.0); }
    }
  }

  /** Whatever the values, a slice whose live registers are not written in front of its first branch is reread rightly. */
  lemma UndisturbedRereads(m: Method, start: nat, values: Values)
    requires Undisturbed(m, start)
    ensures Rereads(m, start, values)
  {
    hide Linear, LiveIn, ValueOf;
    if start < |m.code| {
      var end := TerminalEnd(m, start);
      var linear := Linear(m, start, end, values);
      if !(linear.ok && linear.block.ends) {
        FailureLeaves(m, start, end, values);
        var h := FirstHard(m, start, end);
        forall r | r in LiveIn(m, start, end - 1, {}) ensures ValueOf(m, linear.values, r) == ValueOf(m, values, r) {
          LinearKeeps(m, start, h, values, r);
        }
      }
    }
  }

  /** The path through a slice ends as its code, printed afresh, does; and what is printed for it ends the method. */
  lemma SliceFollowed(m: Method, start: nat, values: Values, call: Call, fuel: nat)
    requires Tiled(m.code) && fuel + start >= |m.code|
    requires TerminalSlice(m, start, values).Slice?
    ensures FreshSlice(m, start, values).Slice?
    ensures AgreesEnd(Followed(m, start, values, call, fuel), RunStmts(Printed(FreshSlice(m, start, values).block, m.IsVoid()), call))
    ensures Followed(m, start, values, call, fuel).Stuck?
         || RunStmts(Printed(TerminalSlice(m, start, values).block, m.IsVoid()), call).end.Some?
  {
    hide Linear, GuardedFrom, Followed, RunStmts, LiveIn, SameOn;
    SliceIsFresh(m, start, values);
    var end := TerminalEnd(m, start);
    var linear := Linear(m, start, end, values);
    if linear.ok && linear.block.ends {
      FollowedEnding(m, start, end, values, call, fuel);
    } else {
      FollowedGuarded(m, start, end - 1, values, call, fuel);
      GuardedPrinted(m, start, end - 1, values);
      GuardedPrinted(m, start, end - 1, linear.values);
      EndsWithReturn(GuardedFrom(m, start, end - 1, linear.values).value, call);
    }
  }

  lemma GuardedPrinted(m: Method, idx: nat, last: nat, values: Values)
    requires idx <= last < |m.code| && GuardedFrom(m, idx, last, values).Some?
    ensures var stmts := GuardedFrom(m, idx, last, values).value;
            Printed(Block(stmts, None, true), true) == stmts + [ReturnNothing]
  {
    hide GuardedFrom;
    GuardedShape(m, idx, last, values);
  }

  lemma EndsWithReturn(stmts: Stmts, call: Call)
    ensures RunStmts(stmts + [ReturnNothing], call).end.Some?
  {
    hide RunStmts;
    RunStmtsConcat(stmts, [ReturnNothing], call);
    RunOne(ReturnNothing, call);
  }

  // ----- The shapes -----

  /** On this call the slice, as printed, does what its code means. */
  predicate SliceRight(m: Method, start: nat, values: Values, call: Call) {
    && TerminalSlice(m, start, values).Slice? && FreshSlice(m, start, values).Slice?
    && RunStmts(Printed(TerminalSlice(m, start, values).block, m.IsVoid()), call)
       == RunStmts(Printed(FreshSlice(m, start, values).block, m.IsVoid()), call)
  }

  lemma RereadIsRight(m: Method, start: nat, values: Values, call: Call)
    requires TerminalSlice(m, start, values).Slice? && Rereads(m, start, values)
    ensures SliceRight(m, start, values, call)
  {
    hide TerminalSlice, FreshSlice, Rereads, Printed;
    SliceIsFresh(m, start, values);
  }

  /** A common beginning, and then what the path does and what is printed for it: these decide. */
  lemma DecidedBy(m: Method, body: Body, call: Call, first: Ran, printed: Ran, right: Ran)
    requires CallOf(m, call) && first.end.None?
    requires AgreesEnd(PathOf(m, call), Then(first, right))
    requires PathOf(m, call).Stuck?
          || (printed.end.Some? && RunBody(body, call) == Outcome(Then(first, printed).trace, printed.end.value))
    ensures Preserves(m, body, call) <==> RunFrom(m, 0, Entry(m, call), |m.code|).Stuck? || printed == right
  {
    hide RunFrom, RunBody, Entry, PathOf, Preserves;
    PreservesIffPath(m, body, call);
    PathOrStuck(m, call);
    ThenSame(first, printed, right);
  }

  lemma PathOrStuck(m: Method, call: Call)
    requires CallOf(m, call)
    ensures RunFrom(m, 0, Entry(m, call), |m.code|).Stuck? || RunFrom(m, 0, Entry(m, call), |m.code|) == PathOf(m, call)
  {
    hide RunFrom, Entry, Followed, Named;
    EntryNamed(m, call);
    FollowedIsRun(m, 0, map[], Entry(m, call), call, |m.code|);
  }

  /** The path of a call up to position i, which only straight-line code precedes, and on from there. */
  lemma PathOpens(m: Method, i: nat, call: Call, rest: Ran)
    requires i <= |m.code| && Opens(m, i)
    requires AgreesEnd(Followed(m, i, Linear(m, 0, i, map[]).values, call, |m.code| - i), rest)
    ensures RunStmts(Linear(m, 0, i, map[]).block.stmts, call).end.None?
    ensures AgreesEnd(PathOf(m, call), Then(RunStmts(Linear(m, 0, i, map[]).block.stmts, call), rest))
    ensures Followed(m, i, Linear(m, 0, i, map[]).values, call, |m.code| - i).Stuck? ==> PathOf(m, call).Stuck?
  {
    hide Linear, Followed, RunStmts;
    LinearIffSimple(m, 0, i, map[]);
    FollowedBlock(m, 0, i, map[], call, |m.code|, rest);
    FollowedLinear(m, 0, i, map[], call, |m.code|);
  }

  /** The side of the branch that the call takes. */
  function SideTaken(m: Method, i: nat, call: Call): nat
    requires ForwardIf(m, i)
  {
    if Holds(ConditionOf(m, m.code[i].op, Linear(m, 0, i, map[]).values), call) then TargetOf(m, i) else i + 1
  }

  /** An if/else body preserves the method on a call exactly if the side the call takes is printed as its code means it. */
  lemma IfTerminalExact(m: Method, i: nat, call: Call)
    requires CallOf(m, call) && Tiled(m.code) && IfTerminalAt(m, i).Some?
    ensures Preserves(m, IfTerminalAt(m, i).value, call)
       <==> || RunFrom(m, 0, Entry(m, call), |m.code|).Stuck?
            || SliceRight(m, SideTaken(m, i, call), Linear(m, 0, i, map[]).values, call)
  {
    hide RunFrom, Linear, RunStmts, ConditionOf, TerminalSlice, FreshSlice, Printed, Followed, PathOf, Entry, Preserves, Holds;
    var body := IfTerminalAt(m, i).value;
    var prefix := Linear(m, 0, i, map[]);
    var side := SideTaken(m, i, call);
    SliceFollowed(m, side, prefix.values, call, |m.code| - i - 1);
    FollowedBranch(m, i, prefix.values, call, |m.code| - i);
    var right := RunStmts(Printed(FreshSlice(m, side, prefix.values).block, m.IsVoid()), call);
    var printed := RunStmts(Printed(TerminalSlice(m, side, prefix.values).block, m.IsVoid()), call);
    PathOpens(m, i, call, right);
    DecidedBy(m, body, call, RunStmts(prefix.block.stmts, call), printed, right);
  }

  /** Both slices reread rightly: then the printed if/else is right on every call. */
  lemma IfTerminalPreserves(m: Method, i: nat, call: Call)
    requires CallOf(m, call) && Tiled(m.code) && IfTerminalAt(m, i).Some?
    requires var values := Linear(m, 0, i, map[]).values; Rereads(m, i + 1, values) && Rereads(m, TargetOf(m, i), values)
    ensures Preserves(m, IfTerminalAt(m, i).value, call)
  {
    hide RunFrom, Linear, ConditionOf, TerminalSlice, Rereads, SliceRight, Printed, Entry;
    IfTerminalExact(m, i, call);
    RereadIsRight(m, SideTaken(m, i, call), Linear(m, 0, i, map[]).values, call);
  }

  /** A slice that is recovered contains no switch, so it cannot start before one that only simple code precedes. */
  lemma SliceStartsAfter(m: Method, i: nat, start: nat, values: Values)
    requires i < |m.code| && m.code[i].op.Switch? && AllSimple(m, 0, i)
    requires TerminalSlice(m, start, values).Slice?
    ensures start > i
  {
    hide Linear, GuardedFrom;
    var end := TerminalEnd(m, start);
    var linear := Linear(m, start, end, values);
    forall p | 0 <= p < i ensures !IsTerminal(m.code[p].op) { SimpleIsNotTerminal(m.code[p].op); }
    if linear.ok && linear.block.ends {
      LinearLast(m, start, end, values);
      LinearIffSimple(m, start, end - 1, values);
    } else {
      GuardedShape(m, start, end - 1, linear.values);
    }
    assert IsTerminal(m.code[end - 1].op);
    assert !IsSimple(m.code[i].op) && !IsIf(m.code[i].op);
  }

  lemma {:induction false} CaseBlockAt(m: Method, targets: seq<int>, values: Values, k: nat)
    requires CaseBlocks(m, targets, values).Some? && k < |targets|
    ensures IndexOf(m.code, targets[k]).Some?
    ensures TerminalSlice(m, IndexOf(m.code, targets[k]).value, values).Slice?
    ensures CaseBlocks(m, targets, values).value[k] == TerminalSlice(m, IndexOf(m.code, targets[k]).value, values).block
  {
    hide TerminalSlice;
    if k > 0 { CaseBlockAt(m, targets[1..], values, k - 1); }
  }

  /** The case that the call takes, as a position: that of its label, or the default behind the switch. */
  function CaseTaken(m: Method, i: nat, call: Call): nat
    requires i < |m.code| && m.code[i].op.Switch?
  {
    var op := m.code[i].op;
    var k := CaseIndex(op.keys, Eval(ValueOf(m, Linear(m, 0, i, map[]).values, op.src), call).Number());
    if k < |op.targets| && IndexOf(m.code, op.targets[k]).Some? then IndexOf(m.code, op.targets[k]).value else i + 1
  }

  lemma FollowedSwitch(m: Method, i: nat, values: Values, call: Call, fuel: nat)
    requires i < |m.code| && m.code[i].op.Switch? && fuel > 0
    ensures var op := m.code[i].op;
            var k := CaseIndex(op.keys, Eval(ValueOf(m, values, op.src), call).Number());
            Followed(m, i, values, call, fuel) ==
            if k >= |op.targets| then Followed(m, i + 1, values, call, fuel - 1)
            else if IndexOf(m.code, op.targets[k]).None? then Stuck
            else Followed(m, IndexOf(m.code, op.targets[k]).value, values, call, fuel - 1)
  {
  }

  /** What a printed switch does on a call: its prefix, and then the case the call takes, if that ends the method. */
  lemma SwitchBodyRuns(m: Method, i: nat, call: Call)
    requires SwitchAt(m, i).Some?
    ensures var prefix := Linear(m, 0, i, map[]);
            var start := CaseTaken(m, i, call);
            && start > i && TerminalSlice(m, start, prefix.values).Slice?
            && Followed(m, i, prefix.values, call, |m.code| - i) == Followed(m, start, prefix.values, call, |m.code| - i - 1)
            && var printed := RunStmts(Printed(TerminalSlice(m, start, prefix.values).block, m.IsVoid()), call);
               var first := RunStmts(prefix.block.stmts, call);
               first.end.None? && printed.end.Some? ==>
                 RunBody(SwitchAt(m, i).value, call) == Outcome(Then(first, printed).trace, printed.end.value)
  {
    hide Linear, RunStmts, TerminalSlice, Printed, Followed, ValueOf;
    var op := m.code[i].op;
    var values := Linear(m, 0, i, map[]).values;
    LinearIffSimple(m, 0, i, map[]);
    FollowedSwitch(m, i, values, call, |m.code| - i);
    var k := CaseIndex(op.keys, Eval(ValueOf(m, values, op.src), call).Number());
    if k < |op.targets| {
      CaseBlockAt(m, op.targets, values, k);
      SliceStartsAfter(m, i, IndexOf(m.code, op.targets[k]).value, values);
    }
  }

  /** A switch body preserves the method on a call exactly if the case the call takes is printed as its code means it. */
  lemma SwitchExact(m: Method, i: nat, call: Call)
    requires CallOf(m, call) && Tiled(m.code) && SwitchAt(m, i).Some?
    ensures Preserves(m, SwitchAt(m, i).value, call)
       <==> || RunFrom(m, 0, Entry(m, call), |m.code|).Stuck?
            || SliceRight(m, CaseTaken(m, i, call), Linear(m, 0, i, map[]).values, call)
  {
    hide RunFrom, Linear, RunStmts, RunBody, TerminalSlice, FreshSlice, Printed, Followed, PathOf, Entry, Preserves, CaseTaken;
    var prefix := Linear(m, 0, i, map[]);
    var start := CaseTaken(m, i, call);
    SwitchBodyRuns(m, i, call);
    SliceFollowed(m, start, prefix.values, call, |m.code| - i - 1);
    var right := RunStmts(Printed(FreshSlice(m, start, prefix.values).block, m.IsVoid()), call);
    var printed := RunStmts(Printed(TerminalSlice(m, start, prefix.values).block, m.IsVoid()), call);
    PathOpens(m, i, call, right);
    DecidedBy(m, SwitchAt(m, i).value, call, RunStmts(prefix.block.stmts, call), printed, right);
  }

  /** Every slice of a switch is reread rightly. */
  ghost predicate CasesReread(m: Method, i: nat)
    requires i < |m.code| && m.code[i].op.Switch?
  {
    var values := Linear(m, 0, i, map[]).values;
    && Rereads(m, i + 1, values)
    && forall k | 0 <= k < |m.code[i].op.targets| && IndexOf(m.code, m.code[i].op.targets[k]).Some? ::
         Rereads(m, IndexOf(m.code, m.code[i].op.targets[k]).value, values)
  }

  lemma SwitchPreserves(m: Method, i: nat, call: Call)
    requires CallOf(m, call) && Tiled(m.code) && SwitchAt(m, i).Some? && CasesReread(m, i)
    ensures Preserves(m, SwitchAt(m, i).value, call)
  {
    hide RunFrom, Linear, RunStmts, TerminalSlice, Rereads, SliceRight, Printed, Entry, RunBody, Followed;
    SwitchExact(m, i, call);
    SwitchBodyRuns(m, i, call);
    RereadIsRight(m, CaseTaken(m, i, call), Linear(m, 0, i, map[]).values, call);
  }
}
