module AcceptedShapes {
  // When the writer recovers a body. Each matcher accepts exactly the code of its shape, which is said here of the
  // instructions alone: where the branch leads, where a goto does, and which code between them is straight-line.
  import opened MachineInts
  import opened JavaBody
  import opened DalvikMachine
  import opened RegisterLayout
  import opened LinearRecovery
  import opened BodyShapes
  import opened BodiesPreserved
  import opened Liveness
  import opened Options

  // ----- Code -----

  /** Straight-line code whose last instruction ends the method. */
  predicate Ending(m: Method, a: nat, b: nat) {
    a < b <= |m.code| && AllSimple(m, a, b - 1) && IsTerminal(m.code[b - 1].op)
  }

  /** No instruction has an effect. */
  predicate Silent(m: Method, a: nat, b: nat) {
    forall p :: a <= p < b && p < |m.code| ==> !m.code[p].op.StaticPut? && !m.code[p].op.InvokeStatic?
  }

  /** An instruction whose branch, if it is one, leads to position t. */
  predicate GoesTo(m: Method, p: nat, t: nat) {
    p < |m.code| && t < |m.code| && IsIf(m.code[p].op) && m.code[p].op.to == m.code[t].offset
  }

  predicate GotoTo(m: Method, p: nat, t: nat) {
    p < |m.code| && t < |m.code| && m.code[p].op.Goto? && m.code[p].op.to == m.code[t].offset
  }

  /** Simple instructions, and branches to the position last. */
  predicate Guarded(m: Method, a: nat, last: nat) {
    forall p :: a <= p < last && p < |m.code| ==> IsSimple(m.code[p].op) || GoesTo(m, p, last)
  }

  /** The code from start ends at `end`: straight, or in a void method in a return that branches may lead to as well. */
  predicate Slices(m: Method, start: nat, end: nat) {
    Ending(m, start, end)
    || (m.IsVoid() && start < end <= |m.code| && m.code[end - 1].op.ReturnVoid? && Guarded(m, start, end - 1))
  }

  ghost predicate SlicesBy(m: Method, start: nat, bound: nat) {
    exists end: nat :: end <= bound && Slices(m, start, end)
  }

  /** The branch at i skips code, forwards, to t; only straight-line code is in front of it. */
  predicate Skips(m: Method, i: nat, t: nat) {
    GoesTo(m, i, t) && i + 1 < t && AllSimple(m, 0, i)
  }

  // ----- Blocks -----

  lemma EndingIff(m: Method, a: nat, b: nat, values: Values)
    requires a <= b <= |m.code|
    ensures Linear(m, a, b, values).ok && Linear(m, a, b, values).block.ends <==> Ending(m, a, b)
    ensures Ending(m, a, b) ==> (Linear(m, a, b, values).block.expr.Some? <==> m.code[b - 1].op.ReturnReg?)
  {
    hide Linear, IsSimple;
    if Linear(m, a, b, values).ok && Linear(m, a, b, values).block.ends {
      LinearLast(m, a, b, values);
      LinearIffSimple(m, a, b - 1, values);
    }
    if Ending(m, a, b) {
      LinearEnds(m, a, b, values);
      ReturnsByRegister(m, a, b, values);
    }
  }

  lemma {:induction false} SilentIff(m: Method, a: nat, b: nat, values: Values)
    requires a <= b <= |m.code| && AllSimple(m, a, b)
    ensures Linear(m, a, b, values).block.stmts == [] <==> Silent(m, a, b)
    decreases b - a
  {
    if a < b {
      SymbolicIffSimple(m, m.code[a].op, values);
      SilentStep(m, m.code[a].op, values);
      SilentIff(m, a + 1, b, Symbolic(m, m.code[a].op, values).value.0);
    }
  }

  lemma SilentStep(m: Method, op: Op, values: Values)
    requires Symbolic(m, op, values).Some?
    ensures Symbolic(m, op, values).value.1 == [] <==> !op.StaticPut? && !op.InvokeStatic?
  {
  }

  lemma SimpleOrBranch(op: Op)
    ensures !(IsSimple(op) && IsIf(op)) && !(IsSimple(op) && IsTerminal(op)) && !(IsIf(op) && IsTerminal(op))
    ensures !(IsSimple(op) && op.Goto?)
  {
  }

  /** Guarded chunks are accepted exactly if every instruction is simple or a branch to the return. */
  lemma {:induction false} GuardedIff(m: Method, idx: nat, last: nat, values: Values)
    requires idx <= last < |m.code|
    ensures GuardedFrom(m, idx, last, values).Some? <==> Guarded(m, idx, last)
    decreases last - idx
  {
    hide Linear, IsSimple, ConditionOf;
    if idx < last {
      var g := NextIf(m, idx, last);
      LinearIffSimple(m, idx, g, values);
      forall p | idx <= p < last ensures !(IsSimple(m.code[p].op) && IsIf(m.code[p].op)) { SimpleOrBranch(m.code[p].op); }
      if g < last { GuardedIff(m, g + 1, last, Linear(m, idx, g, values).values); }
    }
  }

  /** A slice is recovered exactly if the code from its start ends so. */
  lemma SliceIff(m: Method, start: nat, values: Values, bound: nat)
    requires bound <= |m.code|
    ensures TerminalSlice(m, start, values).Slice? && TerminalSlice(m, start, values).end <= bound <==> SlicesBy(m, start, bound)
  {
    hide Linear, GuardedFrom, IsSimple;
    if start < |m.code| {
      var end := TerminalEnd(m, start);
      EndingIff(m, start, end, values);
      if start < end { GuardedIff(m, start, end - 1, Linear(m, start, end, values).values); }
      if TerminalSlice(m, start, values).Slice? && end <= bound { assert Slices(m, start, end); }
      if SlicesBy(m, start, bound) {
        var e: nat :| e <= bound && Slices(m, start, e);
        FirstEnd(m, start, e);
      }
    }
  }

  /** The first terminal instruction is the one that such code ends with. */
  lemma FirstEnd(m: Method, start: nat, e: nat)
    requires Slices(m, start, e)
    ensures start < |m.code| && TerminalEnd(m, start) == e
  {
    hide IsSimple, IsTerminal;
    assert IsTerminal(m.code[e - 1].op) by { TerminalOps(m.code[e - 1].op); }
    forall p | start <= p < e - 1 ensures !IsTerminal(m.code[p].op) { SimpleOrBranch(m.code[p].op); }
    FirstEndIs(m, start, e);
  }

  lemma TerminalOps(op: Op)
    ensures op.ReturnVoid? ==> IsTerminal(op)
  {
  }

  lemma {:induction false} FirstEndIs(m: Method, start: nat, e: nat)
    requires start < e <= |m.code| && IsTerminal(m.code[e - 1].op)
    requires forall p :: start <= p < e - 1 ==> !IsTerminal(m.code[p].op)
    ensures TerminalEnd(m, start) == e
    decreases e - start
  {
    if start + 1 < e { FirstEndIs(m, start + 1, e); }
  }

  // ----- Branches and gotos -----

  lemma SkipsIff(m: Method, i: nat)
    requires Tiled(m.code)
    ensures ForwardIf(m, i) && Opens(m, i) ==> Skips(m, i, TargetOf(m, i))
    ensures forall t: nat :: Skips(m, i, t) ==> ForwardIf(m, i) && TargetOf(m, i) == t && Opens(m, i)
  {
    hide Linear, IsSimple, IsIf;
    if i < |m.code| { LinearIffSimple(m, 0, i, map[]); }
    forall t: nat | Skips(m, i, t) ensures ForwardIf(m, i) && TargetOf(m, i) == t && Opens(m, i) {
      OffsetNamesPosition(m.code, t);
    }
  }

  lemma {:induction false} FirstGoto(m: Method, a: nat, b: nat, bound: Option<int>, j: nat)
    requires a <= j < b <= |m.code| && AllSimple(m, a, j)
    requires m.code[j].op.Goto? && m.code[j].op.to > (if bound.Some? then bound.value else m.code[j].offset)
    ensures ForwardGoto(m, a, b, bound) == j
    decreases j - a
  {
    if a < j {
      SimpleOrBranch(m.code[a].op);
      FirstGoto(m, a + 1, b, bound, j);
    }
  }

  /** A goto at j, behind straight-line code after i, to the position e beyond t. */
  predicate LeadsOut(m: Method, i: nat, j: nat, t: nat, e: nat) {
    i < j < t < e && GotoTo(m, j, e) && AllSimple(m, i + 1, j)
  }

  /** The first forward goto in front of t, behind straight-line code, leads beyond t. */
  lemma LeadsOutIff(m: Method, i: nat, t: nat, bound: Option<int>)
    requires Tiled(m.code) && i < t < |m.code| && (bound.None? || bound.value == m.code[t].offset)
    ensures var j := ForwardGoto(m, i + 1, t, bound);
            var join := if j < t then IndexOf(m.code, m.code[j].op.to) else None;
            && (join.Some? && join.value > t && AllSimple(m, i + 1, j) ==> LeadsOut(m, i, j, t, join.value))
            && (forall k: nat, e: nat :: LeadsOut(m, i, k, t, e) ==> j == k && join == Some(e))
  {
    hide IsSimple;
    forall k: nat, e: nat | LeadsOut(m, i, k, t, e)
      ensures ForwardGoto(m, i + 1, t, bound) == k && IndexOf(m.code, m.code[k].op.to) == Some(e)
    {
      FirstGoto(m, i + 1, t, bound, k);
      OffsetNamesPosition(m.code, e);
    }
  }

  // ----- Single assignments -----

  /** From one map to the other the register's expression changes, and no other's. */
  ghost predicate OnlyChange(before: Values, after: Values, r: nat) {
    && r in after && !(r in before && before[r] == after[r])
    && forall q :: q in after && q != r ==> q in before && before[q] == after[q]
  }

  /** Straight-line code without effects that changes what one register carries. */
  ghost predicate Assigns(m: Method, a: nat, b: nat, values: Values, r: nat) {
    a <= b <= |m.code| && AllSimple(m, a, b) && Silent(m, a, b) && OnlyChange(values, Linear(m, a, b, values).values, r)
  }

  lemma AssignsIff(m: Method, a: nat, b: nat, values: Values)
    requires a <= b <= |m.code|
    ensures var s := SingleAssignment(m, a, b, values);
            && (s.Some? ==> Assigns(m, a, b, values, s.value.0))
            && (forall r :: Assigns(m, a, b, values, r) ==> s.Some? && s.value == (r, Linear(m, a, b, values).values[r]))
  {
    hide Linear, IsSimple;
    LinearIffSimple(m, a, b, values);
    if AllSimple(m, a, b) { SilentIff(m, a, b, values); }
    var after := Linear(m, a, b, values).values;
    forall r | Assigns(m, a, b, values, r)
      ensures SingleAssignment(m, a, b, values) == Some((r, after[r]))
    {
      assert ChangedRegs(values, after) == {r};
    }
    var s := SingleAssignment(m, a, b, values);
    if s.Some? { ChangedIsOne(values, after, s.value.0); }
  }

  lemma ChangedIsOne(before: Values, after: Values, r: nat)
    requires |ChangedRegs(before, after)| == 1 && OnlyElement(ChangedRegs(before, after)) == r
    ensures OnlyChange(before, after, r)
  {
    var changed := ChangedRegs(before, after);
    assert r in changed;
    forall q | q in after && q != r ensures q in before && before[q] == after[q] {
      assert q !in changed;
    }
  }

  /** All that the code writes is one register, and it does write that. */
  predicate WritesOnly(m: Method, a: nat, b: nat, r: nat) {
    && a < b <= |m.code| && AllSimple(m, a, b) && Silent(m, a, b)
    && forall p :: a <= p < b ==> Writes(m.code[p].op) == {r}
  }

  /** Nothing in front of i writes the register. */
  predicate Untouched(m: Method, i: nat, r: nat) {
    forall p :: 0 <= p < i && p < |m.code| ==> r !in Writes(m.code[p].op)
  }

  lemma {:induction false} KeysWritten(m: Method, a: nat, b: nat, values: Values, r: nat)
    requires a <= b <= |m.code| && AllSimple(m, a, b)
    ensures var after := Linear(m, a, b, values).values;
            && (forall p :: a <= p < b ==> r !in Writes(m.code[p].op)) ==>
                 (r in after <==> r in values) && (r in after ==> after[r] == values[r])
    ensures (exists p :: a <= p < b && r in Writes(m.code[p].op)) || r in values ==> r in Linear(m, a, b, values).values
    decreases b - a
  {
    hide IsSimple, Symbolic, Writes;
    if a < b {
      assert IsSimple(m.code[a].op);
      SimpleIsNotTerminal(m.code[a].op);
      StepWrites(m, m.code[a].op, values, r);
      KeysWritten(m, a + 1, b, Symbolic(m, m.code[a].op, values).value.0, r);
    }
  }

  lemma StepWrites(m: Method, op: Op, values: Values, r: nat)
    requires IsSimple(op)
    ensures Symbolic(m, op, values).Some?
    ensures var after := Symbolic(m, op, values).value.0;
            && (r !in Writes(op) ==> (r in after <==> r in values) && (r in after ==> after[r] == values[r]))
            && (r in Writes(op) || r in values ==> r in after)
  {
  }

  /** Code that writes one register, which carried nothing before, is a single assignment of it. */
  lemma FreshAssignment(m: Method, a: nat, b: nat, values: Values, r: nat)
    requires WritesOnly(m, a, b, r) && r !in values
    ensures Assigns(m, a, b, values, r)
    ensures SingleAssignment(m, a, b, values).Some? && SingleAssignment(m, a, b, values).value.0 == r
  {
    hide Linear, IsSimple, Writes;
    KeysWritten(m, a, b, values, r);
    assert r in Writes(m.code[a].op);
    var after := Linear(m, a, b, values).values;
    forall q | q in after && q != r ensures q in values && values[q] == after[q] {
      KeysWritten(m, a, b, values, q);
    }
    AssignsIff(m, a, b, values);
  }

  lemma UntouchedIsFree(m: Method, i: nat, r: nat)
    requires i <= |m.code| && AllSimple(m, 0, i) && Untouched(m, i, r)
    ensures r !in Linear(m, 0, i, map[]).values
  {
    hide Linear, IsSimple, Writes;
    KeysWritten(m, 0, i, map[], r);
  }

  // ----- The shapes with one branch -----

  /** Every case and the default end the method. */
  ghost predicate SwitchCode(m: Method, i: nat) {
    && i < |m.code| && !m.IsInit() && m.code[i].op.Switch? && AllSimple(m, 0, i)
    && var op := m.code[i].op;
       && op.keys != [] && |op.keys| == |op.targets| && SlicesBy(m, i + 1, |m.code|)
       && forall k :: 0 <= k < |op.targets| ==> CaseCode(m, op.targets[k])
  }

  ghost predicate CaseCode(m: Method, offset: int) {
    exists start: nat :: start < |m.code| && m.code[start].offset == offset && SlicesBy(m, start, |m.code|)
  }

  lemma {:induction false} CasesIff(m: Method, targets: seq<int>, values: Values)
    requires Tiled(m.code)
    ensures CaseBlocks(m, targets, values).Some? <==> forall k :: 0 <= k < |targets| ==> CaseCode(m, targets[k])
    decreases |targets|
  {
    hide TerminalSlice, SlicesBy;
    if targets != [] {
      var start := IndexOf(m.code, targets[0]);
      if start.Some? { SliceAnywhere(m, start.value, values); }
      if CaseCode(m, targets[0]) {
        var s: nat :| s < |m.code| && m.code[s].offset == targets[0] && SlicesBy(m, s, |m.code|);
        OffsetNamesPosition(m.code, s);
      }
      CasesIff(m, targets[1..], values);
    }
  }

  lemma SliceAnywhere(m: Method, start: nat, values: Values)
    ensures TerminalSlice(m, start, values).Slice? <==> SlicesBy(m, start, |m.code|)
  {
    hide TerminalSlice;
    SliceIff(m, start, values, |m.code|);
  }

  /** Both sides end the method, the skipped one in front of the other. */
  ghost predicate IfTerminalCode(m: Method, i: nat) {
    && |m.code| >= 4 && !m.IsInit()
    && exists t: nat :: Skips(m, i, t) && SlicesBy(m, i + 1, t) && SlicesBy(m, t, |m.code|)
  }

  /** Both sides are straight-line and meet in one return: that of a value, or in a void method that of none. */
  ghost predicate MeetingCode(m: Method, i: nat) {
    && |m.code| >= 5 && !m.IsInit()
    && exists t: nat :: Skips(m, i, t) && t < |m.code| - 1
         && exists j: nat, e: nat :: LeadsOut(m, i, j, t, e) && AllSimple(m, t, e)
              && (if m.IsVoid() then m.code[e].op.ReturnVoid? else m.code[e].op.ReturnReg?)
  }

  /** The skipped code runs on into a block that returns a value. */
  ghost predicate RunsIntoReturn(m: Method, i: nat, size: nat) {
    && |m.code| >= size && !m.IsVoid() && !m.IsInit()
    && exists t: nat :: Skips(m, i, t) && AllSimple(m, i + 1, t) && Ending(m, t, |m.code|) && m.code[|m.code| - 1].op.ReturnReg?
  }

  /** Straight-line code is skipped up to the final return. */
  ghost predicate VoidGuardCode(m: Method, i: nat) {
    && |m.code| >= 3 && m.IsVoid() && !m.IsInit()
    && exists t: nat :: Skips(m, i, t) && AllSimple(m, i + 1, t) && t == |m.code| - 1 && m.code[t].op.ReturnVoid?
  }

  /** The skipped code runs on into a return, and has an effect or changes what is returned. */
  ghost predicate AssignedReturnCode(m: Method, i: nat) {
    && |m.code| >= 4 && !m.IsVoid() && !m.IsInit()
    && exists t: nat ::
         && Skips(m, i, t) && AllSimple(m, i + 1, t) && m.code[t].op.ReturnReg?
         && var before := Linear(m, 0, i, map[]).values;
            !Silent(m, i + 1, t)
            || ValueOf(m, Linear(m, i + 1, t, before).values, m.code[t].op.src) != ValueOf(m, before, m.code[t].op.src)
  }

  /** Two straight-line sides that end the method, the second the end of the code. */
  ghost predicate PlainIfCode(m: Method, i: nat) {
    && !m.IsVoid() && !m.IsInit()
    && exists t: nat :: Skips(m, i, t) && Ending(m, i + 1, t) && Ending(m, t, |m.code|)
  }

  /** Chunks and branches to a silent default block that is the end of the code. */
  ghost predicate GuardedReturnCode(m: Method, i: nat) {
    && |m.code| >= 4 && !m.IsVoid() && !m.IsInit()
    && exists t: nat ::
         && GoesTo(m, i, t) && i < t - 1
         && Ending(m, t, |m.code|) && Silent(m, t, |m.code|) && !m.code[|m.code| - 1].op.ThrowReg?
         && Guards(m, 0, t)
  }

  /** Straight-line code and branches to t, up to an instruction that ends the method in front of t. */
  predicate Guards(m: Method, a: nat, t: nat) {
    && a < t < |m.code| && IsTerminal(m.code[t - 1].op)
    && forall p :: a <= p < t - 1 ==> IsSimple(m.code[p].op) || GoesTo(m, p, t)
  }

  /** Two silent assignments of one register meet in front of a straight tail. */
  ghost predicate ConditionalAssignmentCode(m: Method, i: nat) {
    && |m.code| >= 6 && !m.IsInit()
    && exists t: nat :: Skips(m, i, t)
         && exists j: nat, e: nat :: LeadsOut(m, i, j, t, e) && Ending(m, e, |m.code|)
              && var before := Linear(m, 0, i, map[]).values;
                 exists r: nat :: Assigns(m, i + 1, j, before, r) && Assigns(m, t, e, before, r)
  }

  // ----- Each matcher accepts exactly its code -----

  lemma SwitchAccepted(m: Method, i: nat)
    requires Tiled(m.code)
    ensures SwitchAt(m, i).Some? <==> SwitchCode(m, i)
  {
    hide Linear, TerminalSlice, SlicesBy, CaseBlocks, CaseCode, IsSimple;
    if i < |m.code| && m.code[i].op.Switch? {
      LinearIffSimple(m, 0, i, map[]);
      SliceAnywhere(m, i + 1, Linear(m, 0, i, map[]).values);
      CasesIff(m, m.code[i].op.targets, Linear(m, 0, i, map[]).values);
    }
  }

  lemma IfTerminalAccepted(m: Method, i: nat)
    requires Tiled(m.code)
    ensures IfTerminalAt(m, i).Some? <==> IfTerminalCode(m, i)
  {
    hide Linear, TerminalSlice, SlicesBy, Skips, ForwardIf, TargetOf;
    SkipsIff(m, i);
    if i < |m.code| && ForwardIf(m, i) && Opens(m, i) {
      var values := Linear(m, 0, i, map[]).values;
      SliceIff(m, i + 1, values, TargetOf(m, i));
      SliceAnywhere(m, TargetOf(m, i), values);
    }
  }

  lemma MeetingAccepted(m: Method, i: nat)
    requires Tiled(m.code)
    ensures !m.IsVoid() ==> (IfGotoReturnAt(m, i).Some? <==> MeetingCode(m, i)) && VoidIfGotoAt(m, i).None?
    ensures m.IsVoid() ==> (VoidIfGotoAt(m, i).Some? <==> MeetingCode(m, i)) && IfGotoReturnAt(m, i).None?
  {
    hide Linear, IsSimple, Skips, ForwardIf, TargetOf, IndexOf, ForwardGoto;
    SkipsIff(m, i);
    if i < |m.code| && ForwardIf(m, i) && Opens(m, i) {
      var t := TargetOf(m, i);
      var values := Linear(m, 0, i, map[]).values;
      var j := ForwardGoto(m, i + 1, t, None);
      LeadsOutIff(m, i, t, None);
      LinearIffSimple(m, i + 1, j, values);
      if j < t && IndexOf(m.code, m.code[j].op.to).Some? && IndexOf(m.code, m.code[j].op.to).value > t {
        LinearIffSimple(m, t, IndexOf(m.code, m.code[j].op.to).value, values);
      }
    }
  }

  lemma SidesAccepted(m: Method, i: nat)
    requires Tiled(m.code)
    ensures IfInitReturnAt(m, i).Some? <==> RunsIntoReturn(m, i, 5)
    ensures FallThroughReturnAt(m, i).Some? <==> RunsIntoReturn(m, i, 3)
  {
    hide Linear, IsSimple, Skips, ForwardIf, TargetOf, SidesBody;
    SkipsIff(m, i);
    if i < |m.code| && ForwardIf(m, i) && Opens(m, i) {
      var t := TargetOf(m, i);
      var values := Linear(m, 0, i, map[]).values;
      LinearIffSimple(m, i + 1, t, values);
      EndingIff(m, t, |m.code|, values);
      EndingIff(m, t, |m.code|, Linear(m, i + 1, t, values).values);
    }
  }

  lemma GuardsOverAccepted(m: Method, i: nat)
    requires Tiled(m.code)
    ensures VoidGuardAt(m, i).Some? <==> VoidGuardCode(m, i)
    ensures AssignedReturnAt(m, i).Some? <==> AssignedReturnCode(m, i)
    ensures PlainIfReturnAt(m, i).Some? <==> PlainIfCode(m, i)
  {
    hide Linear, IsSimple, Skips, ForwardIf, TargetOf, Silent, ValueOf;
    SkipsIff(m, i);
    if i < |m.code| && ForwardIf(m, i) && Opens(m, i) {
      var t := TargetOf(m, i);
      var values := Linear(m, 0, i, map[]).values;
      LinearIffSimple(m, i + 1, t, values);
      if AllSimple(m, i + 1, t) { SilentIff(m, i + 1, t, values); }
      EndingIff(m, i + 1, t, values);
      EndingIff(m, t, |m.code|, values);
    }
  }

  lemma ConditionalAssignmentAccepted(m: Method, i: nat)
    requires Tiled(m.code)
    ensures ConditionalAssignmentAt(m, i).Some? <==> ConditionalAssignmentCode(m, i)
  {
    hide Linear, IsSimple, Skips, ForwardIf, TargetOf, IndexOf, ForwardGoto, SingleAssignment, OnlyChange;
    SkipsIff(m, i);
    if i < |m.code| && ForwardIf(m, i) && Opens(m, i) {
      var t := TargetOf(m, i);
      var values := Linear(m, 0, i, map[]).values;
      var bound := Some(m.code[t].offset);
      var j := ForwardGoto(m, i + 1, t, bound);
      TargetIs(m, i);
      LeadsOutIff(m, i, t, bound);
      AssignsIff(m, i + 1, j, values);
      if j < t && IndexOf(m.code, m.code[j].op.to).Some? && IndexOf(m.code, m.code[j].op.to).value > t {
        var e := IndexOf(m.code, m.code[j].op.to).value;
        AssignsIff(m, t, e, values);
        forall v: Values ensures Linear(m, e, |m.code|, v).ok && Linear(m, e, |m.code|, v).block.ends <==> Ending(m, e, |m.code|) {
          EndingIff(m, e, |m.code|, v);
        }
      }
    }
  }

  lemma TargetIs(m: Method, i: nat)
    requires ForwardIf(m, i)
    ensures m.code[TargetOf(m, i)].offset == m.code[i].op.to
  {
  }

  /** Guards are recovered exactly if the code in front of the default block is of that form. */
  lemma {:induction false} GuardLinesIff(m: Method, a: nat, t: nat, values: Values, default: Option<Expr>)
    requires a <= t < |m.code|
    ensures var r := BuildGuards(m, a, t, values, default);
            && (r.GuardLines? <==> Guards(m, a, t))
            && (r.GuardLines? ==> (r.guards > 0 <==> exists p :: a <= p < t && GoesTo(m, p, t)))
    decreases t - a
  {
    hide Linear, IsSimple, ConditionOf, IsTerminal;
    var g := NextIfTo(m, a, t, m.code[t].offset);
    NextIfToIs(m, a, t);
    forall p | a <= p < t ensures !(IsSimple(m.code[p].op) && IsIf(m.code[p].op)) && !(IsTerminal(m.code[p].op) && IsIf(m.code[p].op)) {
      SimpleOrBranch(m.code[p].op);
    }
    if g == t {
      EndingIff(m, a, t, values);
    } else {
      LinearIffSimple(m, a, g, values);
      GuardLinesIff(m, g + 1, t, Linear(m, a, g, values).values, default);
    }
  }

  lemma {:induction false} NextIfToIs(m: Method, a: nat, t: nat)
    requires a <= t < |m.code|
    ensures var g := NextIfTo(m, a, t, m.code[t].offset);
            && (g < t ==> GoesTo(m, g, t)) && forall p :: a <= p < g ==> !GoesTo(m, p, t)
    decreases t - a
  {
    hide IsIf;
    if a < t { NextIfToIs(m, a + 1, t); }
  }

  lemma GuardedReturnAccepted(m: Method, i: nat)
    requires Tiled(m.code)
    ensures GuardedReturnAt(m, i).Some? <==> GuardedReturnCode(m, i)
  {
    hide Linear, IsSimple, BuildGuards, IndexOf, IsTerminal, Guards;
    forall t: nat | GoesTo(m, i, t) && i < t ensures IndexOf(m.code, m.code[t].offset) == Some(t) {
      OffsetNamesPosition(m.code, t);
    }
    if i < |m.code| && IsIf(m.code[i].op) && IndexOf(m.code, m.code[i].op.to).Some? {
      var t := IndexOf(m.code, m.code[i].op.to).value;
      EndingIff(m, t, |m.code|, map[]);
      DefaultSilent(m, t);
      GuardLinesIff(m, 0, t, map[], Linear(m, t, |m.code|, map[]).block.expr);
      if i + 1 == t { BranchIsNoEnd(m, i); }
      GuardsStart(m, t);
    }
  }

  lemma GuardsStart(m: Method, t: nat)
    ensures Guards(m, 0, t) ==> 0 < t < |m.code| && IsTerminal(m.code[t - 1].op)
  {
    hide IsTerminal, IsSimple;
  }

  lemma BranchIsNoEnd(m: Method, i: nat)
    requires i < |m.code| && IsIf(m.code[i].op)
    ensures !IsTerminal(m.code[i].op)
  {
  }

  lemma DefaultSilent(m: Method, t: nat)
    requires t < |m.code|
    ensures Ending(m, t, |m.code|) ==>
              (Linear(m, t, |m.code|, map[]).block.stmts == [] <==> Silent(m, t, |m.code|) && !m.code[|m.code| - 1].op.ThrowReg?)
  {
    hide Linear, IsSimple;
    var n := |m.code|;
    if Ending(m, t, n) {
      LinearEnds(m, t, n, map[]);
      SilentIff(m, t, n - 1, map[]);
      var front := Linear(m, t, n - 1, map[]);
      TerminalSilent(m, m.code[n - 1].op, front.values);
    }
  }

  lemma TerminalSilent(m: Method, op: Op, values: Values)
    requires IsTerminal(op)
    ensures TerminalBlock(m, op, values).stmts == [] <==> !op.ThrowReg?
    ensures !op.StaticPut? && !op.InvokeStatic?
  {
  }
}
