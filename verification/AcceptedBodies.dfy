module AcceptedBodies {
  // When the writer recovers a body at all, and from which shape: nests of assignments, and all shapes together.
  import opened MachineInts
  import opened JavaBody
  import opened DalvikMachine
  import opened RegisterLayout
  import opened LinearRecovery
  import opened BodyShapes
  import opened BodiesPreserved
  import opened Liveness
  import opened AcceptedShapes
  import opened Options

  // ----- Paths and nests -----

  /** The first goto from start on is at g, or there is none up to end, which is g. */
  predicate Stops(m: Method, start: nat, end: nat, g: nat) {
    && start <= g <= end <= |m.code| && (g < end ==> m.code[g].op.Goto?)
    && forall p :: start <= p < g ==> !m.code[p].op.Goto?
  }

  lemma {:induction false} NextGotoIs(m: Method, a: nat, b: nat)
    requires a <= b <= |m.code|
    ensures Stops(m, a, b, NextGoto(m, a, b))
    ensures forall g: nat :: Stops(m, a, b, g) ==> NextGoto(m, a, b) == g
    decreases b - a
  {
    if a < b && !m.code[a].op.Goto? {
      NextGotoIs(m, a + 1, b);
      forall g: nat | Stops(m, a, b, g) ensures NextGoto(m, a, b) == g { assert Stops(m, a + 1, b, g); }
    }
  }

  /** The code in front of the first goto assigns the register; or it does not, and the goto leads on to a path that does. */
  ghost predicate Path(m: Method, start: nat, end: nat, join: nat, values: Values, r: nat, depth: nat)
    decreases 5 - depth, 1
  {
    && depth <= 4 && start < end <= join < |m.code|
    && exists g: nat :: Stops(m, start, end, g)
         && (if g == end then Assigns(m, start, end, values, r) else LeadsOn(m, start, g, join, values, r, depth))
  }

  /** The goto at g is to the join, behind an assignment; or forwards, behind an assignment or else to a path. */
  ghost predicate LeadsOn(m: Method, start: nat, g: nat, join: nat, values: Values, r: nat, depth: nat)
    requires depth <= 4
    decreases 5 - depth, 0
  {
    (GotoTo(m, g, join) && Assigns(m, start, g, values, r))
    || exists e: nat :: GotoTo(m, g, e) && g < e < join
         && (Assigns(m, start, g, values, r)
             || (AssignsNothing(m, start, g, values) && Path(m, e, join, join, values, r, depth + 1)))
  }

  ghost predicate AssignsNothing(m: Method, a: nat, b: nat, values: Values) {
    forall r: nat :: !Assigns(m, a, b, values, r)
  }

  /** A path is read, for a register, exactly if it is such code. */
  lemma {:induction false} PathIff(m: Method, start: nat, end: nat, join: nat, values: Values, depth: nat)
    requires Tiled(m.code) && end <= join < |m.code|
    ensures var c := AssignmentPath(m, start, end, join, values, depth);
            && (c.Choice? ==> Path(m, start, end, join, values, c.reg, depth))
            && (forall r: nat :: Path(m, start, end, join, values, r, depth) ==> c.Choice? && c.reg == r)
    decreases 5 - depth, 1
  {
    hide Assigns, SingleAssignment, IndexOf, Stops;
    if depth <= 4 && start < end {
      var g := NextGoto(m, start, end);
      NextGotoIs(m, start, end);
      AssignsIff(m, start, g, values);
      if g < end { LeadsOnIff(m, start, g, join, values, depth); }
    }
  }

  /** What the matcher does at a goto. */
  function AtGoto(m: Method, start: nat, g: nat, join: nat, values: Values, depth: nat): Choice
    requires start <= g < join < |m.code| && m.code[g].op.Goto?
  {
    if m.code[g].op.to == m.code[join].offset then Assigned(SingleAssignment(m, start, g, values), true)
    else
      var target := IndexOf(m.code, m.code[g].op.to);
      if target.None? || target.value <= g || target.value >= join then NoChoice
      else if SingleAssignment(m, start, g, values).Some? then Assigned(SingleAssignment(m, start, g, values), false)
      else AssignmentPath(m, target.value, join, join, values, depth + 1)
  }

  lemma {:induction false} LeadsOnIff(m: Method, start: nat, g: nat, join: nat, values: Values, depth: nat)
    requires Tiled(m.code) && start <= g < join < |m.code| && m.code[g].op.Goto? && depth <= 4
    ensures var c := AtGoto(m, start, g, join, values, depth);
            && (c.Choice? ==> LeadsOn(m, start, g, join, values, c.reg, depth))
            && (forall r: nat :: LeadsOn(m, start, g, join, values, r, depth) ==> c.Choice? && c.reg == r)
    decreases 5 - depth, 0
  {
    hide Assigns, SingleAssignment, IndexOf, Stops, Path, AssignmentPath;
    AssignsIff(m, start, g, values);
    forall e: nat | GotoTo(m, g, e) ensures IndexOf(m.code, m.code[g].op.to) == Some(e) { OffsetNamesPosition(m.code, e); }
    var target := IndexOf(m.code, m.code[g].op.to);
    if target.Some? && g < target.value < join {
      PathIff(m, target.value, join, join, values, depth + 1);
      TargetOfGoto(m, g, target.value);
      var c := AtGoto(m, start, g, join, values, depth);
      if c.Choice? && m.code[g].op.to != m.code[join].offset {
        assert Assigns(m, start, g, values, c.reg)
            || (AssignsNothing(m, start, g, values) && Path(m, target.value, join, join, values, c.reg, depth + 1));
      }
    }
  }

  lemma TargetOfGoto(m: Method, g: nat, e: nat)
    requires g < |m.code| && m.code[g].op.Goto? && IndexOf(m.code, m.code[g].op.to) == Some(e)
    ensures GotoTo(m, g, e)
  {
  }

  /** Branches that skip code in front of the join, both sides nests or else paths, all for one register. */
  ghost predicate Nested(m: Method, start: nat, join: nat, values: Values, r: nat, depth: nat)
    decreases 5 - depth, 0
  {
    && depth <= 4 && start < join < |m.code|
    && if IsIf(m.code[start].op) then
         exists t: nat :: GoesTo(m, start, t) && start + 1 < t < join
           && Side(m, start + 1, t, join, values, r, depth + 1) && Side(m, t, join, join, values, r, depth + 1)
       else Path(m, start, join, join, values, r, 0)
  }

  ghost predicate Side(m: Method, start: nat, end: nat, join: nat, values: Values, r: nat, depth: nat)
    requires depth > 0
    decreases 5 - depth, 2
  {
    Nested(m, start, join, values, r, depth)
    || (NestsNothing(m, start, join, values, depth) && Path(m, start, end, join, values, r, 0))
  }

  ghost predicate NestsNothing(m: Method, start: nat, join: nat, values: Values, depth: nat)
    decreases 5 - depth, 1
  {
    forall r: nat :: !Nested(m, start, join, values, r, depth)
  }

  /** A nest is read, for a register, exactly if it is such code. */
  lemma {:induction false} NestedIff(m: Method, start: nat, join: nat, values: Values, depth: nat)
    requires Tiled(m.code) && join < |m.code|
    ensures var c := ParseChoice(m, start, join, values, depth);
            && (c.Choice? ==> Nested(m, start, join, values, c.reg, depth))
            && (forall r: nat :: Nested(m, start, join, values, r, depth) ==> c.Choice? && c.reg == r)
    decreases 5 - depth, 0
  {
    hide Path, AssignmentPath, IndexOf, ConditionOf, Side;
    if depth <= 4 && start < join {
      if IsIf(m.code[start].op) {
        forall t: nat | GoesTo(m, start, t) ensures IndexOf(m.code, m.code[start].op.to) == Some(t) { OffsetNamesPosition(m.code, t); }
        var target := IndexOf(m.code, m.code[start].op.to);
        if target.Some? && start + 1 < target.value < join {
          SideIff(m, start + 1, target.value, join, values, depth + 1);
          SideIff(m, target.value, join, join, values, depth + 1);
          TargetOfBranch(m, start, target.value);
        }
      } else {
        PathIff(m, start, join, join, values, 0);
      }
    }
  }

  lemma TargetOfBranch(m: Method, i: nat, t: nat)
    requires i < |m.code| && IsIf(m.code[i].op) && IndexOf(m.code, m.code[i].op.to) == Some(t)
    ensures GoesTo(m, i, t)
  {
  }

  /** One side as the matcher reads it. */
  function ReadSide(m: Method, start: nat, end: nat, join: nat, values: Values, depth: nat): Choice
    requires end <= join < |m.code|
  {
    var c := ParseChoice(m, start, join, values, depth);
    if c.Choice? then c else AssignmentPath(m, start, end, join, values, 0)
  }

  lemma {:induction false} SideIff(m: Method, start: nat, end: nat, join: nat, values: Values, depth: nat)
    requires Tiled(m.code) && end <= join < |m.code| && depth > 0
    ensures var c := ReadSide(m, start, end, join, values, depth);
            && (c.Choice? ==> Side(m, start, end, join, values, c.reg, depth))
            && (forall r: nat :: Side(m, start, end, join, values, r, depth) ==> c.Choice? && c.reg == r)
    decreases 5 - depth, 1
  {
    hide AssignmentPath, ParseChoice;
    NestedIff(m, start, join, values, depth);
    PathIff(m, start, end, join, values, 0);
    var c := ParseChoice(m, start, join, values, depth);
    if c.NoChoice? {
      assert NestsNothing(m, start, join, values, depth);
    }
  }

  // ----- Nests by their instructions -----

  /** Code that writes only the register, up to the join or a goto to it. */
  predicate ArmTo(m: Method, start: nat, end: nat, join: nat, r: nat) {
    exists g: nat :: start < g <= end <= join < |m.code| && WritesOnly(m, start, g, r) && (g == join || (g < end && GotoTo(m, g, join)))
  }

  /** Branches that skip code in front of the join, not too deep, down to arms that write only the register. */
  ghost predicate CodeNest(m: Method, start: nat, join: nat, r: nat, depth: nat)
    decreases 5 - depth
  {
    && depth <= 4 && start < join < |m.code|
    && if IsIf(m.code[start].op) then
         exists t: nat :: GoesTo(m, start, t) && start + 1 < t < join
           && (CodeNest(m, start + 1, join, r, depth + 1) || ArmTo(m, start + 1, t, join, r))
           && (CodeNest(m, t, join, r, depth + 1) || ArmTo(m, t, join, join, r))
       else ArmTo(m, start, join, join, r)
  }

  lemma ArmIsPath(m: Method, start: nat, end: nat, join: nat, values: Values, r: nat)
    requires ArmTo(m, start, end, join, r) && r !in values
    ensures Path(m, start, end, join, values, r, 0) && Path(m, start, join, join, values, r, 0)
    ensures !IsIf(m.code[start].op)
  {
    hide Assigns, WritesOnly;
    var g: nat :| start < g <= end <= join < |m.code| && WritesOnly(m, start, g, r) && (g == join || (g < end && GotoTo(m, g, join)));
    FreshAssignment(m, start, g, values, r);
    ArmStarts(m, start, g, r);
    if g < end {
      assert Stops(m, start, end, g) && Stops(m, start, join, g);
      assert LeadsOn(m, start, g, join, values, r, 0);
    } else {
      assert Stops(m, start, end, end);
    }
  }

  lemma ArmStarts(m: Method, start: nat, g: nat, r: nat)
    requires WritesOnly(m, start, g, r)
    ensures start < g <= |m.code| && !IsIf(m.code[start].op)
    ensures forall p :: start <= p < g ==> !m.code[p].op.Goto?
  {
    hide IsSimple;
    assert IsSimple(m.code[start].op);
    SimpleOrBranch(m.code[start].op);
    forall p | start <= p < g ensures !m.code[p].op.Goto? {
      assert IsSimple(m.code[p].op);
      SimpleOrBranch(m.code[p].op);
    }
  }

  /** Of a register that carries nothing yet, such a nest is read. */
  lemma {:induction false} CodeNestIsNested(m: Method, start: nat, join: nat, values: Values, r: nat, depth: nat)
    requires CodeNest(m, start, join, r, depth) && r !in values
    ensures Nested(m, start, join, values, r, depth)
    decreases 5 - depth
  {
    hide Path, ArmTo, Nested, NestsNothing;
    if IsIf(m.code[start].op) {
      var t: nat :| GoesTo(m, start, t) && start + 1 < t < join
           && (CodeNest(m, start + 1, join, r, depth + 1) || ArmTo(m, start + 1, t, join, r))
           && (CodeNest(m, t, join, r, depth + 1) || ArmTo(m, t, join, join, r));
      if CodeNest(m, start + 1, join, r, depth + 1) { CodeNestIsNested(m, start + 1, join, values, r, depth + 1); }
      else { ArmIsSide(m, start + 1, t, join, values, r, depth + 1); }
      if CodeNest(m, t, join, r, depth + 1) { CodeNestIsNested(m, t, join, values, r, depth + 1); }
      else { ArmIsSide(m, t, join, join, values, r, depth + 1); }
      NestedByBranch(m, start, t, join, values, r, depth);
    } else {
      ArmIsPath(m, start, join, join, values, r);
      NestedByPath(m, start, join, values, r, depth);
    }
  }

  lemma NestedByBranch(m: Method, start: nat, t: nat, join: nat, values: Values, r: nat, depth: nat)
    requires depth <= 4 && GoesTo(m, start, t) && start + 1 < t < join < |m.code|
    requires Side(m, start + 1, t, join, values, r, depth + 1) && Side(m, t, join, join, values, r, depth + 1)
    ensures Nested(m, start, join, values, r, depth)
  {
    hide Side;
  }

  lemma NestedByPath(m: Method, start: nat, join: nat, values: Values, r: nat, depth: nat)
    requires depth <= 4 && start < join < |m.code| && !IsIf(m.code[start].op) && Path(m, start, join, join, values, r, 0)
    ensures Nested(m, start, join, values, r, depth)
  {
    hide Path;
  }

  lemma ArmIsSide(m: Method, start: nat, end: nat, join: nat, values: Values, r: nat, depth: nat)
    requires 0 < depth && ArmTo(m, start, end, join, r) && r !in values
    ensures Side(m, start, end, join, values, r, depth)
  {
    ArmIsPath(m, start, end, join, values, r);
    ArmInside(m, start, end, join, r);
    if depth <= 4 { NestedByPath(m, start, join, values, r, depth); }
  }

  lemma ArmInside(m: Method, start: nat, end: nat, join: nat, r: nat)
    requires ArmTo(m, start, end, join, r)
    ensures start < join < |m.code|
  {
    hide WritesOnly;
  }

  // ----- Tails and joins -----

  /** The tail: straight-line, or in a void method with one branch to the final return. */
  ghost predicate TailCode(m: Method, a: nat) {
    Ending(m, a, |m.code|) || (m.IsVoid() && VoidTailCode(m, a))
  }

  ghost predicate VoidTailCode(m: Method, a: nat) {
    && a + 3 <= |m.code| && m.code[|m.code| - 1].op.ReturnVoid?
    && exists g: nat :: a <= g < |m.code| - 1 && GoesTo(m, g, |m.code| - 1) && AllSimple(m, a, g) && AllSimple(m, g + 1, |m.code| - 1)
  }

  lemma VoidTailIff(m: Method, a: nat, values: Values)
    requires a <= |m.code|
    ensures VoidTail(m, a, values).Some? <==> VoidTailCode(m, a)
  {
    hide Linear, IsSimple, ConditionOf;
    var n := |m.code|;
    if a + 3 <= n {
      var g := NextIfTo(m, a, n - 1, m.code[n - 1].offset);
      NextIfToIs(m, a, n - 1);
      LinearIffSimple(m, a, g, values);
      if g < n - 1 { LinearIffSimple(m, g + 1, n - 1, Linear(m, a, g, values).values); }
      forall p | a <= p < n - 1 ensures !(IsSimple(m.code[p].op) && IsIf(m.code[p].op)) { SimpleOrBranch(m.code[p].op); }
    }
  }

  ghost predicate SomeNest(m: Method, i: nat, e: nat) {
    i <= |m.code| && exists r: nat :: Nested(m, i, e, Linear(m, 0, i, map[]).values, r, 0)
  }

  lemma SomeNestIff(m: Method, i: nat, e: nat)
    requires Tiled(m.code) && i < |m.code| && e < |m.code|
    ensures SomeNest(m, i, e) <==> ParseChoice(m, i, e, Linear(m, 0, i, map[]).values, 0).Choice?
  {
    hide Linear, ParseChoice;
    NestedIff(m, i, e, Linear(m, 0, i, map[]).values, 0);
  }

  /** A join that a forward goto behind the branch leads to, behind its target, with a nest in front and a tail behind. */
  ghost predicate JoinCode(m: Method, i: nat, t: nat, p: nat, e: nat) {
    && i < p < e && t < e && GotoTo(m, p, e) && TailCode(m, e)
    && SomeNest(m, i, e)
  }

  ghost predicate MultiBranchCode(m: Method, i: nat) {
    && |m.code| >= 6 && !m.IsInit()
    && exists t: nat :: Skips(m, i, t) && SomeJoin(m, i, t)
  }

  ghost predicate SomeJoin(m: Method, i: nat, t: nat) {
    exists p: nat, e: nat :: JoinCode(m, i, t, p, e)
  }

  lemma JoinIff(m: Method, i: nat, e: nat)
    requires Tiled(m.code) && i < |m.code| && e < |m.code| && Opens(m, i)
    ensures MultiBranchJoin(m, i, e).Some? <==> TailCode(m, e) && SomeNest(m, i, e)
  {
    hide Linear, VoidTail, VoidTailCode, ParseChoice, IsSimple, SomeNest;
    var values := Linear(m, 0, i, map[]).values;
    SomeNestIff(m, i, e);
    var choice := ParseChoice(m, i, e, values, 0);
    if choice.Choice? {
      var joined := values[choice.reg := choice.carried];
      EndingIff(m, e, |m.code|, joined);
      VoidTailIff(m, e, Linear(m, e, |m.code|, joined).values);
    }
  }

  lemma {:induction false} FirstJoinIff(m: Method, i: nat, p: nat, t: nat)
    requires Tiled(m.code) && i < |m.code| && Opens(m, i) && i < p
    ensures FirstJoin(m, i, p, t).Some? <==> exists q: nat, e: nat :: q >= p && JoinCode(m, i, t, q, e)
    decreases |m.code| - p
  {
    hide MultiBranchJoin, IndexOf, TailCode, SomeNest, Linear, Opens;
    if p < |m.code| {
      FirstJoinIff(m, i, p + 1, t);
      var join := if m.code[p].op.Goto? && m.code[p].op.to > m.code[p].offset then IndexOf(m.code, m.code[p].op.to) else None;
      if join.Some? {
        JoinIff(m, i, join.value);
        TargetOfGoto(m, p, join.value);
        if join.value > t && MultiBranchJoin(m, i, join.value).Some? { assert JoinCode(m, i, t, p, join.value); }
      }
      forall e: nat | JoinCode(m, i, t, p, e) ensures join == Some(e) {
        OffsetNamesPosition(m.code, e);
      }
    }
  }

  lemma SomeJoinIff(m: Method, i: nat, t: nat)
    requires Tiled(m.code) && i < |m.code| && Opens(m, i)
    ensures FirstJoin(m, i, i + 1, t).Some? <==> SomeJoin(m, i, t)
  {
    hide FirstJoin, JoinCode, Opens;
    FirstJoinIff(m, i, i + 1, t);
    forall p: nat, e: nat | JoinCode(m, i, t, p, e) ensures p >= i + 1 { JoinBehind(m, i, t, p, e); }
  }

  lemma MultiBranchAccepted(m: Method, i: nat)
    requires Tiled(m.code)
    ensures MultiBranchAt(m, i).Some? <==> MultiBranchCode(m, i)
  {
    hide FirstJoin, SomeJoin, Skips, ForwardIf, TargetOf, Linear;
    SkipsIff(m, i);
    if i < |m.code| && ForwardIf(m, i) && Opens(m, i) { SomeJoinIff(m, i, TargetOf(m, i)); }
  }

  lemma JoinBehind(m: Method, i: nat, t: nat, p: nat, e: nat)
    requires JoinCode(m, i, t, p, e)
    ensures i < p
  {
    hide SomeNest, TailCode;
  }

  /** By the instructions alone: a nest whose arms write one register, which nothing in front of the nest writes. */
  lemma NestAccepted(m: Method, i: nat, t: nat, p: nat, e: nat, r: nat)
    requires Tiled(m.code) && |m.code| >= 6 && !m.IsInit() && Skips(m, i, t)
    requires i < p < e && t < e && GotoTo(m, p, e) && TailCode(m, e)
    requires CodeNest(m, i, e, r, 0) && Untouched(m, i, r)
    ensures MultiBranchAt(m, i).Some?
  {
    hide TailCode, CodeNest, Linear, Untouched;
    UntouchedIsFree(m, i, r);
    CodeNestIsNested(m, i, e, Linear(m, 0, i, map[]).values, r, 0);
    assert SomeNest(m, i, e);
    assert JoinCode(m, i, t, p, e);
    MultiBranchAccepted(m, i);
  }

  /** Likewise for two assignments that meet. */
  lemma AssignmentsAccepted(m: Method, i: nat, t: nat, j: nat, e: nat, r: nat)
    requires Tiled(m.code) && |m.code| >= 6 && !m.IsInit() && Skips(m, i, t) && LeadsOut(m, i, j, t, e) && Ending(m, e, |m.code|)
    requires WritesOnly(m, i + 1, j, r) && WritesOnly(m, t, e, r) && Untouched(m, i, r)
    ensures ConditionalAssignmentAt(m, i).Some?
  {
    hide Linear, Untouched, WritesOnly, Ending, Assigns;
    UntouchedIsFree(m, i, r);
    var before := Linear(m, 0, i, map[]).values;
    FreshAssignment(m, i + 1, j, before, r);
    FreshAssignment(m, t, e, before, r);
    ConditionalAssignmentAccepted(m, i);
  }

  // ----- All shapes, and the writer -----

  /** The code of each shape, with its branch or switch at position i. */
  ghost predicate Accepts(shape: Shape, m: Method, i: nat) {
    match shape
    case SwitchCases => SwitchCode(m, i)
    case IfTerminal => IfTerminalCode(m, i)
    case MultiBranch => MultiBranchCode(m, i)
    case ConditionalAssignment => ConditionalAssignmentCode(m, i)
    case IfGotoReturn => !m.IsVoid() && MeetingCode(m, i)
    case IfInitReturn => RunsIntoReturn(m, i, 5)
    case VoidGuard => VoidGuardCode(m, i)
    case VoidIfGoto => m.IsVoid() && MeetingCode(m, i)
    case AssignedReturn => AssignedReturnCode(m, i)
    case FallThroughReturn => RunsIntoReturn(m, i, 3)
    case GuardedReturn => GuardedReturnCode(m, i)
    case PlainIfReturn => PlainIfCode(m, i)
  }

  /** Every matcher accepts exactly the code of its shape. */
  lemma AcceptedIff(shape: Shape, m: Method, i: nat)
    requires Tiled(m.code)
    ensures MatchAt(shape, m, i).Some? <==> Accepts(shape, m, i)
  {
    hide SwitchCode, IfTerminalCode, MultiBranchCode, ConditionalAssignmentCode, MeetingCode, RunsIntoReturn, VoidGuardCode;
    hide AssignedReturnCode, GuardedReturnCode, PlainIfCode, SwitchAt, IfTerminalAt, MultiBranchAt, ConditionalAssignmentAt;
    hide IfGotoReturnAt, VoidIfGotoAt, IfInitReturnAt, FallThroughReturnAt, VoidGuardAt, AssignedReturnAt, GuardedReturnAt, PlainIfReturnAt;
    match shape
    case SwitchCases => SwitchAccepted(m, i);
    case IfTerminal => IfTerminalAccepted(m, i);
    case MultiBranch => MultiBranchAccepted(m, i);
    case ConditionalAssignment => ConditionalAssignmentAccepted(m, i);
    case IfGotoReturn => MeetingAccepted(m, i);
    case VoidIfGoto => MeetingAccepted(m, i);
    case GuardedReturn => GuardedReturnAccepted(m, i);
    case IfInitReturn => SidesAccepted(m, i);
    case FallThroughReturn => SidesAccepted(m, i);
    case _ => GuardsOverAccepted(m, i);
  }

  /** The shape's code is somewhere in the method. */
  ghost predicate Occurs(shape: Shape, m: Method) {
    exists i: nat :: Accepts(shape, m, i)
  }

  /** The scan finds the first place that has the code of the shape. */
  lemma {:induction false} FirstMatchIff(shape: Shape, m: Method, i: nat)
    requires Tiled(m.code)
    ensures FirstMatch(shape, m, i).Some? <==> exists k: nat :: k >= i && Accepts(shape, m, k)
    ensures FirstMatch(shape, m, i).Some? ==>
              var (k, body) := FirstMatch(shape, m, i).value;
              k >= i && Accepts(shape, m, k) && forall j: nat :: i <= j < k ==> !Accepts(shape, m, j)
    decreases |m.code| - i
  {
    hide Accepts, MatchAt;
    if i < |m.code| {
      AcceptedIff(shape, m, i);
      FirstMatchIff(shape, m, i + 1);
    } else {
      forall k: nat | k >= i ensures !Accepts(shape, m, k) {
        AcceptedIff(shape, m, k);
        NothingBehind(shape, m, k);
      }
    }
  }

  lemma NothingBehind(shape: Shape, m: Method, i: nat)
    ensures i >= |m.code| ==> MatchAt(shape, m, i).None?
  {
    hide MultiBranchAt, BuildGuards, Linear;
    if i >= |m.code| { NoMultiBranch(m, i); }
  }

  lemma NoMultiBranch(m: Method, i: nat)
    ensures i >= |m.code| || !IsIf(m.code[i].op) ==> MultiBranchAt(m, i).None?
  {
    hide FirstJoin;
  }

  /**
   The writer recovers a body of a method exactly if the method is straight-line code that ends, or has the code
   of one of the shapes.
   */
  lemma {:induction false} RecoveredIff(m: Method, shapes: seq<Shape>)
    requires Tiled(m.code)
    ensures Recovered(m, shapes).Some? <==> Ending(m, 0, |m.code|) || exists k :: 0 <= k < |shapes| && Occurs(shapes[k], m)
    decreases |shapes|
  {
    hide Accepts, FirstMatch, LinearBody, Ending;
    if shapes == [] {
      LinearBodyIff(m);
    } else {
      FirstMatchIff(shapes[0], m, 0);
      RecoveredIff(m, shapes[1..]);
      assert Occurs(shapes[0], m) <==> FirstMatch(shapes[0], m, 0).Some?;
      if exists k :: 0 <= k < |shapes| && Occurs(shapes[k], m) {
        var k :| 0 <= k < |shapes| && Occurs(shapes[k], m);
        if k > 0 { assert shapes[1..][k - 1] == shapes[k]; }
      }
      if exists k :: 0 <= k < |shapes[1..]| && Occurs(shapes[1..][k], m) {
        var k :| 0 <= k < |shapes[1..]| && Occurs(shapes[1..][k], m);
        assert shapes[k + 1] == shapes[1..][k];
      }
    }
  }

  lemma LinearBodyIff(m: Method)
    ensures LinearBody(m).Some? <==> Ending(m, 0, |m.code|)
  {
    hide Linear, Ending;
    EndingIff(m, 0, |m.code|, map[]);
  }

  /** Earlier shapes are preferred, and of one shape the first place. */
  lemma {:induction false} FirstShapeIsTaken(m: Method, shapes: seq<Shape>, k: nat, i: nat)
    requires Tiled(m.code) && k < |shapes| && Accepts(shapes[k], m, i)
    requires forall j :: 0 <= j < k ==> !Occurs(shapes[j], m)
    requires forall p: nat :: p < i ==> !Accepts(shapes[k], m, p)
    ensures Recovered(m, shapes).Some? && Recovered(m, shapes) == MatchAt(shapes[k], m, i)
    decreases k
  {
    hide Accepts, FirstMatch, MatchAt;
    FirstMatchIff(shapes[0], m, 0);
    if k == 0 {
      assert FirstMatch(shapes[0], m, 0).value.0 == i;
      FirstMatchIs(shapes[0], m);
    } else {
      assert !Occurs(shapes[0], m);
      forall j | 0 <= j < k - 1 ensures !Occurs(shapes[1..][j], m) { assert shapes[1..][j] == shapes[j + 1]; }
      FirstShapeIsTaken(m, shapes[1..], k - 1, i);
    }
  }

  lemma FirstMatchIs(shape: Shape, m: Method)
    requires FirstMatch(shape, m, 0).Some?
    ensures MatchAt(shape, m, FirstMatch(shape, m, 0).value.0) == Some(FirstMatch(shape, m, 0).value.1)
  {
    hide MatchAt;
  }

  /** Straight-line code that ends is always recovered, as its statements in order: no shape takes it for its own. */
  lemma {:induction false} StraightRecovered(m: Method, shapes: seq<Shape>)
    requires Ending(m, 0, |m.code|)
    ensures LinearBody(m).Some? && LinearBody(m).value.Straight? && Recovered(m, shapes) == LinearBody(m)
    decreases |shapes|
  {
    hide FirstMatch, LinearBody;
    LinearBodyIff(m);
    StraightIs(m);
    if shapes != [] {
      NoMatchIn(shapes[0], m, 0);
      StraightRecovered(m, shapes[1..]);
    }
  }

  lemma StraightIs(m: Method)
    ensures LinearBody(m).Some? ==> LinearBody(m).value.Straight?
  {
  }

  lemma {:induction false} NoMatchIn(shape: Shape, m: Method, i: nat)
    requires Ending(m, 0, |m.code|)
    ensures FirstMatch(shape, m, i).None?
    decreases |m.code| - i
  {
    hide MatchAt, IsSimple, IsTerminal;
    if i < |m.code| {
      NoBranch(m, i);
      NoMatchWithout(shape, m, i);
      NoMatchIn(shape, m, i + 1);
    }
  }

  lemma NoBranch(m: Method, i: nat)
    requires Ending(m, 0, |m.code|) && i < |m.code|
    ensures !IsIf(m.code[i].op) && !m.code[i].op.Switch?
  {
    if i < |m.code| - 1 { assert IsSimple(m.code[i].op); }
  }

  lemma NoMatchWithout(shape: Shape, m: Method, i: nat)
    requires i < |m.code| && !IsIf(m.code[i].op) && !m.code[i].op.Switch?
    ensures MatchAt(shape, m, i).None?
  {
    hide MultiBranchAt, BuildGuards, Linear;
    NoMultiBranch(m, i);
  }
}
