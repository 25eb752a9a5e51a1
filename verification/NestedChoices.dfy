module NestedChoices {
  // Nests of branches that assign one register and meet. The matcher takes each arm of the nest for one assignment
  // on the way to the join. It is that if the arm is straight-line code that ends at the join or in a goto to it; of
  // other arms it passes over code.

  import opened MachineInts
  import opened JavaBody
  import opened DalvikMachine
  import opened RegisterLayout
  import opened LinearRecovery
  import opened BodyShapes
  import opened NamedRegisters
  import opened BodiesPreserved
  import opened Liveness
  import opened FollowedPaths
  import opened TerminalSlices
  import opened AlikeValues
  import opened Options

  // ----- Arms -----

  /** Straight-line code from start that ends at the join, or in a goto to it, at once or through gotos alone. */
  predicate Clean(m: Method, start: nat, end: nat, join: nat, depth: nat)
    requires start <= end <= join < |m.code|
    decreases 5 - depth
  {
    depth <= 4 &&
    var g := NextGoto(m, start, end);
    if g == end then end == join && AllSimple(m, start, end)
    else if m.code[g].op.to == m.code[join].offset then AllSimple(m, start, g)
    else
      var target := IndexOf(m.code, m.code[g].op.to);
      g == start && target.Some? && g < target.value < join && Clean(m, target.value, join, join, depth + 1)
  }

  /** A path was read without passing over code exactly if its code is clean. */
  lemma {:induction false} PathCleanIff(m: Method, start: nat, end: nat, join: nat, values: Values, depth: nat)
    requires end <= join < |m.code| && AssignmentPath(m, start, end, join, values, depth).Choice?
    ensures start < end && (AssignmentPath(m, start, end, join, values, depth).faithful <==> Clean(m, start, end, join, depth))
    decreases 5 - depth
  {
    hide Linear, SingleAssignment;
    var g := NextGoto(m, start, end);
    if g == end || m.code[g].op.to == m.code[join].offset {
      AssignmentIs(m, start, g, values);
    } else if g == start {
      NoEmptyAssignment(m, start, values);
      PathCleanIff(m, IndexOf(m.code, m.code[g].op.to).value, join, join, values, depth + 1);
    }
  }

  /** A single assignment is straight-line code without effects that changes one register. */
  lemma AssignmentIs(m: Method, a: nat, b: nat, values: Values)
    requires a <= b <= |m.code| && SingleAssignment(m, a, b, values).Some?
    ensures AllSimple(m, a, b) && Linear(m, a, b, values).block.stmts == []
    ensures var r := SingleAssignment(m, a, b, values).value; Linear(m, a, b, values).values == values[r.0 := r.1]
  {
    hide Linear, IsSimple;
    LinearIffSimple(m, a, b, values);
    LinearGrows(m, a, b, values);
  }

  lemma {:induction false} LinearGrows(m: Method, a: nat, b: nat, values: Values)
    requires a <= b <= |m.code|
    ensures values.Keys <= Linear(m, a, b, values).values.Keys
    decreases b - a
  {
    if a < b && !IsTerminal(m.code[a].op) && Symbolic(m, m.code[a].op, values).Some? {
      LinearGrows(m, a + 1, b, Symbolic(m, m.code[a].op, values).value.0);
    }
  }

  lemma NoEmptyAssignment(m: Method, a: nat, values: Values)
    requires a <= |m.code|
    ensures SingleAssignment(m, a, a, values).None?
  {
    assert ChangedRegs(values, values) == {};
  }

  /** An arm of a nest: code from start up to end, behind as many branches as depth says, and the assignment it is read for. */
  datatype Arm = Arm(start: nat, end: nat, depth: nat, read: Choice)

  function ArmAt(m: Method, start: nat, end: nat, join: nat, values: Values, depth: nat): Arm
    requires end <= join < |m.code|
  {
    Arm(start, end, depth, AssignmentPath(m, start, end, join, values, 0))
  }

  /** A branch at start that skips code and stays in front of the join. */
  predicate Branches(m: Method, start: nat, join: nat, depth: nat) {
    && depth <= 4 && start < join < |m.code| && IsIf(m.code[start].op)
    && var target := IndexOf(m.code, m.code[start].op.to); target.Some? && start + 1 < target.value < join
  }

  function BranchTarget(m: Method, start: nat, join: nat, depth: nat): (t: nat)
    requires Branches(m, start, join, depth)
    ensures start + 1 < t < join
  {
    IndexOf(m.code, m.code[start].op.to).value
  }

  /** One side of a branch: a nest, or else a path. */
  function SideOf(m: Method, start: nat, end: nat, join: nat, values: Values, depth: nat): Choice
    requires end <= join < |m.code|
  {
    var c := ParseChoice(m, start, join, values, depth);
    if c.Choice? then c else AssignmentPath(m, start, end, join, values, 0)
  }

  lemma ChoiceParts(m: Method, start: nat, join: nat, values: Values, depth: nat)
    requires join < |m.code| && ParseChoice(m, start, join, values, depth).Choice?
    ensures depth <= 4 && start < join
    ensures IsIf(m.code[start].op) ==>
              && Branches(m, start, join, depth)
              && var target := BranchTarget(m, start, join, depth);
                 var fall := SideOf(m, start + 1, target, join, values, depth + 1);
                 var taken := SideOf(m, target, join, join, values, depth + 1);
                 && fall.Choice? && taken.Choice? && fall.reg == taken.reg
                 && ParseChoice(m, start, join, values, depth)
                    == Choice(fall.reg, Joined(ConditionOf(m, m.code[start].op, values), taken.carried, fall.carried),
                              fall.faithful && taken.faithful)
    ensures !IsIf(m.code[start].op) ==> ParseChoice(m, start, join, values, depth) == AssignmentPath(m, start, join, join, values, 0)
  {
    hide AssignmentPath, ConditionOf;
  }

  /** The arms that the matcher reads. */
  function Arms(m: Method, start: nat, join: nat, values: Values, depth: nat): seq<Arm>
    requires join < |m.code|
    decreases 5 - depth, 0
  {
    if !Branches(m, start, join, depth) then [ArmAt(m, start, join, join, values, depth)]
    else
      var target := BranchTarget(m, start, join, depth);
      SideArms(m, start + 1, target, join, values, depth + 1) + SideArms(m, target, join, join, values, depth + 1)
  }

  function SideArms(m: Method, start: nat, end: nat, join: nat, values: Values, depth: nat): seq<Arm>
    requires end <= join < |m.code|
    decreases 5 - depth, 1
  {
    if ParseChoice(m, start, join, values, depth).Choice? then Arms(m, start, join, values, depth)
    else [ArmAt(m, start, end, join, values, depth)]
  }

  predicate AllClean(m: Method, arms: seq<Arm>, join: nat)
    requires join < |m.code|
  {
    forall arm :: arm in arms ==> arm.start <= arm.end <= join && Clean(m, arm.start, arm.end, join, 0)
  }

  /** A nest was read without passing over code exactly if every one of its arms is clean. */
  lemma {:induction false} NestCleanIff(m: Method, start: nat, join: nat, values: Values, depth: nat)
    requires join < |m.code| && ParseChoice(m, start, join, values, depth).Choice?
    ensures ParseChoice(m, start, join, values, depth).faithful <==> AllClean(m, Arms(m, start, join, values, depth), join)
    decreases 5 - depth, 0
  {
    hide Clean, AssignmentPath, ConditionOf, ParseChoice, AllClean;
    ChoiceParts(m, start, join, values, depth);
    if IsIf(m.code[start].op) {
      var target := BranchTarget(m, start, join, depth);
      SideCleanIff(m, start + 1, target, join, values, depth + 1);
      SideCleanIff(m, target, join, join, values, depth + 1);
      AllCleanConcat(m, SideArms(m, start + 1, target, join, values, depth + 1), SideArms(m, target, join, join, values, depth + 1), join);
    } else {
      PathCleanIff(m, start, join, join, values, 0);
      OneArm(m, ArmAt(m, start, join, join, values, depth), join);
    }
  }

  lemma {:induction false} SideCleanIff(m: Method, start: nat, end: nat, join: nat, values: Values, depth: nat)
    requires end <= join < |m.code| && SideOf(m, start, end, join, values, depth).Choice?
    ensures SideOf(m, start, end, join, values, depth).faithful <==> AllClean(m, SideArms(m, start, end, join, values, depth), join)
    decreases 5 - depth, 1
  {
    hide Clean, AssignmentPath, ConditionOf, ParseChoice, AllClean, Arms;
    if ParseChoice(m, start, join, values, depth).Choice? {
      ChoiceParts(m, start, join, values, depth);
      NestCleanIff(m, start, join, values, depth);
    } else {
      PathCleanIff(m, start, end, join, values, 0);
      OneArm(m, ArmAt(m, start, end, join, values, depth), join);
    }
  }

  lemma OneArm(m: Method, arm: Arm, join: nat)
    requires arm.start <= arm.end <= join < |m.code|
    ensures AllClean(m, [arm], join) <==> Clean(m, arm.start, arm.end, join, 0)
  {
    hide Clean;
    assert arm in [arm];
  }

  lemma AllCleanConcat(m: Method, a: seq<Arm>, b: seq<Arm>, join: nat)
    requires join < |m.code|
    ensures AllClean(m, a + b, join) <==> AllClean(m, a, join) && AllClean(m, b, join)
  {
    hide Clean;
    if AllClean(m, a + b, join) {
      forall arm | arm in a ensures arm in a + b {}
      forall arm | arm in b ensures arm in a + b {}
    }
  }

  // ----- From a branch to its join -----

  /** The side of its first branch that a call takes, up to where the matcher reads it. */
  function SideTo(m: Method, start: nat, join: nat, values: Values, depth: nat, call: Call): (side: Arm)
    requires Branches(m, start, join, depth)
    ensures start < side.start && side.end <= join && side.depth == depth + 1
  {
    var target := BranchTarget(m, start, join, depth);
    if Holds(ConditionOf(m, m.code[start].op, values), call) then ArmAt(m, target, join, join, values, depth + 1)
    else ArmAt(m, start + 1, target, join, values, depth + 1)
  }

  /** The arm that a call takes. */
  function TakenArm(m: Method, start: nat, join: nat, values: Values, depth: nat, call: Call): Arm
    requires join < |m.code|
    decreases 5 - depth
  {
    if !Branches(m, start, join, depth) then ArmAt(m, start, join, join, values, depth)
    else
      var side := SideTo(m, start, join, values, depth, call);
      if ParseChoice(m, side.start, join, values, depth + 1).Choice? then TakenArm(m, side.start, join, values, depth + 1, call)
      else side
  }

  /** What the side taken is read for assigns the register of the nest. */
  lemma SideAssigns(m: Method, start: nat, join: nat, values: Values, depth: nat, call: Call)
    requires Branches(m, start, join, depth) && ParseChoice(m, start, join, values, depth).Choice?
    ensures var side := SideTo(m, start, join, values, depth, call);
            var c := ParseChoice(m, side.start, join, values, depth + 1);
            && (c.Choice? ==> c.reg == ParseChoice(m, start, join, values, depth).reg)
            && (c.NoChoice? ==>
                  && side.read.Choice? && side.read.reg == ParseChoice(m, start, join, values, depth).reg
                  && side.read == AssignmentPath(m, side.start, side.end, join, values, 0))
  {
    hide ParseChoice, AssignmentPath, ConditionOf, Holds;
    ChoiceParts(m, start, join, values, depth);
  }

  lemma {:induction false} TakenIsArm(m: Method, start: nat, join: nat, values: Values, depth: nat, call: Call)
    requires join < |m.code| && ParseChoice(m, start, join, values, depth).Choice?
    ensures var arm := TakenArm(m, start, join, values, depth, call);
            && arm.depth >= depth && start + (arm.depth - depth) <= arm.start < arm.end <= join
            && arm.read == AssignmentPath(m, arm.start, arm.end, join, values, 0)
            && arm.read.Choice? && arm.read.reg == ParseChoice(m, start, join, values, depth).reg
            && arm in Arms(m, start, join, values, depth)
    decreases 5 - depth
  {
    hide ParseChoice, AssignmentPath, ConditionOf, Holds;
    ChoiceParts(m, start, join, values, depth);
    if IsIf(m.code[start].op) {
      var side := SideTo(m, start, join, values, depth, call);
      SideAssigns(m, start, join, values, depth, call);
      if ParseChoice(m, side.start, join, values, depth + 1).Choice? { TakenIsArm(m, side.start, join, values, depth + 1, call); }
      else { PathIsNotEmpty(m, side.start, side.end, join, values); }
    } else {
      PathIsNotEmpty(m, start, join, join, values);
    }
  }

  lemma PathIsNotEmpty(m: Method, start: nat, end: nat, join: nat, values: Values)
    requires end <= join < |m.code| && AssignmentPath(m, start, end, join, values, 0).Choice?
    ensures start < end
  {
  }

  /** The path of a call goes through the branches of the nest to that arm. */
  lemma {:induction false} ChoiceFollowed(m: Method, start: nat, join: nat, values: Values, depth: nat, call: Call, fuel: nat)
    requires join < |m.code| && fuel + start >= |m.code|
    requires ParseChoice(m, start, join, values, depth).Choice?
    ensures var arm := TakenArm(m, start, join, values, depth, call);
            && fuel >= arm.depth - depth >= 0
            && Followed(m, start, values, call, fuel) == Followed(m, arm.start, values, call, fuel - (arm.depth - depth))
    decreases 5 - depth
  {
    hide Followed, AssignmentPath, ConditionOf, Holds, ParseChoice;
    ChoiceParts(m, start, join, values, depth);
    if IsIf(m.code[start].op) {
      var side := SideTo(m, start, join, values, depth, call);
      FollowedBranch(m, start, values, call, fuel);
      if ParseChoice(m, side.start, join, values, depth + 1).Choice? {
        ChoiceFollowed(m, side.start, join, values, depth + 1, call, fuel - 1);
      }
    }
  }

  /** The path through a clean arm reaches the join with the assignment the arm was read for, and nothing else done. */
  lemma {:induction false} ArmFollowed(
    m: Method, start: nat, end: nat, join: nat, values: Values, depth: nat, call: Call, fuel: nat)
    returns (left: nat)
    requires start < end <= join < |m.code| && Tiled(m.code) && fuel + start >= |m.code|
    requires AssignmentPath(m, start, end, join, values, depth).Choice? && Clean(m, start, end, join, depth)
    ensures var c := AssignmentPath(m, start, end, join, values, depth);
            && left + join >= |m.code|
            && Followed(m, start, values, call, fuel) == Followed(m, join, values[c.reg := c.carried], call, left)
    decreases 5 - depth
  {
    hide Followed, Linear, SingleAssignment;
    var g := NextGoto(m, start, end);
    if g == end {
      left := fuel - (g - start);
      BlockFollowed(m, start, g, values, call, fuel);
    } else if m.code[g].op.to == m.code[join].offset {
      left := fuel - (g - start) - 1;
      BlockFollowed(m, start, g, values, call, fuel);
      OffsetNamesPosition(m.code, join);
      var r := SingleAssignment(m, start, g, values).value;
      FollowedGoto(m, g, values[r.0 := r.1], call, fuel - (g - start));
    } else {
      NoEmptyAssignment(m, start, values);
      FollowedGoto(m, g, values, call, fuel);
      left := ArmFollowed(m, IndexOf(m.code, m.code[g].op.to).value, join, join, values, depth + 1, call, fuel - 1);
    }
  }

  lemma BlockFollowed(m: Method, a: nat, b: nat, values: Values, call: Call, fuel: nat)
    requires a <= b <= |m.code| && fuel >= b - a && SingleAssignment(m, a, b, values).Some?
    ensures var r := SingleAssignment(m, a, b, values).value;
            Followed(m, a, values, call, fuel) == Followed(m, b, values[r.0 := r.1], call, fuel - (b - a))
  {
    hide Followed, Linear, SingleAssignment, RunStmts;
    AssignmentIs(m, a, b, values);
    FollowedLinear(m, a, b, values, call, fuel);
    RunNothing(call);
    PrependNothing(Followed(m, b, Linear(m, a, b, values).values, call, fuel - (b - a)));
  }

  /** The conditional expression evaluates to what the taken arm assigns. */
  lemma {:induction false} ChoiceIsTaken(m: Method, start: nat, join: nat, values: Values, depth: nat, call: Call)
    requires join < |m.code| && Fits(call)
    requires ParseChoice(m, start, join, values, depth).Choice?
    ensures var e := ParseChoice(m, start, join, values, depth).carried.e;
            var arm := TakenArm(m, start, join, values, depth, call);
            arm.read.Choice? && (Safe(e, call.descs) ==> Eval(e, call) == Eval(arm.read.carried.e, call))
    decreases 5 - depth
  {
    hide AssignmentPath, ConditionOf, Eval, Holds, ParseChoice, Arms;
    ChoiceParts(m, start, join, values, depth);
    TakenIsArm(m, start, join, values, depth, call);
    if IsIf(m.code[start].op) {
      var target := BranchTarget(m, start, join, depth);
      var e := ParseChoice(m, start, join, values, depth).carried.e;
      var fall := SideOf(m, start + 1, target, join, values, depth + 1);
      var taken := SideOf(m, target, join, join, values, depth + 1);
      if Safe(e, call.descs) {
        TernaryPicks(ConditionOf(m, m.code[start].op, values), taken.carried.e, fall.carried.e, call);
      }
      var side := SideTo(m, start, join, values, depth, call);
      if ParseChoice(m, side.start, join, values, depth + 1).Choice? { ChoiceIsTaken(m, side.start, join, values, depth + 1, call); }
    }
  }

  // ----- Tails -----

  /** The tail as the matcher prints it: straight, or guarded from the values that the straight attempt left. */
  function PrintedTail(m: Method, join: nat, values: Values): Option<Stmts>
    requires join < |m.code|
  {
    var tail := Linear(m, join, |m.code|, values);
    if tail.ok && tail.block.ends then Some(Closed(tail.block, m.IsVoid()))
    else if !m.IsVoid() then None
    else VoidTail(m, join, tail.values)
  }

  /** The tail as its code means it. */
  function FreshTail(m: Method, join: nat, values: Values): Option<Stmts>
    requires join < |m.code|
  {
    var tail := Linear(m, join, |m.code|, values);
    if tail.ok && tail.block.ends then Some(Closed(tail.block, m.IsVoid()))
    else if !m.IsVoid() then None
    else VoidTail(m, join, values)
  }

  /** Every register that is live at the join still has its expression when the tail is evaluated again. */
  ghost predicate TailRereads(m: Method, join: nat, values: Values)
    requires join < |m.code|
  {
    var tail := Linear(m, join, |m.code|, values);
    (tail.ok && tail.block.ends) || SameOn(m, LiveIn(m, join, |m.code| - 1, {}), tail.values, values)
  }

  /** What is printed for the tail is what its code means exactly if the second evaluation rereads the same values. */
  lemma TailIsFresh(m: Method, join: nat, values: Values)
    requires join < |m.code| && PrintedTail(m, join, values).Some?
    ensures FreshTail(m, join, values).Some?
    ensures PrintedTail(m, join, values) == FreshTail(m, join, values) <==> TailRereads(m, join, values)
  {
    hide Linear, LiveIn, SameOn, VoidTail;
    var tail := Linear(m, join, |m.code|, values);
    if !(tail.ok && tail.block.ends) {
      VoidTailAccepted(m, join, tail.values, values);
      VoidTailIsGuarded(m, join, tail.values);
      VoidTailIsGuarded(m, join, values);
      GuardedLive(m, join, |m.code| - 1, tail.values, values);
    }
  }

  lemma VoidTailAccepted(m: Method, a: nat, v: Values, w: Values)
    requires a <= |m.code| && VoidTail(m, a, v).Some?
    ensures VoidTail(m, a, w).Some?
  {
    hide Linear, IsSimple, ConditionOf;
    var last := |m.code| - 1;
    var g := NextIfTo(m, a, last, m.code[last].offset);
    LinearIffSimple(m, a, g, v);
    LinearIffSimple(m, a, g, w);
    LinearIffSimple(m, g + 1, last, Linear(m, a, g, v).values);
    LinearIffSimple(m, g + 1, last, Linear(m, a, g, w).values);
  }

  /** A void tail with one guard is a guarded block. */
  lemma VoidTailIsGuarded(m: Method, a: nat, values: Values)
    requires a <= |m.code| && VoidTail(m, a, values).Some?
    ensures a < |m.code| && m.code[|m.code| - 1].op.ReturnVoid?
    ensures GuardedFrom(m, a, |m.code| - 1, values) == VoidTail(m, a, values)
  {
    hide Linear, IsSimple, ConditionOf;
    var last := |m.code| - 1;
    var g := NextIfTo(m, a, last, m.code[last].offset);
    var prefix := Linear(m, a, g, values);
    LinearIffSimple(m, a, g, values);
    LinearIffSimple(m, g + 1, last, prefix.values);
    SimpleHasNoIf(m, a, g);
    SimpleHasNoIf(m, g + 1, last);
    NextIfAfter(m, a, g, last);
    NextIfAfter(m, g + 1, last, last);
    EmptyChunk(m, last, prefix.values);
  }

  lemma EmptyChunk(m: Method, last: nat, values: Values)
    requires last < |m.code|
    ensures Linear(m, last, last, values).block.stmts == [] && GuardedFrom(m, last, last, values) == Some([])
  {
  }

  lemma SimpleHasNoIf(m: Method, a: nat, b: nat)
    requires a <= b <= |m.code| && AllSimple(m, a, b)
    ensures forall p :: a <= p < b ==> !IsIf(m.code[p].op)
  {
    forall p | a <= p < b ensures !IsIf(m.code[p].op) { assert IsSimple(m.code[p].op); }
  }

  lemma {:induction false} NextIfAfter(m: Method, a: nat, g: nat, last: nat)
    requires a <= g <= last <= |m.code|
    requires forall p :: a <= p < g ==> !IsIf(m.code[p].op)
    requires g == last || IsIf(m.code[g].op)
    ensures NextIf(m, a, last) == g
    decreases g - a
  {
    if a < g { NextIfAfter(m, a + 1, g, last); }
  }

  /** Whether the tail is straight, and whether its guarded form is accepted, does not depend on the values. */
  lemma TailAccepted(m: Method, join: nat, v: Values, w: Values)
    requires join < |m.code| && FreshTail(m, join, v).Some?
    ensures FreshTail(m, join, w).Some?
    ensures var a, b := Linear(m, join, |m.code|, v), Linear(m, join, |m.code|, w);
            (a.ok && a.block.ends) == (b.ok && b.block.ends)
  {
    hide Linear, VoidTail, LiveIn, SameOn;
    var a, b := Linear(m, join, |m.code|, v), Linear(m, join, |m.code|, w);
    if a.ok && a.block.ends {
      EndingLive(m, join, |m.code|, v, w);
    } else {
      if b.ok && b.block.ends { EndingLive(m, join, |m.code|, w, v); }
      VoidTailAccepted(m, join, v, w);
    }
  }

  /** The path from the join on ends as the tail, printed afresh, does. */
  lemma TailFollowed(m: Method, join: nat, values: Values, call: Call, fuel: nat)
    requires join < |m.code| && Tiled(m.code) && fuel + join >= |m.code| && FreshTail(m, join, values).Some?
    ensures Agrees(Followed(m, join, values, call, fuel), RunStmts(FreshTail(m, join, values).value, call))
  {
    hide Linear, Followed, RunStmts, VoidTail, GuardedFrom;
    var tail := Linear(m, join, |m.code|, values);
    var run := Followed(m, join, values, call, fuel);
    if tail.ok && tail.block.ends {
      FollowedEnding(m, join, |m.code|, values, call, fuel);
      var closed := Closed(tail.block, m.IsVoid());
      if Printed(tail.block, m.IsVoid()) != closed { WithoutLastReturn(run, closed, call); }
    } else {
      VoidTailIsGuarded(m, join, values);
      FollowedGuarded(m, join, |m.code| - 1, values, call, fuel);
      WithoutLastReturn(run, VoidTail(m, join, values).value, call);
    }
  }

  lemma WithoutLastReturn(run: Run, stmts: Stmts, call: Call)
    requires AgreesEnd(run, RunStmts(stmts + [ReturnNothing], call))
    ensures Agrees(run, RunStmts(stmts, call))
  {
    hide RunStmts;
    RunStmtsConcat(stmts, [ReturnNothing], call);
    RunOne(ReturnNothing, call);
    var ran := RunStmts(stmts, call);
    assert ran.trace + [] == ran.trace;
  }

  // ----- Multi-branch bodies -----

  /** The parts of a nest at position i: the join, the values in front of it, and what it was read for. */
  datatype Nest = Nest(join: nat, values: Values, choice: Choice)

  function NestAt(m: Method, i: nat): (n: Nest)
    requires MultiBranchAt(m, i).Some?
    ensures i < |m.code| && n.join < |m.code| && n.choice.Choice?
  {
    var join := FirstJoin(m, i, i + 1, TargetOf(m, i)).value.0;
    var values := Linear(m, 0, i, map[]).values;
    Nest(join, values, ParseChoice(m, i, join, values, 0))
  }

  /** The values at the join as the matcher has them: the register of the nest carries the conditional expression. */
  function JoinedValues(m: Method, i: nat): Values
    requires MultiBranchAt(m, i).Some?
  {
    var n := NestAt(m, i);
    n.values[n.choice.reg := n.choice.carried]
  }

  lemma NestBody(m: Method, i: nat)
    requires MultiBranchAt(m, i).Some?
    ensures Opens(m, i)
    ensures var n := NestAt(m, i);
            var printed := PrintedTail(m, n.join, JoinedValues(m, i));
            && n.values == Linear(m, 0, i, map[]).values
            && n.choice == ParseChoice(m, i, n.join, n.values, 0)
            && printed.Some?
            && MultiBranchAt(m, i).value == Straight(Linear(m, 0, i, map[]).block.stmts + printed.value)
  {
    hide Linear, ParseChoice, VoidTail;
  }

  /** The arm that a call takes. */
  function ArmTaken(m: Method, i: nat, call: Call): (arm: Arm)
    requires MultiBranchAt(m, i).Some?
    ensures arm.start < arm.end <= NestAt(m, i).join && i + arm.depth <= arm.start && arm.read.Choice?
  {
    var n := NestAt(m, i);
    NestBody(m, i);
    TakenIsArm(m, i, n.join, n.values, 0, call);
    TakenArm(m, i, n.join, n.values, 0, call)
  }

  /** The values at the join of a call whose arm is clean. */
  function ArmValues(m: Method, i: nat, call: Call): Values
    requires MultiBranchAt(m, i).Some?
  {
    var read := ArmTaken(m, i, call).read;
    NestAt(m, i).values[read.reg := read.carried]
  }

  /**
   On this call the printed tail does what the code does: from a clean arm that is the tail with the values of the
   arm taken; from an arm that is not, whatever code is followed from there.
   */
  predicate ChoiceRight(m: Method, i: nat, call: Call)
    requires MultiBranchAt(m, i).Some?
  {
    var n := NestAt(m, i);
    var arm := ArmTaken(m, i, call);
    var printed := PrintedTail(m, n.join, JoinedValues(m, i));
    var meant := FreshTail(m, n.join, ArmValues(m, i, call));
    printed.Some? &&
    if Clean(m, arm.start, arm.end, n.join, 0) then
      meant.Some? && RunBody(Straight(printed.value), call) == RunBody(Straight(meant.value), call)
    else Followed(m, arm.start, n.values, call, |m.code| - i - arm.depth) == Done(RunBody(Straight(printed.value), call))
  }

  /** The path from a nest on goes to the arm taken, and if that is clean ends as the tail with the values of that arm. */
  lemma NestFollowed(m: Method, i: nat, call: Call)
    requires Tiled(m.code) && MultiBranchAt(m, i).Some?
    ensures var n := NestAt(m, i);
            var arm := ArmTaken(m, i, call);
            var rest := Followed(m, i, n.values, call, |m.code| - i);
            var meant := FreshTail(m, n.join, ArmValues(m, i, call));
            && rest == Followed(m, arm.start, n.values, call, |m.code| - i - arm.depth)
            && (Clean(m, arm.start, arm.end, n.join, 0) ==> meant.Some? && Agrees(rest, RunStmts(meant.value, call)))
  {
    hide Linear, Followed, ParseChoice, AssignmentPath, RunStmts, FreshTail, PrintedTail, Clean, MultiBranchAt, NestAt, Arms, TakenArm;
    var n := NestAt(m, i);
    var arm := ArmTaken(m, i, call);
    NestBody(m, i);
    TakenIsArm(m, i, n.join, n.values, 0, call);
    ChoiceFollowed(m, i, n.join, n.values, 0, call, |m.code| - i);
    if Clean(m, arm.start, arm.end, n.join, 0) {
      var left := ArmFollowed(m, arm.start, arm.end, n.join, n.values, 0, call, |m.code| - i - arm.depth);
      TailIsFresh(m, n.join, JoinedValues(m, i));
      TailAccepted(m, n.join, JoinedValues(m, i), ArmValues(m, i, call));
      TailFollowed(m, n.join, ArmValues(m, i, call), call, left);
    }
  }

  lemma OutcomeOf(first: Stmts, second: Stmts, rest: Run, call: Call)
    requires RunStmts(first, call).end.None?
    ensures Prepend(RunStmts(first, call).trace, rest) == Done(RunBody(Straight(first + second), call))
       <==> rest == Done(RunBody(Straight(second), call))
  {
    hide RunStmts;
    RunStmtsConcat(first, second, call);
    var t := RunStmts(first, call).trace;
    if rest.Done? {
      var u := RunStmts(second, call).trace;
      if t + rest.outcome.trace == t + u { CancelTrace(t, rest.outcome.trace, u); }
    }
  }

  lemma CancelTrace(t: seq<Event>, a: seq<Event>, b: seq<Event>)
    requires t + a == t + b
    ensures a == b
  {
    assert (t + a)[|t|..] == a && (t + b)[|t|..] == b;
  }

  /** A body with a nest is right exactly if what is printed for the tail is what the path from the nest on ends as. */
  lemma DecidedFromNest(m: Method, i: nat, call: Call)
    requires CallOf(m, call) && MultiBranchAt(m, i).Some?
    ensures var n := NestAt(m, i);
            var printed := PrintedTail(m, n.join, JoinedValues(m, i));
            var rest := Followed(m, i, n.values, call, |m.code| - i);
            var run := RunFrom(m, 0, Entry(m, call), |m.code|);
            && printed.Some?
            && (run.Stuck? || !rest.Stuck?)
            && (Preserves(m, MultiBranchAt(m, i).value, call) <==> run.Stuck? || rest == Done(RunBody(Straight(printed.value), call)))
  {
    hide RunFrom, Linear, Followed, ParseChoice, RunStmts, RunBody, PrintedTail, MultiBranchAt, Entry, Preserves, NestAt;
    var n := NestAt(m, i);
    NestBody(m, i);
    var prefix := Linear(m, 0, i, map[]);
    var printed := PrintedTail(m, n.join, JoinedValues(m, i)).value;
    PreservesIffPath(m, MultiBranchAt(m, i).value, call);
    PathOrStuck(m, call);
    LinearIffSimple(m, 0, i, map[]);
    FollowedLinear(m, 0, i, map[], call, |m.code|);
    OutcomeOf(prefix.block.stmts, printed, Followed(m, i, n.values, call, |m.code| - i), call);
  }

  /** A body with a nest preserves the method on a call exactly if the printed tail is right for the arm the call takes. */
  lemma MultiBranchExact(m: Method, i: nat, call: Call)
    requires CallOf(m, call) && Tiled(m.code) && MultiBranchAt(m, i).Some?
    ensures Preserves(m, MultiBranchAt(m, i).value, call)
       <==> RunFrom(m, 0, Entry(m, call), |m.code|).Stuck? || ChoiceRight(m, i, call)
  {
    hide RunFrom, Followed, RunStmts, RunBody, FreshTail, PrintedTail, Clean, MultiBranchAt, ArmTaken, NestAt;
    hide Entry, Preserves, JoinedValues, ArmValues;
    var n := NestAt(m, i);
    var arm := ArmTaken(m, i, call);
    DecidedFromNest(m, i, call);
    NestFollowed(m, i, call);
    if Clean(m, arm.start, arm.end, n.join, 0) {
      StraightOutcome(FreshTail(m, n.join, ArmValues(m, i, call)).value, call);
    }
  }

  lemma StraightOutcome(stmts: Stmts, call: Call)
    ensures var ran := RunStmts(stmts, call);
            RunBody(Straight(stmts), call) == Outcome(ran.trace, if ran.end.Some? then ran.end.value else ReturnedVoid)
  {
  }

  /** Every arm of the nest is clean, and the tail, should it be evaluated twice, rereads the same values. */
  ghost predicate NestReadRight(m: Method, i: nat)
    requires MultiBranchAt(m, i).Some?
  {
    var n := NestAt(m, i);
    && AllClean(m, Arms(m, i, n.join, n.values, 0), n.join)
    && TailRereads(m, n.join, JoinedValues(m, i))
  }

  /** Printed with the conditional expression, the tail does what it does with the assignment of the arm taken. */
  lemma JoinedAlike(m: Method, i: nat, call: Call)
    requires MultiBranchAt(m, i).Some? && Fits(call)
    ensures Alike(m, JoinedValues(m, i), ArmValues(m, i, call), call)
  {
    hide Linear, ParseChoice, AssignmentPath, PrintedTail, MultiBranchAt, Eval, Safe, NestAt, TakenArm, Arms, ValueOf;
    var n := NestAt(m, i);
    NestBody(m, i);
    TakenIsArm(m, i, n.join, n.values, 0, call);
    ChoiceIsTaken(m, i, n.join, n.values, 0, call);
    AlikeWrite(m, n.values, n.values, call, n.choice.reg, n.choice.carried, ArmTaken(m, i, call).read.carried);
  }

  lemma FreshTailAlike(m: Method, join: nat, v: Values, w: Values, call: Call)
    requires join < |m.code| && FreshTail(m, join, v).Some? && SafeStmts(FreshTail(m, join, v).value, call.descs)
    requires Alike(m, v, w, call)
    ensures FreshTail(m, join, w).Some?
    ensures RunStmts(FreshTail(m, join, v).value, call) == RunStmts(FreshTail(m, join, w).value, call)
  {
    hide Linear, VoidTail, RunStmts, Alike;
    TailAccepted(m, join, v, w);
    var a := Linear(m, join, |m.code|, v);
    if a.ok && a.block.ends { EndingAlike(m, join, |m.code|, v, w, call); } else { VoidTailAlike(m, join, v, w, call); }
  }

  /** Clean arms, and a tail that rereads the same values: then a body that may be printed is right on every call. */
  lemma MultiBranchPreserves(m: Method, i: nat, call: Call)
    requires CallOf(m, call) && Tiled(m.code)
    requires MultiBranchAt(m, i).Some? && SafeBody(MultiBranchAt(m, i).value, call.descs)
    requires NestReadRight(m, i)
    ensures Preserves(m, MultiBranchAt(m, i).value, call)
  {
    hide Linear, ParseChoice, PrintedTail, FreshTail, Clean, MultiBranchAt, RunFrom, Preserves, Entry, NestAt, JoinedValues, ArmValues;
    hide TailRereads, RunStmts, Alike, TakenArm, Arms;
    var n := NestAt(m, i);
    var joined := JoinedValues(m, i);
    NestBody(m, i);
    TakenIsArm(m, i, n.join, n.values, 0, call);
    SafeStmtsConcat(Linear(m, 0, i, map[]).block.stmts, PrintedTail(m, n.join, joined).value, call.descs);
    TailIsFresh(m, n.join, joined);
    JoinedAlike(m, i, call);
    FreshTailAlike(m, n.join, joined, ArmValues(m, i, call), call);
    MultiBranchExact(m, i, call);
  }
}
