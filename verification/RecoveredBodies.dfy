module RecoveredBodies {
  // Every shape, and the writer as a whole: when the recovered body does what the bytecode does. Eight of the twelve
  // shapes, and the straight-line form, always do; of the other four it is said exactly on which calls.

  import opened MachineInts
  import opened JavaBody
  import opened DalvikMachine
  import opened RegisterLayout
  import opened LinearRecovery
  import opened BodyShapes
  import opened BodiesPreserved
  import opened ConditionalAssignments
  import opened Liveness
  import opened TerminalSlices
  import opened GuardedReturns
  import opened NestedChoices
  import opened Options

  /** What decides a call: for the four shapes, the side, case, guard or arm that the call takes. */
  predicate Right(shape: Shape, m: Method, i: nat, call: Call)
    requires MatchAt(shape, m, i).Some?
  {
    match shape
    case SwitchCases => SliceRight(m, CaseTaken(m, i, call), Linear(m, 0, i, map[]).values, call)
    case IfTerminal => SliceRight(m, SideTaken(m, i, call), Linear(m, 0, i, map[]).values, call)
    case MultiBranch => ChoiceRight(m, i, call)
    case GuardedReturn => GuardRight(m, i, call)
    case _ => true
  }

  /**
   The main theorem: a body that any matcher prints, and that may be printed, does on a call what the bytecode does
   exactly if it is right there.
   */
  lemma ShapeExact(shape: Shape, m: Method, i: nat, call: Call)
    requires CallOf(m, call) && Tiled(m.code)
    requires MatchAt(shape, m, i).Some? && SafeBody(MatchAt(shape, m, i).value, call.descs)
    ensures Preserves(m, MatchAt(shape, m, i).value, call)
       <==> RunFrom(m, 0, Entry(m, call), |m.code|).Stuck? || Right(shape, m, i, call)
  {
    hide Linear, RunFrom, SafeBody, Preserves, Entry, SliceRight, ChoiceRight, GuardRight;
    match shape
    case SwitchCases => SwitchExact(m, i, call);
    case IfTerminal => IfTerminalExact(m, i, call);
    case MultiBranch => MultiBranchExact(m, i, call);
    case ConditionalAssignment => ConditionalAssignmentPreserves(m, i, call);
    case IfGotoReturn => IfGotoReturnPreserves(m, i, call);
    case IfInitReturn => IfInitReturnPreserves(m, i, call);
    case VoidGuard => VoidGuardPreserves(m, i, call);
    case VoidIfGoto => VoidIfGotoPreserves(m, i, call);
    case AssignedReturn => AssignedReturnPreserves(m, i, call);
    case FallThroughReturn => FallThroughReturnPreserves(m, i, call);
    case GuardedReturn => GuardedReturnExact(m, i, call);
    case PlainIfReturn => PlainIfReturnPreserves(m, i, call);
  }

  /** The code was read rightly: what is printed is what the code means, for whatever call. */
  ghost predicate ReadRight(shape: Shape, m: Method, i: nat)
    requires MatchAt(shape, m, i).Some?
  {
    match shape
    case SwitchCases => CasesReread(m, i)
    case IfTerminal =>
      var values := Linear(m, 0, i, map[]).values;
      Rereads(m, i + 1, values) && Rereads(m, TargetOf(m, i), values)
    case MultiBranch => NestReadRight(m, i)
    case GuardedReturn => DefaultKept(m, 0, DefaultOf(m, i), map[])
    case _ => true
  }

  /** Of code that was read rightly the printed body preserves the method on every call. */
  lemma ShapePreserves(shape: Shape, m: Method, i: nat, call: Call)
    requires CallOf(m, call) && Tiled(m.code)
    requires MatchAt(shape, m, i).Some? && SafeBody(MatchAt(shape, m, i).value, call.descs)
    requires ReadRight(shape, m, i)
    ensures Preserves(m, MatchAt(shape, m, i).value, call)
  {
    hide Linear, RunFrom, SafeBody, Preserves, Entry, Rereads, NestReadRight, DefaultKept, CasesReread;
    hide SliceRight, ChoiceRight, GuardRight;
    match shape
    case SwitchCases => SwitchPreserves(m, i, call);
    case IfTerminal => IfTerminalPreserves(m, i, call);
    case MultiBranch => MultiBranchPreserves(m, i, call);
    case GuardedReturn => GuardedReturnPreserves(m, i, call);
    case _ => ShapeExact(shape, m, i, call);
  }

  /** The recovered body is right on a call: the straight-line form always is, and of a shape it is Right that decides. */
  predicate RecoveredRight(m: Method, shapes: seq<Shape>, call: Call) {
    shapes == [] ||
    var r := FirstMatch(shapes[0], m, 0);
    if r.Some? then Right(shapes[0], m, r.value.0, call) else RecoveredRight(m, shapes[1..], call)
  }

  /** The theorem for the writer as a whole: on every call, whether the body it settles on preserves the method. */
  lemma {:induction false} RecoveredExact(m: Method, shapes: seq<Shape>, call: Call)
    requires CallOf(m, call) && Tiled(m.code)
    requires Recovered(m, shapes).Some? && SafeBody(Recovered(m, shapes).value, call.descs)
    ensures Preserves(m, Recovered(m, shapes).value, call)
       <==> RunFrom(m, 0, Entry(m, call), |m.code|).Stuck? || RecoveredRight(m, shapes, call)
    decreases |shapes|
  {
    hide SafeBody, Right, MatchAt, Preserves, LinearBody, RunFrom, Entry;
    if shapes == [] {
      LinearBodyPreserves(m, call);
    } else {
      var r := FirstMatch(shapes[0], m, 0);
      if r.Some? { ShapeExact(shapes[0], m, r.value.0, call); }
      else { RecoveredExact(m, shapes[1..], call); }
    }
  }

  ghost predicate RecoveredFaithfully(m: Method, shapes: seq<Shape>) {
    shapes == [] ||
    var r := FirstMatch(shapes[0], m, 0);
    if r.Some? then ReadRight(shapes[0], m, r.value.0) else RecoveredFaithfully(m, shapes[1..])
  }

  /** Whatever body the writer settles on preserves the method, if the code was read rightly. */
  lemma {:induction false} RecoveredPreserves(m: Method, shapes: seq<Shape>, call: Call)
    requires CallOf(m, call) && Tiled(m.code)
    requires Recovered(m, shapes).Some? && SafeBody(Recovered(m, shapes).value, call.descs)
    requires RecoveredFaithfully(m, shapes)
    ensures Preserves(m, Recovered(m, shapes).value, call)
    decreases |shapes|
  {
    hide SafeBody, ReadRight, MatchAt, Preserves, LinearBody;
    if shapes == [] {
      LinearBodyPreserves(m, call);
    } else {
      var r := FirstMatch(shapes[0], m, 0);
      if r.Some? { ShapePreserves(shapes[0], m, r.value.0, call); }
      else { RecoveredPreserves(m, shapes[1..], call); }
    }
  }
}
