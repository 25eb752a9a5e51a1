/** A method with a nest that is read rightly, and a call of it that ends: the theorems about recovered bodies speak of something. */
module RightNest {
  import opened MachineInts
  import opened JavaBody
  import opened DalvikMachine
  import opened RegisterLayout
  import opened LinearRecovery
  import opened BodyShapes
  import opened BodiesPreserved
  import opened FollowedPaths
  import opened TerminalSlices
  import opened NestedChoices
  import opened RecoveredBodies
  import opened UnfaithfulBodies
  import opened UnfaithfulChoices
  import opened UnfaithfulTails
  import opened Options

  /** v0 is 2 if p0 is 0 and otherwise 1, and is then stored. */
  function NestMethod(): Method {
    Method([
      Instr(0, IfZero(Eq, 1, 5)),
      Instr(2, ConstInt(0, 1)),
      Instr(3, Goto(6)),
      Instr(5, ConstInt(0, 2)),
      Instr(6, StaticPut(F, 0)),
      Instr(8, ReturnVoid)], 2, 1, true, ["I"], "V", "m")
  }

  const NEST_BODY := Straight([Put(F, EITHER)])

  lemma NestFacts()
    ensures var m := NestMethod();
            && |m.code| == 6 && m.IsVoid() && !m.IsInit() && Tiled(m.code)
            && IndexOf(m.code, 5) == Some(3) && IndexOf(m.code, 6) == Some(4)
  {
    var m := NestMethod();
    OffsetNamesPosition(m.code, 3);
    OffsetNamesPosition(m.code, 4);
  }

  lemma NestParsed()
    ensures ParseChoice(NestMethod(), 0, 4, map[], 0) == Choice(0, Carried(EITHER, ""), true)
  {
    hide SingleAssignment, RegisterExpression;
    var m := NestMethod();
    OneParameter(m, 0);
    NestFacts();
    ConstantAssigned(m, 1, 1);
    ConstantAssigned(m, 3, 2);
    assert NextGoto(m, 1, 4) == 2 && NextGoto(m, 3, 4) == 4;
    assert ParseChoice(m, 1, 4, map[], 1) == Choice(0, Carried(IntLit(1), ""), true);
    assert ParseChoice(m, 3, 4, map[], 1) == Choice(0, Carried(IntLit(2), ""), true);
  }

  lemma NestLinear()
    ensures var m := NestMethod();
            var joined: Values := map[0 := Carried(EITHER, "")];
            && Linear(m, 0, 0, map[]) == Evaluated(map[], Block([], None, false), true)
            && Linear(m, 4, 6, joined) == Evaluated(joined, Block([Put(F, EITHER)], None, true), true)
  {
    var m := NestMethod();
    var joined: Values := map[0 := Carried(EITHER, "")];
    assert Linear(m, 5, 6, joined) == Evaluated(joined, Block([], None, true), true);
  }

  lemma NestRecovered()
    ensures MultiBranchAt(NestMethod(), 0) == Some(NEST_BODY)
    ensures NestReadRight(NestMethod(), 0)
  {
    hide ParseChoice, Linear, RegisterExpression, AllClean, Arms;
    var m := NestMethod();
    NestFacts();
    NestParsed();
    NestLinear();
    var none: Values := map[];
    assert none[0 := Carried(EITHER, "")] == map[0 := Carried(EITHER, "")];
    var body := NEST_BODY;
    assert [] + [Put(F, EITHER)] == [Put(F, EITHER)];
    assert MultiBranchJoin(m, 0, 4) == Some(body);
    assert FirstJoin(m, 0, 2, 3) == Some((4, body));
    assert FirstJoin(m, 0, 1, 3) == Some((4, body));
    NestCleanIff(m, 0, 4, map[], 0);
  }

  lemma NestActions(p: i32)
    requires p != 0
    ensures var m := NestMethod();
            && Act(m, m.code[0].op, [Undef, Int(p)]) == Next([Undef, Int(p)], [])
            && Act(m, m.code[1].op, [Undef, Int(p)]) == Next([Int(1), Int(p)], [])
            && Act(m, m.code[2].op, [Int(1), Int(p)]) == Jump(6) && m.code[4].offset == 6
            && Execute(m.code[4].op, [Int(1), Int(p)]) == Some(([Int(1), Int(p)], [Stored(F, VInt(1))]))
  {
    assert [Undef, Int(p)][0 := Int(1)] == [Int(1), Int(p)];
  }

  lemma NestRuns(p: i32)
    requires p != 0
    ensures RunFrom(NestMethod(), 0, [Undef, Int(p)], 6) == Done(Outcome([Stored(F, VInt(1))], ReturnedVoid))
  {
    hide RunFrom, Act, Execute;
    var m := NestMethod();
    NestFacts();
    NestActions(p);
    Falls(m, 0, [Undef, Int(p)], 6);
    Silently(m, 1, [Undef, Int(p)], [Int(1), Int(p)], 5);
    Jumps(m, 2, [Int(1), Int(p)], 4, 4);
    Stores(m, 4, [Int(1), Int(p)], 3);
    ReturnVoidRuns(m, 5, [Int(1), Int(p)], 2);
    assert [Stored(F, VInt(1))] + [] == [Stored(F, VInt(1))];
  }

  lemma NestPrintable()
    ensures SafeBody(NEST_BODY, ["I"])
  {
    EitherEvaluates(1);
  }

  lemma NestMatched()
    ensures MatchAt(MultiBranch, NestMethod(), 0) == Some(NEST_BODY) && ReadRight(MultiBranch, NestMethod(), 0)
  {
    hide MultiBranchAt, NestReadRight, EITHER;
    NestRecovered();
  }

  /** A shape that matches at the first instruction is what is recovered. */
  lemma FirstAtOnce(shape: Shape, m: Method, body: Body)
    requires |m.code| > 0 && MatchAt(shape, m, 0) == Some(body) && ReadRight(shape, m, 0)
    ensures Recovered(m, [shape]) == Some(body) && RecoveredFaithfully(m, [shape])
  {
    hide MatchAt, ReadRight, LinearBody;
    assert FirstMatch(shape, m, 0) == Some((0, body));
  }

  lemma NestCall(p: i32)
    ensures CallOf(NestMethod(), OneInt(p)) && Entry(NestMethod(), OneInt(p)) == [Undef, Int(p)]
    ensures OneInt(p).descs == ["I"]
  {
    OneParameter(NestMethod(), p);
  }

  lemma NestSame(p: i32)
    requires p != 0
    ensures Preserves(NestMethod(), NEST_BODY, OneInt(p))
  {
    hide RunFrom, MatchAt, NestMethod, NEST_BODY, ReadRight, CallOf, Tiled, SafeBody, Preserves, OneInt;
    NestCall(p);
    NestFacts();
    NestMatched();
    NestPrintable();
    ShapePreserves(MultiBranch, NestMethod(), 0, OneInt(p));
  }

  lemma NestEnds(p: i32)
    requires p != 0
    ensures var m := NestMethod();
            && RunFrom(m, 0, Entry(m, OneInt(p)), |m.code|) == Done(Outcome([Stored(F, VInt(1))], ReturnedVoid))
            && RunBody(NEST_BODY, OneInt(p)) == Outcome([Stored(F, VInt(1))], ReturnedVoid)
  {
    hide RunFrom, RunBody, NEST_BODY, NestMethod;
    NestFacts();
    NestCall(p);
    NestRuns(p);
    NestSame(p);
  }

  /** All that the theorems ask for, of a call whose run ends; and what they say of it. */
  lemma NestIsPreserved(p: i32)
    requires p != 0
    ensures var m := NestMethod();
            var call := OneInt(p);
            && CallOf(m, call) && Tiled(m.code)
            && MatchAt(MultiBranch, m, 0).Some? && SafeBody(MatchAt(MultiBranch, m, 0).value, call.descs)
            && ReadRight(MultiBranch, m, 0)
            && Recovered(m, [MultiBranch]) == MatchAt(MultiBranch, m, 0) && RecoveredFaithfully(m, [MultiBranch])
            && RunFrom(m, 0, Entry(m, call), |m.code|) == Done(Outcome([Stored(F, VInt(1))], ReturnedVoid))
            && RunBody(MatchAt(MultiBranch, m, 0).value, call) == Outcome([Stored(F, VInt(1))], ReturnedVoid)
  {
    hide RunFrom, MatchAt, RunBody, NestMethod, NEST_BODY, ReadRight, CallOf, Tiled, SafeBody, Recovered, RecoveredFaithfully, OneInt;
    NestCall(p);
    NestFacts();
    NestMatched();
    FirstAtOnce(MultiBranch, NestMethod(), NEST_BODY);
    NestPrintable();
    NestEnds(p);
  }
}
