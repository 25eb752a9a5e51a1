module GuardedReturns {
  // Guards that return one default. The matcher evaluates the default block once, as if no register had been
  // assigned yet; the code evaluates it with the registers as they are where the guard jumps.

  import opened MachineInts
  import opened JavaBody
  import opened DalvikMachine
  import opened RegisterLayout
  import opened LinearRecovery
  import opened BodyShapes
  import opened NamedRegisters
  import opened BodiesPreserved
  import opened Liveness
  import opened FollowedPaths
  import opened TerminalSlices
  import opened Options

  /** The default block, recovered as if no register had been assigned yet. */
  predicate DefaultAt(m: Method, t: nat) {
    && t < |m.code|
    && var d := Linear(m, t, |m.code|, map[]); d.ok && d.block.ends && d.block.stmts == []
  }

  /** At every guard, each register that is live in front of the default block still has the expression it had on entry. */
  ghost predicate DefaultKept(m: Method, cursor: nat, t: nat, values: Values)
    requires cursor <= t < |m.code|
    decreases t - cursor
  {
    var g := NextIfTo(m, cursor, t, m.code[t].offset);
    g == t ||
    (var at := Linear(m, cursor, g, values).values;
     SameOn(m, LiveIn(m, t, |m.code|, {}), map[], at) && DefaultKept(m, g + 1, t, at))
  }

  /** What the default block returns does not depend on where it is jumped to exactly if what it reads is kept. */
  lemma DefaultSame(m: Method, t: nat, values: Values)
    requires DefaultAt(m, t)
    ensures var own := Linear(m, t, |m.code|, values);
            && own.ok && own.block.ends && own.block.stmts == []
            && (own.block.expr == Linear(m, t, |m.code|, map[]).block.expr <==> SameOn(m, LiveIn(m, t, |m.code|, {}), map[], values))
  {
    hide Linear, LiveIn, SameOn;
    EndingLive(m, t, |m.code|, map[], values);
  }

  /** The guards as printed are those of the code exactly if the default block's registers are kept. */
  lemma {:induction false} FaithfulGuards(m: Method, cursor: nat, t: nat, values: Values, default: Option<Expr>)
    requires cursor <= t < |m.code| && DefaultAt(m, t) && default == Linear(m, t, |m.code|, map[]).block.expr
    requires BuildGuards(m, cursor, t, values, default).GuardLines?
    ensures BuildGuards(m, cursor, t, values, default).faithful <==> DefaultKept(m, cursor, t, values)
    decreases t - cursor
  {
    hide Linear, LiveIn, SameOn, ConditionOf;
    var g := NextIfTo(m, cursor, t, m.code[t].offset);
    if g < t {
      var at := Linear(m, cursor, g, values).values;
      DefaultSame(m, t, at);
      FaithfulGuards(m, g + 1, t, at, default);
    }
  }

  /** No register that the default block reads before writing it is written in front of a guard. */
  predicate DefaultUndisturbed(m: Method, t: nat)
    requires t < |m.code|
  {
    forall p, q :: 0 <= p < q < t && IsIf(m.code[q].op) && m.code[q].op.to == m.code[t].offset ==>
      Writes(m.code[p].op) !! LiveIn(m, t, |m.code|, {})
  }

  /** The condition on the code: then every guard returns what is printed for it. */
  lemma {:induction false} UndisturbedIsKept(m: Method, cursor: nat, t: nat, values: Values, default: Option<Expr>)
    requires cursor <= t < |m.code| && DefaultUndisturbed(m, t)
    requires BuildGuards(m, cursor, t, values, default).GuardLines?
    requires SameOn(m, LiveIn(m, t, |m.code|, {}), map[], values)
    ensures DefaultKept(m, cursor, t, values)
    decreases t - cursor
  {
    hide Linear, LiveIn, ValueOf, Writes, ConditionOf;
    var g := NextIfTo(m, cursor, t, m.code[t].offset);
    if g < t {
      var at := Linear(m, cursor, g, values).values;
      LinearIffSimple(m, cursor, g, values);
      forall r | r in LiveIn(m, t, |m.code|, {}) ensures ValueOf(m, map[], r) == ValueOf(m, at, r) {
        LinearKeeps(m, cursor, g, values, r);
      }
      UndisturbedIsKept(m, g + 1, t, at, default);
    }
  }

  // ----- One call -----

  /** What the default block returns at the guard that the call takes, if it takes one. */
  function DefaultTaken(m: Method, cursor: nat, t: nat, values: Values, call: Call): Option<Option<Expr>>
    requires cursor <= t < |m.code|
    decreases t - cursor
  {
    var g := NextIfTo(m, cursor, t, m.code[t].offset);
    if g == t then None
    else
      var at := Linear(m, cursor, g, values).values;
      if Holds(ConditionOf(m, m.code[g].op, at), call) then Some(Linear(m, t, |m.code|, at).block.expr)
      else DefaultTaken(m, g + 1, t, at, call)
  }

  function Result(e: Option<Expr>, call: Call): End {
    if e.Some? then Returned(Eval(e.value, call)) else ReturnedVoid
  }

  lemma GuardWithDefault(c: Cond, default: Option<Expr>, rest: Stmts, call: Call)
    ensures RunStmts([ReturnIf(c, default)] + rest, call)
         == if Holds(c, call) then Ran([], Some(Result(default, call))) else RunStmts(rest, call)
  {
    hide RunStmts, Holds;
    RunStmtsConcat([ReturnIf(c, default)], rest, call);
    RunOne(ReturnIf(c, default), call);
    ThenNothing(RunStmts(rest, call));
  }

  /** The path through a default block returns its expression. */
  lemma DefaultFollowed(m: Method, t: nat, values: Values, call: Call, fuel: nat)
    requires DefaultAt(m, t) && !m.IsVoid() && fuel + t >= |m.code|
    ensures var own := Linear(m, t, |m.code|, values).block.expr;
            AgreesEnd(Followed(m, t, values, call, fuel), Ran([], Some(Result(own, call))))
  {
    hide Linear, Followed, RunStmts, LiveIn, SameOn;
    DefaultSame(m, t, values);
    FollowedEnding(m, t, |m.code|, values, call, fuel);
    var block := Linear(m, t, |m.code|, values).block;
    if block.expr.Some? {
      assert [] + [Return(block.expr.value)] == [Return(block.expr.value)];
      RunOne(Return(block.expr.value), call);
    } else {
      RunNothing(call);
    }
  }

  /** The printed guards go the way of the path, and end it as the path does if no guard is taken; else with the printed default. */
  lemma {:induction false} GuardsFollowed(m: Method, cursor: nat, t: nat, values: Values, default: Option<Expr>, call: Call, fuel: nat)
    requires cursor <= t < |m.code| && DefaultAt(m, t) && Tiled(m.code) && !m.IsVoid() && fuel + cursor >= |m.code|
    requires BuildGuards(m, cursor, t, values, default).GuardLines?
    ensures var ran := RunStmts(BuildGuards(m, cursor, t, values, default).stmts, call);
            var own := DefaultTaken(m, cursor, t, values, call);
            && (own.None? ==> AgreesEnd(Followed(m, cursor, values, call, fuel), ran))
            && (own.Some? ==>
                  && ran.end == Some(Result(default, call))
                  && AgreesEnd(Followed(m, cursor, values, call, fuel), Ran(ran.trace, Some(Result(own.value, call)))))
    decreases t - cursor
  {
    hide Followed, Linear, RunStmts, ConditionOf, Result;
    hide DefaultAt;
    var g := NextIfTo(m, cursor, t, m.code[t].offset);
    if g == t {
      FollowedEnding(m, cursor, t, values, call, fuel);
      LastGuardChunk(m, cursor, t, values, default);
    } else {
      var prefix := Linear(m, cursor, g, values);
      var c := ConditionOf(m, m.code[g].op, prefix.values);
      var rest := BuildGuards(m, g + 1, t, prefix.values, default).stmts;
      var fuel': nat := fuel - (g - cursor) - 1;
      LinearIffSimple(m, cursor, g, values);
      OffsetNamesPosition(m.code, t);
      FollowedBranch(m, g, prefix.values, call, fuel' + 1);
      DefaultFollowed(m, t, prefix.values, call, fuel');
      GuardsFollowed(m, g + 1, t, prefix.values, default, call, fuel');
      GuardWithDefault(c, default, rest, call);
      RunStmtsConcat(prefix.block.stmts, [ReturnIf(c, default)] + rest, call);
      var ran := RunStmts([ReturnIf(c, default)] + rest, call);
      var own := DefaultTaken(m, cursor, t, values, call);
      FollowedBlock(m, cursor, g, values, call, fuel, if own.None? then ran else Ran(ran.trace, Some(Result(own.value, call))));
    }
  }

  lemma LastGuardChunk(m: Method, cursor: nat, t: nat, values: Values, default: Option<Expr>)
    requires cursor <= t < |m.code| && !m.IsVoid()
    requires BuildGuards(m, cursor, t, values, default).GuardLines?
    requires NextIfTo(m, cursor, t, m.code[t].offset) == t
    ensures var body := Linear(m, cursor, t, values);
            && body.ok && body.block.ends
            && BuildGuards(m, cursor, t, values, default).stmts == Printed(body.block, false)
  {
    hide Linear;
    var body := Linear(m, cursor, t, values);
    assert body.block.stmts + [] == body.block.stmts;
  }

  /** The position that the guards jump to. */
  function DefaultOf(m: Method, i: nat): (t: nat)
    requires GuardedReturnAt(m, i).Some?
    ensures DefaultAt(m, t) && t > 0
    ensures GuardedReturnLines(m, i) == BuildGuards(m, 0, t, map[], Linear(m, t, |m.code|, map[]).block.expr)
  {
    IndexOf(m.code, m.code[i].op.to).value
  }

  /** On this call no guard is taken, or the default block returns there what is printed. */
  predicate GuardRight(m: Method, i: nat, call: Call)
    requires GuardedReturnAt(m, i).Some?
  {
    var t := DefaultOf(m, i);
    var own := DefaultTaken(m, 0, t, map[], call);
    own.None? || Result(own.value, call) == Result(Linear(m, t, |m.code|, map[]).block.expr, call)
  }

  /** A guarded-return body preserves the method on a call exactly if the guard taken returns there what is printed. */
  lemma GuardedReturnExact(m: Method, i: nat, call: Call)
    requires CallOf(m, call) && Tiled(m.code) && GuardedReturnAt(m, i).Some?
    ensures Preserves(m, GuardedReturnAt(m, i).value, call)
       <==> RunFrom(m, 0, Entry(m, call), |m.code|).Stuck? || GuardRight(m, i, call)
  {
    hide Followed, Linear, RunStmts, BuildGuards, RunFrom, Result, DefaultTaken, DefaultAt, Entry, IndexOf;
    var t := DefaultOf(m, i);
    var default := Linear(m, t, |m.code|, map[]).block.expr;
    var body := GuardedReturnAt(m, i).value;
    GuardsFollowed(m, 0, t, map[], default, call, |m.code|);
    PreservesIffPath(m, body, call);
    PathOrStuck(m, call);
  }

  /** The printed guards are those of the code: then the body is right on every call. */
  lemma GuardedReturnPreserves(m: Method, i: nat, call: Call)
    requires CallOf(m, call) && Tiled(m.code) && GuardedReturnAt(m, i).Some?
    requires DefaultKept(m, 0, DefaultOf(m, i), map[])
    ensures Preserves(m, GuardedReturnAt(m, i).value, call)
  {
    hide Linear, BuildGuards, RunFrom, DefaultTaken, DefaultAt, Entry, DefaultKept, Preserves;
    var t := DefaultOf(m, i);
    GuardedReturnExact(m, i, call);
    KeptIsRight(m, 0, t, map[], Linear(m, t, |m.code|, map[]).block.expr, call);
  }

  /** So it is if no register the default block reads before writing it is written in front of a guard. */
  lemma UndisturbedPreserves(m: Method, i: nat, call: Call)
    requires CallOf(m, call) && Tiled(m.code) && GuardedReturnAt(m, i).Some?
    requires DefaultUndisturbed(m, DefaultOf(m, i))
    ensures Preserves(m, GuardedReturnAt(m, i).value, call)
  {
    hide Linear, BuildGuards, Preserves, DefaultUndisturbed, LiveIn, DefaultKept;
    var t := DefaultOf(m, i);
    UndisturbedIsKept(m, 0, t, map[], Linear(m, t, |m.code|, map[]).block.expr);
    GuardedReturnPreserves(m, i, call);
  }

  lemma {:induction false} KeptIsRight(m: Method, cursor: nat, t: nat, values: Values, default: Option<Expr>, call: Call)
    requires cursor <= t < |m.code| && DefaultAt(m, t) && default == Linear(m, t, |m.code|, map[]).block.expr
    requires DefaultKept(m, cursor, t, values)
    ensures var own := DefaultTaken(m, cursor, t, values, call); own.None? || own.value == default
    decreases t - cursor
  {
    hide Linear, LiveIn, SameOn, ConditionOf;
    hide DefaultAt;
    var g := NextIfTo(m, cursor, t, m.code[t].offset);
    if g < t {
      var at := Linear(m, cursor, g, values).values;
      DefaultSame(m, t, at);
      KeptIsRight(m, g + 1, t, at, default, call);
    }
  }
}
