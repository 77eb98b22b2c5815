/** The ZigZag engine: one incremental solver, with and without the initial states. */
module ZigZagPaths {
  import opened BoolExpr
  import opened Sets
  import opened BmcModel
  import opened BmcEncoding
  import opened BmcSolver

  /** What the permanent constraints say after n steps. */
  ghost predicate ZigZagPath(m: Fsm, p: Expr<Var>, a: Assignment, n: nat) {
    && (forall t :: 0 <= t < n ==> PropAt(m, p, a, t) && MovesAt(m, a, t))
    && (forall i, j :: 0 <= i < j < n ==> Differ(m, a, i, j))
  }

  /** The constraints mean exactly that. */
  ghost predicate MeansPath(m: Fsm, p: Expr<Var>, fs: seq<Formula>, n: nat) {
    forall a :: AllHold(fs, a) <==> ZigZagPath(m, p, a, n)
  }

  /** The constraints of the next step, with the state n different from the first l states. */
  ghost predicate MeansNext(m: Fsm, p: Expr<Var>, fs: seq<Formula>, n: nat, l: nat) {
    forall a :: AllHold(fs, a) <==>
      ZigZagPath(m, p, a, n) && PropAt(m, p, a, n) && MovesAt(m, a, n) && forall k :: 0 <= k < l ==> Differ(m, a, k, n)
  }

  lemma PathStart(m: Fsm, p: Expr<Var>)
    ensures MeansPath(m, p, [], 0)
  {
  }

  lemma NextStart(m: Fsm, p: Expr<Var>, fs: seq<Formula>, n: nat)
    requires WellFormed(m, p) && MeansPath(m, p, fs, n)
    ensures MeansNext(m, p, fs + [ToTimed(p, n)] + [GetUnrolling(m, n, n + 1)], n, 0)
  {
    var gs := fs + [ToTimed(p, n)];
    forall a ensures AllHold(gs + [GetUnrolling(m, n, n + 1)], a) <==>
                     ZigZagPath(m, p, a, n) && PropAt(m, p, a, n) && MovesAt(m, a, n)
    {
      AllHoldPush(fs, ToTimed(p, n), a);
      AllHoldPush(gs, GetUnrolling(m, n, n + 1), a);
      PropHolds(m, p, a, n);
      UnrollingHolds(m, p, a, n, n + 1);
    }
  }

  lemma NextMore(m: Fsm, p: Expr<Var>, fs: seq<Formula>, n: nat, l: nat, notEqual: Formula)
    requires MeansNext(m, p, fs, n, l)
    requires forall a :: Holds(notEqual, a) <==> Differ(m, a, l, n)
    ensures MeansNext(m, p, fs + [notEqual], n, l + 1)
  {
    hide ZigZagPath, PropAt, MovesAt, Differ;
    forall a ensures AllHold(fs + [notEqual], a) <==>
      ZigZagPath(m, p, a, n) && PropAt(m, p, a, n) && MovesAt(m, a, n) && forall k :: 0 <= k < l + 1 ==> Differ(m, a, k, n)
    {
      AllHoldPush(fs, notEqual, a);
    }
  }

  lemma NextDone(m: Fsm, p: Expr<Var>, fs: seq<Formula>, n: nat)
    requires MeansNext(m, p, fs, n, n)
    ensures MeansPath(m, p, fs, n + 1)
  {
    hide PropAt, MovesAt, Differ;
    forall a ensures AllHold(fs, a) <==> ZigZagPath(m, p, a, n + 1) {
      PathNext(m, p, a, n);
    }
  }

  lemma PathNext(m: Fsm, p: Expr<Var>, a: Assignment, n: nat)
    ensures ZigZagPath(m, p, a, n + 1) <==>
            ZigZagPath(m, p, a, n) && PropAt(m, p, a, n) && MovesAt(m, a, n) && forall k :: 0 <= k < n ==> Differ(m, a, k, n)
  {
    hide PropAt, MovesAt, Differ;
  }

  /** No violation is shorter than n. */
  ghost predicate NoneShorter(m: Fsm, p: Expr<Var>, n: int) {
    forall r :: Violation(m, p, r) ==> |r.ins| >= n
  }

  // ----- The two queries

  ghost predicate StepQuery(m: Fsm, p: Expr<Var>, fs: seq<Formula>, init: Group, bad: Group, n: nat) {
    init != bad && Satisfiable(fs, map[init := [GetInit0(m)]][bad := [] + [Not(ToTimed(p, n))]], {init})
  }

  ghost predicate BaseQuery(m: Fsm, p: Expr<Var>, fs: seq<Formula>, init: Group, bad: Group, n: nat) {
    init != bad && Satisfiable(fs, map[init := [GetInit0(m)]][bad := [] + [Not(ToTimed(p, n))]], {})
  }

  lemma StepMeans(m: Fsm, p: Expr<Var>, fs: seq<Formula>, init: Group, bad: Group, n: nat)
    requires WellFormed(m, p) && MeansPath(m, p, fs, n) && init != bad
    ensures StepQuery(m, p, fs, init, bad, n) <==> exists a :: ZigZagPath(m, p, a, n) && !PropAt(m, p, a, n)
  {
    var groups := map[init := [GetInit0(m)]][bad := [] + [Not(ToTimed(p, n))]];
    forall a ensures Satisfies(fs, groups, {init}, a) <==> ZigZagPath(m, p, a, n) && !PropAt(m, p, a, n) {
      PropHolds(m, p, a, n);
      assert [] + [Not(ToTimed(p, n))] == [Not(ToTimed(p, n))];
      AllHoldOne(Not(ToTimed(p, n)), a);
      assert bad in groups && groups[bad] == [Not(ToTimed(p, n))];
    }
    if StepQuery(m, p, fs, init, bad, n) {
      var a :| Satisfies(fs, groups, {init}, a);
      assert ZigZagPath(m, p, a, n) && !PropAt(m, p, a, n);
    }
    if a :| ZigZagPath(m, p, a, n) && !PropAt(m, p, a, n) {
      assert Satisfies(fs, groups, {init}, a);
    }
  }

  /** No run of n moves goes through different states that satisfy the invariant to one that does not:
      whatever holds for n steps without repetition, holds for one more. */
  ghost predicate InductiveAt(m: Fsm, p: Expr<Var>, n: nat) {
    forall r :: EndsBadly(m, p, r) && NoRepetition(r) ==> |r.ins| != n
  }

  /** The step is unsatisfiable exactly if the invariant is inductive at n. */
  lemma StepAnswer(m: Fsm, p: Expr<Var>, fs: seq<Formula>, init: Group, bad: Group, n: nat)
    requires WellFormed(m, p) && MeansPath(m, p, fs, n) && init != bad
    ensures !StepQuery(m, p, fs, init, bad, n) <==> InductiveAt(m, p, n)
  {
    StepMeans(m, p, fs, init, bad, n);
    hide StepQuery, MeansPath, WellFormed;
    if a :| ZigZagPath(m, p, a, n) && !PropAt(m, p, a, n) {
      PathIsRun(m, p, a, n);
    }
    forall r | EndsBadly(m, p, r) && NoRepetition(r) && |r.ins| == n
      ensures exists a :: ZigZagPath(m, p, a, n) && !PropAt(m, p, a, n)
    {
      RunIsPath(m, p, r);
    }
  }

  lemma PathIsRun(m: Fsm, p: Expr<Var>, a: Assignment, n: nat)
    requires ZigZagPath(m, p, a, n) && !PropAt(m, p, a, n)
    ensures var r := Decode(m, a, n); EndsBadly(m, p, r) && NoRepetition(r) && |r.ins| == n
  {
    DecodeIsRun(m, a, n);
    hide StateAt, InState, FrozenAt, Decode, IsRun;
    var r := Decode(m, a, n);
    RunLength(m, r);
    forall i, j | 0 <= i < j < |r.ss| ensures r.ss[i] != r.ss[j] {
      assert PropAt(m, p, a, i);
      assert j < n ==> Differ(m, a, i, j);
    }
    forall t | 0 <= t < n ensures InState(p, r.ss[t], r.f) {
      assert PropAt(m, p, a, t);
    }
  }

  lemma RunLength(m: Fsm, r: Run)
    requires IsRun(m, r)
    ensures |r.ss| == |r.ins| + 1
  {
  }

  lemma RunIsPath(m: Fsm, p: Expr<Var>, r: Run)
    requires EndsBadly(m, p, r) && NoRepetition(r)
    ensures var a := Encode(r.f, r.ss, r.ins); ZigZagPath(m, p, a, |r.ins|) && !PropAt(m, p, a, |r.ins|)
  {
    RunEncoded(m, r);
    hide StateAt, InState, FrozenAt, Encode, Moves, MovesAt;
  }

  lemma BaseMeans(m: Fsm, p: Expr<Var>, fs: seq<Formula>, init: Group, bad: Group, n: nat)
    requires WellFormed(m, p) && MeansPath(m, p, fs, n) && init != bad
    ensures BaseQuery(m, p, fs, init, bad, n) <==> exists a :: FromStart(m, p, a, n)
  {
    var groups := map[init := [GetInit0(m)]][bad := [] + [Not(ToTimed(p, n))]];
    forall a ensures Satisfies(fs, groups, {}, a) <==> FromStart(m, p, a, n) {
      PropHolds(m, p, a, n);
      Init0Holds(m, p, a);
      assert [] + [Not(ToTimed(p, n))] == [Not(ToTimed(p, n))];
      AllHoldOne(Not(ToTimed(p, n)), a);
      AllHoldOne(GetInit0(m), a);
      assert groups[init] == [GetInit0(m)] && groups[bad] == [Not(ToTimed(p, n))];
    }
    if BaseQuery(m, p, fs, init, bad, n) {
      var a :| Satisfies(fs, groups, {}, a);
      assert FromStart(m, p, a, n);
    }
    if a :| FromStart(m, p, a, n) {
      assert Satisfies(fs, groups, {}, a);
    }
  }

  ghost predicate FromStart(m: Fsm, p: Expr<Var>, a: Assignment, n: nat) {
    ZigZagPath(m, p, a, n) && PropAt(m, m.init, a, 0) && PropAt(m, m.invar, a, 0) && !PropAt(m, p, a, n)
  }

  // ----- What the answers mean

  /** The last states of a shortest run to a violation satisfy the step. */
  lemma StepWitness(m: Fsm, p: Expr<Var>, fs: seq<Formula>, init: Group, bad: Group, n: nat, r: Run)
    requires WellFormed(m, p) && MeansPath(m, p, fs, n) && init != bad && NoneShorter(m, p, n) && Violation(m, p, r)
    ensures StepQuery(m, p, fs, init, bad, n)
  {
    StepMeans(m, p, fs, init, bad, n);
    var s := ShortestExists(m, p, r);
    LastStatesFacts(m, p, s, n);
    assert ZigZagPath(m, p, LastStates(s, n), n);
  }

  /** Without a satisfying assignment of the step, and without shorter violations, there is no violation. */
  lemma StepUnsatisfiable(m: Fsm, p: Expr<Var>, fs: seq<Formula>, init: Group, bad: Group, n: nat)
    requires WellFormed(m, p) && MeansPath(m, p, fs, n) && init != bad
    requires NoneShorter(m, p, n) && !StepQuery(m, p, fs, init, bad, n)
    ensures !Violated(m, p)
  {
    hide MeansPath, NoneShorter, StepQuery, Violation, WellFormed;
    forall r ensures Violation(m, p, r) ==> StepQuery(m, p, fs, init, bad, n) {
      if Violation(m, p, r) {
        StepWitness(m, p, fs, init, bad, n, r);
      }
    }
  }

  /** The base is satisfiable exactly if there is a violation of length n. */
  lemma BaseAnswer(m: Fsm, p: Expr<Var>, fs: seq<Formula>, init: Group, bad: Group, n: nat)
    requires WellFormed(m, p) && MeansPath(m, p, fs, n) && init != bad && NoneShorter(m, p, n)
    ensures BaseQuery(m, p, fs, init, bad, n) ==> exists r :: Shortest(m, p, r) && |r.ins| == n
    ensures !BaseQuery(m, p, fs, init, bad, n) ==> NoneShorter(m, p, n + 1)
  {
    BaseMeans(m, p, fs, init, bad, n);
    if BaseQuery(m, p, fs, init, bad, n) {
      var a :| FromStart(m, p, a, n);
      DecodeViolation(m, p, a, n);
      assert Shortest(m, p, Decode(m, a, n));
    } else {
      forall r | Violation(m, p, r) ensures |r.ins| >= n + 1 {
        if |r.ins| == n {
          assert Shortest(m, p, r);
          LastStatesFacts(m, p, r, n);
          assert FromStart(m, p, LastStates(r, n), n);
        }
      }
    }
  }

  /** The states of the step are different: there cannot be more of them than states. */
  lemma StepBounded(m: Fsm, p: Expr<Var>, fs: seq<Formula>, init: Group, bad: Group, n: nat)
    requires WellFormed(m, p) && MeansPath(m, p, fs, n) && StepQuery(m, p, fs, init, bad, n)
    ensures n < Pow2(|m.vars|)
  {
    StepMeans(m, p, fs, init, bad, n);
    var a :| ZigZagPath(m, p, a, n) && !PropAt(m, p, a, n);
    forall i, j | 0 <= i < j < n + 1 ensures Differ(m, a, i, j) {
      if j == n {
        assert PropAt(m, p, a, i);
      }
    }
    DifferBound(m, a, 0, n + 1);
  }
}

module BmcZigZag {
  import opened BoolExpr
  import opened Sets
  import opened BmcModel
  import opened BmcEncoding
  import opened BmcSolver
  import opened BmcUniqueness
  import opened ZigZagPaths

  datatype PropStatus = Unchecked | PropTrue | PropFalse

  /** Force the state n to differ from the earlier ones. */
  method AddNotEqual(solver: SatIncSolver, m: Fsm, p: Expr<Var>, n: nat)
    requires solver.Valid() && MeansNext(m, p, solver.permanent, n, 0)
    modifies solver
    ensures solver.Valid() && solver.groups == old(solver.groups)
    ensures MeansPath(m, p, solver.permanent, n + 1)
  {
    hide *;
    var l := 0;
    while l < n
      invariant 0 <= l <= n && solver.Valid() && solver.groups == old(solver.groups)
      invariant MeansNext(m, p, solver.permanent, n, l)
    {
      var notEqual := NotEqual(m, l, n);
      NextMore(m, p, solver.permanent, n, l, notEqual);
      solver.SetPolarityPermanently(notEqual, true);
      l := l + 1;
    }
    NextDone(m, p, solver.permanent, n);
  }

  /** ZigZag.  "False" means that a reachable state violates the invariant within the bound, and then the
      length of a shortest counterexample is returned; "true" that none does and that the invariant is
      inductive at some length within the bound, and then no reachable state ever violates it.  With a
      bound at least the number of states there is always an answer. */
  method GenSolveInvarZigzag(m: Fsm, p: Expr<Var>, maxK: int, status: PropStatus) returns (status': PropStatus, length: nat)
    requires WellFormed(m, p)
    ensures status != Unchecked ==> status' == status
    ensures status == Unchecked ==>
              && (status' == PropTrue ==> !Violated(m, p))
              && (status' == PropTrue <==> !ViolatedWithin(m, p, maxK) && exists n: nat :: n <= maxK && InductiveAt(m, p, n))
              && (status' == PropFalse <==> ViolatedWithin(m, p, maxK))
              && (status' == PropFalse ==> exists r :: Shortest(m, p, r) && |r.ins| == length)
              && (maxK >= Pow2(|m.vars|) ==> status' != Unchecked)
  {
    hide *;
    status', length := status, 0;
    if status != Unchecked {
      return;
    }
    var solver := new SatIncSolver();
    var groupInit := solver.CreateGroup();
    solver.SetPolarity(GetInit0(m), true, groupInit);
    assert [] + [GetInit0(m)] == [GetInit0(m)];
    PathStart(m, p);
    NoViolationYet(m, p);
    var stepN := 0;
    while stepN <= maxK
      invariant 0 <= stepN && (maxK >= -1 ==> stepN <= maxK + 1) && solver.Valid() && fresh(solver)
      invariant solver.groups == map[groupInit := [GetInit0(m)]]
      invariant MeansPath(m, p, solver.permanent, stepN) && NoneShorter(m, p, stepN)
      invariant stepN > 0 ==> stepN - 1 < Pow2(|m.vars|)
      invariant forall n: nat :: n < stepN ==> !InductiveAt(m, p, n)
      decreases maxK - stepN
    {
      var additionalGroup := solver.CreateGroup();
      var probK := ToTimed(p, stepN);
      solver.SetPolarity(probK, false, additionalGroup);
      TwoGroups(groupInit, additionalGroup, GetInit0(m), Not(probK));
      ghost var fs := solver.permanent;
      QueriesAre(m, p, fs, groupInit, additionalGroup, stepN);
      var sat := solver.SolveWithoutGroups({groupInit});
      StepAnswer(m, p, fs, groupInit, additionalGroup, stepN);
      if !sat {
        StepUnsatisfiable(m, p, fs, groupInit, additionalGroup, stepN);
        NotWithin(m, p, maxK);
        status' := PropTrue;
        return;
      }
      StepBounded(m, p, fs, groupInit, additionalGroup, stepN);
      sat := solver.SolveAllGroups();
      BaseAnswer(m, p, fs, groupInit, additionalGroup, stepN);
      if sat {
        FoundWithin(m, p, stepN, maxK);
        status', length := PropFalse, stepN;
        return;
      }
      solver.DestroyGroup(additionalGroup);
      solver.SetPolarityPermanently(probK, true);
      solver.SetPolarityPermanently(GetUnrolling(m, stepN, stepN + 1), true);
      NextStart(m, p, fs, stepN);
      AddNotEqual(solver, m, p, stepN);
      stepN := stepN + 1;
    }
    NoneWithin(m, p, stepN, maxK);
    solver.DestroyGroup(groupInit);
  }

  lemma TwoGroups(init: Group, bad: Group, f: Formula, g: Formula)
    requires init != bad
    ensures var one: map<Group, seq<Formula>> := map[init := [f]];
            var two := one[bad := [] + [g]];
            var freshGroup := one[bad := []];
            && bad in freshGroup && freshGroup[bad] == []
            && freshGroup[bad := [] + [g]] == two && two - {bad} == one
  {
  }

  lemma NoViolationYet(m: Fsm, p: Expr<Var>)
    ensures NoneShorter(m, p, 0)
  {
  }

  lemma QueriesAre(m: Fsm, p: Expr<Var>, fs: seq<Formula>, init: Group, bad: Group, n: nat)
    requires init != bad
    ensures var groups := map[init := [GetInit0(m)]][bad := [] + [Not(ToTimed(p, n))]];
            && (StepQuery(m, p, fs, init, bad, n) <==> Satisfiable(fs, groups, {init}))
            && (BaseQuery(m, p, fs, init, bad, n) <==> Satisfiable(fs, groups, {}))
  {
  }

  lemma NotWithin(m: Fsm, p: Expr<Var>, k: int)
    requires !Violated(m, p)
    ensures !ViolatedWithin(m, p, k)
  {
  }

  lemma FoundWithin(m: Fsm, p: Expr<Var>, n: nat, k: int)
    requires n <= k && exists r :: Shortest(m, p, r) && |r.ins| == n
    ensures ViolatedWithin(m, p, k)
  {
  }

  lemma NoneWithin(m: Fsm, p: Expr<Var>, n: int, k: int)
    requires NoneShorter(m, p, n) && n > k
    ensures !ViolatedWithin(m, p, k)
  {
  }
}
