/** The Dual engine: one incremental solver for the base and another one for the step, which is
    extended backward from a bad state or forward to one. */
module DualPaths {
  import opened BoolExpr
  import opened Sets
  import opened BmcModel
  import opened BmcEncoding
  import opened BmcSolver
  import opened ZigZagPaths

  // ----- The base: runs from an initial state

  ghost predicate BasePath(m: Fsm, p: Expr<Var>, a: Assignment, n: nat) {
    && PropAt(m, m.init, a, 0) && PropAt(m, m.invar, a, 0)
    && forall t :: 0 <= t < n ==> PropAt(m, p, a, t) && MovesAt(m, a, t)
  }

  ghost predicate MeansBase(m: Fsm, p: Expr<Var>, fs: seq<Formula>, n: nat) {
    forall a :: AllHold(fs, a) <==> BasePath(m, p, a, n)
  }

  lemma BaseStart(m: Fsm, p: Expr<Var>)
    requires WellFormed(m, p)
    ensures MeansBase(m, p, [] + [GetInit0(m)], 0)
  {
    assert [] + [GetInit0(m)] == [GetInit0(m)];
    forall a ensures AllHold([GetInit0(m)], a) <==> BasePath(m, p, a, 0) {
      AllHoldOne(GetInit0(m), a);
      Init0Holds(m, p, a);
    }
  }

  lemma BaseNext(m: Fsm, p: Expr<Var>, fs: seq<Formula>, n: nat)
    requires WellFormed(m, p) && MeansBase(m, p, fs, n)
    ensures MeansBase(m, p, fs + [ToTimed(p, n)] + [GetUnrolling(m, n, n + 1)], n + 1)
  {
    hide PropAt, MovesAt;
    var gs := fs + [ToTimed(p, n)];
    var hs := gs + [GetUnrolling(m, n, n + 1)];
    forall a ensures AllHold(hs, a) <==> BasePath(m, p, a, n + 1) {
      AllHoldPush(fs, ToTimed(p, n), a);
      AllHoldPush(gs, GetUnrolling(m, n, n + 1), a);
      PropHolds(m, p, a, n);
      UnrollingHolds(m, p, a, n, n + 1);
    }
  }

  ghost predicate BadQuery(p: Expr<Var>, fs: seq<Formula>, bad: Group, n: nat) {
    Satisfiable(fs, map[bad := [Not(ToTimed(p, n))]], {})
  }

  lemma BadMeans(m: Fsm, p: Expr<Var>, fs: seq<Formula>, bad: Group, n: nat, a: Assignment)
    requires WellFormed(m, p)
    ensures Satisfies(fs, map[bad := [Not(ToTimed(p, n))]], {}, a) <==> AllHold(fs, a) && !PropAt(m, p, a, n)
  {
    var groups := map[bad := [Not(ToTimed(p, n))]];
    PropHolds(m, p, a, n);
    AllHoldOne(Not(ToTimed(p, n)), a);
    assert bad in groups && groups[bad] == [Not(ToTimed(p, n))];
  }

  /** The base is satisfiable exactly if there is a violation of length n. */
  lemma DualBaseAnswer(m: Fsm, p: Expr<Var>, fs: seq<Formula>, bad: Group, n: nat)
    requires WellFormed(m, p) && MeansBase(m, p, fs, n) && NoneShorter(m, p, n)
    ensures BadQuery(p, fs, bad, n) ==> exists r :: Shortest(m, p, r) && |r.ins| == n
    ensures !BadQuery(p, fs, bad, n) ==> NoneShorter(m, p, n + 1)
  {
    var groups := map[bad := [Not(ToTimed(p, n))]];
    if BadQuery(p, fs, bad, n) {
      var a :| Satisfies(fs, groups, {}, a);
      BadMeans(m, p, fs, bad, n, a);
      assert BasePath(m, p, a, n);
      DecodeViolation(m, p, a, n);
      assert Shortest(m, p, Decode(m, a, n));
    } else {
      forall r | Violation(m, p, r) ensures |r.ins| >= n + 1 {
        if |r.ins| == n {
          assert Shortest(m, p, r);
          LastStatesFacts(m, p, r, n);
          assert BasePath(m, p, LastStates(r, n), n);
          BadMeans(m, p, fs, bad, n, LastStates(r, n));
        }
      }
    }
  }

  // ----- The backward step: runs to a bad state, in the opposite order

  /** The state t + 1 differs from the states from 1 to t, but only from the third step on. */
  ghost predicate BackStep(m: Fsm, p: Expr<Var>, a: Assignment, t: nat) {
    PropAt(m, p, a, t + 1) && MovesBackAt(m, a, t) && (t > 1 ==> DifferFrom(m, a, 1, t + 1))
  }

  ghost predicate BackPath(m: Fsm, p: Expr<Var>, a: Assignment, n: nat) {
    !PropAt(m, p, a, 0) && forall t :: 0 <= t < n ==> BackStep(m, p, a, t)
  }

  ghost predicate MeansBack(m: Fsm, p: Expr<Var>, fs: seq<Formula>, n: nat) {
    forall a :: AllHold(fs, a) <==> BackPath(m, p, a, n)
  }

  function BackTrans(m: Fsm, n: nat): Formula {
    And(And(ToTimes(m.trans, n + 1, n + 1, n), ToTimed(m.invar, n)), ToTimed(m.invar, n + 1))
  }

  lemma BackTransHolds(m: Fsm, p: Expr<Var>, a: Assignment, n: nat)
    requires WellFormed(m, p)
    ensures Holds(BackTrans(m, n), a) <==> MovesBackAt(m, a, n)
  {
    TransView(m, m.trans, a, n + 1, n + 1, n);
    PropHolds(m, m.invar, a, n);
    PropHolds(m, m.invar, a, n + 1);
  }

  lemma BackStart(m: Fsm, p: Expr<Var>)
    requires WellFormed(m, p)
    ensures MeansBack(m, p, [] + [Not(ToTimed(p, 0))], 0)
  {
    assert [] + [Not(ToTimed(p, 0))] == [Not(ToTimed(p, 0))];
    forall a ensures AllHold([Not(ToTimed(p, 0))], a) <==> BackPath(m, p, a, 0) {
      AllHoldOne(Not(ToTimed(p, 0)), a);
      PropHolds(m, p, a, 0);
    }
  }

  /** The constraints of the next backward step; `different` is the uniqueness constraint, if there is one. */
  lemma BackNext(m: Fsm, p: Expr<Var>, fs: seq<Formula>, n: nat, different: Formula)
    requires WellFormed(m, p) && MeansBack(m, p, fs, n)
    requires n > 1 ==> forall a :: Holds(different, a) <==> DifferFrom(m, a, 1, n + 1)
    ensures var gs := fs + [BackTrans(m, n)] + [ToTimed(p, n + 1)];
            MeansBack(m, p, if n > 1 then gs + [different] else gs, n + 1)
  {
    var f1 := fs + [BackTrans(m, n)];
    var f2 := f1 + [ToTimed(p, n + 1)];
    var f3 := if n > 1 then f2 + [different] else f2;
    forall a ensures AllHold(f3, a) <==> BackPath(m, p, a, n + 1) {
      AllHoldPush(fs, BackTrans(m, n), a);
      AllHoldPush(f1, ToTimed(p, n + 1), a);
      if n > 1 {
        AllHoldPush(f2, different, a);
      }
      BackTransHolds(m, p, a, n);
      PropHolds(m, p, a, n + 1);
      BackPathNext(m, p, a, n);
    }
  }

  lemma BackPathNext(m: Fsm, p: Expr<Var>, a: Assignment, n: nat)
    ensures BackPath(m, p, a, n + 1) <==> BackPath(m, p, a, n) && BackStep(m, p, a, n)
  {
    hide BackStep, PropAt;
  }

  /** The last states of a shortest run to a violation, counted backwards. */
  lemma BackWitness(m: Fsm, p: Expr<Var>, fs: seq<Formula>, n: nat, r: Run)
    requires MeansBack(m, p, fs, n) && NoneShorter(m, p, n + 1) && Violation(m, p, r)
    ensures Satisfiable(fs, map[], {})
  {
    var s := ShortestExists(m, p, r);
    LastStatesBackwardFacts(m, p, s, n);
    var a := LastStatesBackward(s, n);
    forall t | 0 <= t < n ensures BackStep(m, p, a, t) {
      assert PropAt(m, p, a, t + 1);
    }
    assert BackPath(m, p, a, n);
    assert Satisfies(fs, map[], {}, a);
  }

  /** Without a backward path, and without violations of length at most n, there is no violation. */
  lemma BackUnsatisfiable(m: Fsm, p: Expr<Var>, fs: seq<Formula>, n: nat)
    requires MeansBack(m, p, fs, n) && NoneShorter(m, p, n + 1) && !Satisfiable(fs, map[], {})
    ensures !Violated(m, p)
  {
    hide MeansBack, NoneShorter, Satisfiable, Violation;
    forall r ensures Violation(m, p, r) ==> Satisfiable(fs, map[], {}) {
      if Violation(m, p, r) {
        BackWitness(m, p, fs, n, r);
      }
    }
  }

  /** Although the states 1 and 2 may be equal, the bad state and the states from 2 on are different. */
  lemma BackBounded(m: Fsm, p: Expr<Var>, fs: seq<Formula>, n: nat)
    requires MeansBack(m, p, fs, n) && Satisfiable(fs, map[], {})
    ensures n <= Pow2(|m.vars|)
  {
    var a :| Satisfies(fs, map[], {}, a);
    assert BackPath(m, p, a, n);
    var ss := seq(n, i requires 0 <= i => if i == 0 then StateAt(m, a, 0) else StateAt(m, a, i + 1));
    forall i, j | 0 <= i < j < n ensures ss[i] != ss[j] {
      assert BackStep(m, p, a, j);
      if i > 0 {
        assert Differ(m, a, i + 1, j + 1);
      }
    }
    assert forall t :: StateOk(m, StateAt(m, a, t));
    Pigeonhole(m, ss);
  }

  /** All states before the last one are different, except that the two just before it may be equal. */
  ghost predicate NoRepetitionBut(r: Run)
    requires |r.ss| == |r.ins| + 1
  {
    forall i, j :: 0 <= i < j < |r.ins| && i + 2 < |r.ins| ==> r.ss[i] != r.ss[j]
  }

  /** No run of n moves goes through such states that satisfy the invariant to one that does not. */
  ghost predicate BackInductiveAt(m: Fsm, p: Expr<Var>, n: nat) {
    forall r :: EndsBadly(m, p, r) && NoRepetitionBut(r) ==> |r.ins| != n
  }

  /** The backward step is unsatisfiable exactly if the invariant is inductive at n in this sense. */
  lemma BackAnswer(m: Fsm, p: Expr<Var>, fs: seq<Formula>, n: nat)
    requires MeansBack(m, p, fs, n)
    ensures !Satisfiable(fs, map[], {}) <==> BackInductiveAt(m, p, n)
  {
    if a :| Satisfies(fs, map[], {}, a) {
      assert BackPath(m, p, a, n);
      BackPathIsRun(m, p, a, n);
    }
    forall r | EndsBadly(m, p, r) && NoRepetitionBut(r) && |r.ins| == n ensures Satisfiable(fs, map[], {}) {
      RunIsBackPath(m, p, r);
      assert Satisfies(fs, map[], {}, LastStatesBackward(r, n));
    }
  }

  ghost function DecodeBack(m: Fsm, a: Assignment, n: nat): Run {
    Run(FrozenAt(a), seq(n + 1, t requires 0 <= t <= n => StateAt(m, a, n - t)), seq(n, t requires 0 <= t < n => InputsAt(a, n - t)))
  }

  lemma DecodeBackAt(m: Fsm, a: Assignment, n: nat, t: nat)
    requires t <= n
    ensures var r := DecodeBack(m, a, n);
            && |r.ss| == n + 1 && |r.ins| == n && r.f == FrozenAt(a) && r.ss[t] == StateAt(m, a, n - t) && StateOk(m, r.ss[t])
            && (t < n ==> r.ins[t] == InputsAt(a, n - t))
  {
  }

  lemma BackPathMoves(m: Fsm, p: Expr<Var>, a: Assignment, n: nat, t: nat)
    requires BackPath(m, p, a, n) && t < n
    ensures var r := DecodeBack(m, a, n);
            && |r.ss| == n + 1 && |r.ins| == n
            && Moves(m, r.ss[t], r.f, r.ins[t], r.ss[t + 1]) && InState(p, r.ss[t], r.f)
  {
    hide StateAt, InState, FrozenAt, InputsAt, Holds, StateOk, DecodeBack, DifferFrom, Moves;
    DecodeBackAt(m, a, n, t);
    DecodeBackAt(m, a, n, t + 1);
    var u := n - t - 1;
    assert BackStep(m, p, a, u) && u + 1 == n - t && n - (t + 1) == u;
  }

  lemma BackPathDiffers(m: Fsm, p: Expr<Var>, a: Assignment, n: nat, i: nat, j: nat)
    requires BackPath(m, p, a, n) && i < j < n && i + 2 < n
    ensures var r := DecodeBack(m, a, n); |r.ss| == n + 1 && r.ss[i] != r.ss[j]
  {
    hide StateAt, InState, FrozenAt, InputsAt, Holds, StateOk, DecodeBack, MovesBackAt, PropAt;
    DecodeBackAt(m, a, n, i);
    DecodeBackAt(m, a, n, j);
    var u := n - i - 1;
    assert BackStep(m, p, a, u) && u + 1 == n - i;
    assert Differ(m, a, n - j, u + 1);
  }

  lemma BackPathIsRun(m: Fsm, p: Expr<Var>, a: Assignment, n: nat)
    requires BackPath(m, p, a, n)
    ensures var r := DecodeBack(m, a, n); EndsBadly(m, p, r) && NoRepetitionBut(r) && |r.ins| == n
  {
    var r := DecodeBack(m, a, n);
    DecodeBackAt(m, a, n, n);
    assert !PropAt(m, p, a, 0);
    hide StateAt, InState, FrozenAt, InputsAt, Holds, StateOk, DecodeBack, BackPath, Moves;
    forall t | 0 <= t <= n ensures StateOk(m, r.ss[t]) {
      DecodeBackAt(m, a, n, t);
    }
    forall t | 0 <= t < n ensures Moves(m, r.ss[t], r.f, r.ins[t], r.ss[t + 1]) && InState(p, r.ss[t], r.f) {
      BackPathMoves(m, p, a, n, t);
    }
    forall i, j | 0 <= i < j < n && i + 2 < n ensures r.ss[i] != r.ss[j] {
      BackPathDiffers(m, p, a, n, i, j);
    }
  }

  lemma BadRunAt(m: Fsm, p: Expr<Var>, r: Run, v: nat)
    requires EndsBadly(m, p, r) && v < |r.ins|
    ensures IsRun(m, r) && |r.ss| == |r.ins| + 1
    ensures Moves(m, r.ss[v], r.f, r.ins[v], r.ss[v + 1]) && InState(p, r.ss[v], r.f)
  {
    hide Moves, InState, StateOk;
  }

  lemma RunMovesBack(m: Fsm, p: Expr<Var>, r: Run, t: nat)
    requires EndsBadly(m, p, r) && t < |r.ins|
    ensures var a := LastStatesBackward(r, |r.ins|); PropAt(m, p, a, t + 1) && MovesBackAt(m, a, t)
  {
    hide *;
    var n, v := |r.ins|, |r.ins| - t - 1;
    BadRunAt(m, p, r, v);
    LastStatesBackwardAt(m, r, n, t);
    LastStatesBackwardAt(m, r, n, t + 1);
    assert v + 1 == n - t && v == n - (t + 1);
    BackAt(m, p, r, LastStatesBackward(r, n), t, v);
  }

  lemma BackAt(m: Fsm, p: Expr<Var>, r: Run, a: Assignment, t: nat, v: nat)
    requires v < |r.ins| && |r.ss| == |r.ins| + 1 && FrozenAt(a) == r.f
    requires StateAt(m, a, t) == r.ss[v + 1] && StateAt(m, a, t + 1) == r.ss[v] && InputsAt(a, t + 1) == r.ins[v]
    requires Moves(m, r.ss[v], r.f, r.ins[v], r.ss[v + 1]) && InState(p, r.ss[v], r.f)
    ensures PropAt(m, p, a, t + 1) && MovesBackAt(m, a, t)
  {
    hide StateAt, FrozenAt, InputsAt, Moves, InState;
  }

  lemma RunDiffersBack(m: Fsm, r: Run, t: nat)
    requires IsRun(m, r) && NoRepetitionBut(r) && 1 < t < |r.ins|
    ensures DifferFrom(m, LastStatesBackward(r, |r.ins|), 1, t + 1)
  {
    var n, u := |r.ins|, t + 1;
    var a := LastStatesBackward(r, n);
    LastStatesBackwardAt(m, r, n, u);
    hide StateAt, LastStatesBackward, IsRun;
    forall l | 1 <= l < u ensures Differ(m, a, l, u) {
      LastStatesBackwardAt(m, r, n, l);
    }
  }

  lemma RunIsBackStep(m: Fsm, p: Expr<Var>, r: Run, t: nat)
    requires EndsBadly(m, p, r) && NoRepetitionBut(r) && t < |r.ins|
    ensures BackStep(m, p, LastStatesBackward(r, |r.ins|), t)
  {
    RunMovesBack(m, p, r, t);
    if t > 1 {
      RunDiffersBack(m, r, t);
    }
    hide LastStatesBackward, PropAt, MovesBackAt, DifferFrom, IsRun, NoRepetitionBut;
  }

  lemma RunIsBackPath(m: Fsm, p: Expr<Var>, r: Run)
    requires EndsBadly(m, p, r) && NoRepetitionBut(r)
    ensures BackPath(m, p, LastStatesBackward(r, |r.ins|), |r.ins|)
  {
    LastStatesBackwardAt(m, r, |r.ins|, 0);
    hide BackStep, LastStatesBackward, InState, StateAt, FrozenAt;
    forall t | 0 <= t < |r.ins| ensures BackStep(m, p, LastStatesBackward(r, |r.ins|), t) {
      RunIsBackStep(m, p, r, t);
    }
  }

  // ----- The forward step: runs to a bad state

  ghost predicate ForwardPath(m: Fsm, p: Expr<Var>, a: Assignment, n: nat) {
    && PropAt(m, m.invar, a, 0)
    && (forall t :: 0 <= t < n ==> PropAt(m, p, a, t) && MovesAt(m, a, t))
    && (forall i, j :: 0 <= i < j <= n ==> Differ(m, a, i, j))
  }

  /** What k iterations have added. */
  ghost predicate MeansForward(m: Fsm, p: Expr<Var>, fs: seq<Formula>, k: nat) {
    forall a :: AllHold(fs, a) <==> (k > 0 ==> ForwardPath(m, p, a, k - 1))
  }

  lemma ForwardStart(m: Fsm, p: Expr<Var>)
    ensures MeansForward(m, p, [], 0)
  {
  }

  lemma AndsHold(f: Formula, g: Formula, h: Formula, a: Assignment)
    ensures Holds(And(And(f, g), h), a) <==> Holds(f, a) && Holds(g, a) && Holds(h, a)
  {
    assert Holds(And(f, g), a) <==> Holds(f, a) && Holds(g, a);
  }

  lemma ForwardUnrollingHolds(m: Fsm, p: Expr<Var>, a: Assignment, n: nat)
    requires WellFormed(m, p)
    ensures n == 0 ==> (Holds(DualForwardUnrolling(m, p, n), a) <==> PropAt(m, m.invar, a, 0))
    ensures n > 0 && PropAt(m, m.invar, a, n - 1) ==>
              (Holds(DualForwardUnrolling(m, p, n), a) <==> MovesAt(m, a, n - 1) && PropAt(m, p, a, n - 1))
    ensures n > 0 && Holds(DualForwardUnrolling(m, p, n), a) ==> PropAt(m, m.invar, a, n)
  {
    if n == 0 {
      PropHolds(m, m.invar, a, 0);
    } else {
      hide Holds, ToTimes, OnTrans, OnState;
      TransView(m, m.trans, a, n - 1, n - 1, n);
      PropHolds(m, m.invar, a, n);
      PropHolds(m, p, a, n - 1);
      AndsHold(ToTimed(m.trans, n - 1), ToTimed(m.invar, n), ToTimed(p, n - 1), a);
      var moves := And(ToTimed(m.trans, n - 1), ToTimed(m.invar, n));
      assert DualForwardUnrolling(m, p, n) == And(moves, ToTimed(p, n - 1));
    }
  }

  lemma ForwardNext(m: Fsm, p: Expr<Var>, fs: seq<Formula>, n: nat, different: Formula)
    requires WellFormed(m, p) && MeansForward(m, p, fs, n)
    requires n > 0 ==> forall a :: Holds(different, a) <==> DifferFrom(m, a, 0, n)
    ensures var gs := fs + [DualForwardUnrolling(m, p, n)];
            MeansForward(m, p, if n > 0 then gs + [different] else gs, n + 1)
  {
    hide ForwardPath, Holds, AllHold, DualForwardUnrolling, DifferFrom, WellFormed;
    var f1 := fs + [DualForwardUnrolling(m, p, n)];
    var f2 := if n > 0 then f1 + [different] else f1;
    forall a ensures AllHold(f2, a) <==> ForwardPath(m, p, a, n) {
      AllHoldPush(fs, DualForwardUnrolling(m, p, n), a);
      if n > 0 {
        AllHoldPush(f1, different, a);
        ForwardAdds(m, p, a, n);
      } else {
        ForwardBegins(m, p, a);
      }
    }
  }

  /** What the first unrolling says. */
  lemma ForwardBegins(m: Fsm, p: Expr<Var>, a: Assignment)
    requires WellFormed(m, p)
    ensures Holds(DualForwardUnrolling(m, p, 0), a) <==> ForwardPath(m, p, a, 0)
  {
    ForwardUnrollingHolds(m, p, a, 0);
    hide Holds, DualForwardUnrolling, PropAt;
  }

  /** What the next unrolling and the uniqueness of its state add. */
  lemma ForwardAdds(m: Fsm, p: Expr<Var>, a: Assignment, n: nat)
    requires WellFormed(m, p) && n > 0
    ensures ForwardPath(m, p, a, n - 1) && Holds(DualForwardUnrolling(m, p, n), a) && DifferFrom(m, a, 0, n) <==>
            ForwardPath(m, p, a, n)
  {
    hide *;
    ForwardUnrollingHolds(m, p, a, n);
    InvarAtLast(m, p, a, n - 1);
    ForwardPathNext(m, p, a, n - 1);
    assert PropAt(m, m.invar, a, n - 1) ==> (Holds(DualForwardUnrolling(m, p, n), a) <==> MovesAt(m, a, n - 1) && PropAt(m, p, a, n - 1));
  }

  lemma InvarAtLast(m: Fsm, p: Expr<Var>, a: Assignment, n: nat)
    ensures ForwardPath(m, p, a, n) ==> PropAt(m, m.invar, a, n)
  {
    if n > 0 && ForwardPath(m, p, a, n) {
      assert MovesAt(m, a, n - 1);
    }
  }

  lemma ForwardPathNext(m: Fsm, p: Expr<Var>, a: Assignment, n: nat)
    ensures ForwardPath(m, p, a, n + 1) <==>
            ForwardPath(m, p, a, n) && PropAt(m, p, a, n) && MovesAt(m, a, n) && DifferFrom(m, a, 0, n + 1)
  {
    hide PropAt, MovesAt, Differ;
  }

  /** The last states of a shortest run to a violation. */
  lemma ForwardWitness(m: Fsm, p: Expr<Var>, fs: seq<Formula>, bad: Group, n: nat, r: Run)
    requires WellFormed(m, p) && MeansForward(m, p, fs, n + 1) && NoneShorter(m, p, n + 1) && Violation(m, p, r)
    ensures BadQuery(p, fs, bad, n)
  {
    var s := ShortestExists(m, p, r);
    LastStatesFacts(m, p, s, n);
    assert ForwardPath(m, p, LastStates(s, n), n);
    BadMeans(m, p, fs, bad, n, LastStates(s, n));
  }

  /** No run of n moves from a state of the machine goes through different states that satisfy the
      invariant to one that does not. */
  ghost predicate ForwardInductiveAt(m: Fsm, p: Expr<Var>, n: nat) {
    forall r :: EndsBadly(m, p, r) && NoRepetition(r) && InState(m.invar, r.ss[0], r.f) ==> |r.ins| != n
  }

  /** The forward step is unsatisfiable exactly if the invariant is inductive at n in this sense. */
  lemma ForwardAnswer(m: Fsm, p: Expr<Var>, fs: seq<Formula>, bad: Group, n: nat)
    requires WellFormed(m, p) && MeansForward(m, p, fs, n + 1)
    ensures !BadQuery(p, fs, bad, n) <==> ForwardInductiveAt(m, p, n)
  {
    hide WellFormed, NoRepetition, InState;
    if BadQuery(p, fs, bad, n) {
      var a :| Satisfies(fs, map[bad := [Not(ToTimed(p, n))]], {}, a);
      BadMeans(m, p, fs, bad, n, a);
      ForwardPathIsRun(m, p, a, n);
    }
    forall r | EndsBadly(m, p, r) && NoRepetition(r) && InState(m.invar, r.ss[0], r.f) && |r.ins| == n
      ensures BadQuery(p, fs, bad, n)
    {
      RunIsForwardPath(m, p, r);
      BadMeans(m, p, fs, bad, n, Encode(r.f, r.ss, r.ins));
    }
  }

  lemma ForwardPathIsRun(m: Fsm, p: Expr<Var>, a: Assignment, n: nat)
    requires ForwardPath(m, p, a, n) && !PropAt(m, p, a, n)
    ensures var r := Decode(m, a, n);
            EndsBadly(m, p, r) && NoRepetition(r) && InState(m.invar, r.ss[0], r.f) && |r.ins| == n
  {
    PathIsRun(m, p, a, n);
    DecodeIsRun(m, a, n);
  }

  lemma RunIsForwardPath(m: Fsm, p: Expr<Var>, r: Run)
    requires EndsBadly(m, p, r) && NoRepetition(r) && InState(m.invar, r.ss[0], r.f)
    ensures var a := Encode(r.f, r.ss, r.ins); ForwardPath(m, p, a, |r.ins|) && !PropAt(m, p, a, |r.ins|)
  {
    RunEncoded(m, r);
    hide StateAt, InState, FrozenAt, Encode, Moves, MovesAt;
  }

  lemma ForwardUnsatisfiable(m: Fsm, p: Expr<Var>, fs: seq<Formula>, bad: Group, n: nat)
    requires WellFormed(m, p) && MeansForward(m, p, fs, n + 1) && NoneShorter(m, p, n + 1) && !BadQuery(p, fs, bad, n)
    ensures !Violated(m, p)
  {
    hide MeansForward, NoneShorter, BadQuery, Violation;
    forall r ensures Violation(m, p, r) ==> BadQuery(p, fs, bad, n) {
      if Violation(m, p, r) {
        ForwardWitness(m, p, fs, bad, n, r);
      }
    }
  }

  lemma ForwardBounded(m: Fsm, p: Expr<Var>, fs: seq<Formula>, bad: Group, n: nat)
    requires WellFormed(m, p) && MeansForward(m, p, fs, n + 1) && BadQuery(p, fs, bad, n)
    ensures n < Pow2(|m.vars|)
  {
    var a :| Satisfies(fs, map[bad := [Not(ToTimed(p, n))]], {}, a);
    BadMeans(m, p, fs, bad, n, a);
    assert ForwardPath(m, p, a, n);
    DifferBound(m, a, 0, n + 1);
  }
}

module BmcDual {
  import opened BoolExpr
  import opened Sets
  import opened BmcModel
  import opened BmcEncoding
  import opened BmcSolver
  import opened BmcUniqueness
  import opened ZigZagPaths
  import opened BmcZigZag
  import opened DualPaths

  datatype ClosureStrategy = BackwardClosure | ForwardClosure

  /** Solve the base for one more step; if there is no violation of that length, extend it. */
  method ExtendBase(solverBase: SatIncSolver, m: Fsm, p: Expr<Var>, n: nat) returns (found: bool)
    requires solverBase.Valid() && WellFormed(m, p) && NoneShorter(m, p, n)
    requires solverBase.groups == map[] && MeansBase(m, p, solverBase.permanent, n)
    modifies solverBase
    ensures solverBase.Valid()
    ensures found ==> exists r :: Shortest(m, p, r) && |r.ins| == n
    ensures !found ==> NoneShorter(m, p, n + 1) && solverBase.groups == map[] && MeansBase(m, p, solverBase.permanent, n + 1)
  {
    hide *;
    ghost var fs := solverBase.permanent;
    var additionalGroup := solverBase.CreateGroup();
    var probK := ToTimed(p, n);
    solverBase.SetPolarity(probK, false, additionalGroup);
    assert [] + [Not(probK)] == [Not(probK)];
    assert solverBase.groups == map[additionalGroup := [Not(probK)]];
    found := solverBase.SolveAllGroups();
    BadIs(p, fs, additionalGroup, n);
    DualBaseAnswer(m, p, fs, additionalGroup, n);
    if !found {
      solverBase.DestroyGroup(additionalGroup);
      solverBase.SetPolarityPermanently(probK, true);
      solverBase.SetPolarityPermanently(GetUnrolling(m, n, n + 1), true);
      BaseNext(m, p, fs, n);
    }
  }

  lemma BadIs(p: Expr<Var>, fs: seq<Formula>, bad: Group, n: nat)
    ensures BadQuery(p, fs, bad, n) <==> Satisfiable(fs, map[bad := [Not(ToTimed(p, n))]], {})
  {
  }

  /** Solve the backward step; if it is satisfiable, extend it. */
  method ExtendBackward(solverStep: SatIncSolver, m: Fsm, p: Expr<Var>, n: nat) returns (proved: bool)
    requires solverStep.Valid() && WellFormed(m, p) && NoneShorter(m, p, n + 1)
    requires solverStep.groups == map[] && MeansBack(m, p, solverStep.permanent, n)
    modifies solverStep
    ensures solverStep.Valid()
    ensures proved <==> BackInductiveAt(m, p, n)
    ensures proved ==> !Violated(m, p)
    ensures !proved ==> n <= Pow2(|m.vars|) && solverStep.groups == map[] && MeansBack(m, p, solverStep.permanent, n + 1)
  {
    hide *;
    ghost var fs := solverStep.permanent;
    var sat := solverStep.SolveAllGroups();
    BackAnswer(m, p, fs, n);
    proved := !sat;
    if proved {
      BackUnsatisfiable(m, p, fs, n);
    } else {
      BackBounded(m, p, fs, n);
      solverStep.SetPolarityPermanently(BackTrans(m, n), true);
      solverStep.SetPolarityPermanently(ToTimed(p, n + 1), true);
      var notEqual: Formula := True;
      if 1 < n {
        notEqual := BuildUniqueness(m, 1, 1 + n);
        solverStep.SetPolarityPermanently(notEqual, true);
      }
      BackNext(m, p, fs, n, notEqual);
    }
  }

  /** Extend the forward step, and solve it with the last state bad. */
  method ExtendForward(solverStep: SatIncSolver, m: Fsm, p: Expr<Var>, n: nat) returns (proved: bool)
    requires solverStep.Valid() && WellFormed(m, p) && NoneShorter(m, p, n + 1)
    requires solverStep.groups == map[] && MeansForward(m, p, solverStep.permanent, n)
    modifies solverStep
    ensures solverStep.Valid()
    ensures proved <==> ForwardInductiveAt(m, p, n)
    ensures proved ==> !Violated(m, p)
    ensures !proved ==> n < Pow2(|m.vars|) && solverStep.groups == map[] && MeansForward(m, p, solverStep.permanent, n + 1)
  {
    hide *;
    ghost var fs := solverStep.permanent;
    solverStep.SetPolarityPermanently(DualForwardUnrolling(m, p, n), true);
    var uniqueness: Formula := True;
    if 0 < n {
      uniqueness := BuildUniqueness(m, 0, n);
      solverStep.SetPolarityPermanently(uniqueness, true);
    }
    ForwardNext(m, p, fs, n, uniqueness);
    ghost var gs := solverStep.permanent;
    var bugGroup := solverStep.CreateGroup();
    var bug := ToTimed(p, n);
    solverStep.SetPolarity(bug, false, bugGroup);
    assert [] + [Not(bug)] == [Not(bug)];
    assert solverStep.groups == map[bugGroup := [Not(bug)]];
    var sat := solverStep.SolveAllGroups();
    BadIs(p, gs, bugGroup, n);
    ForwardAnswer(m, p, gs, bugGroup, n);
    proved := !sat;
    if proved {
      ForwardUnsatisfiable(m, p, gs, bugGroup, n);
    } else {
      ForwardBounded(m, p, gs, bugGroup, n);
      solverStep.DestroyGroup(bugGroup);
    }
  }

  /** What the step of a closure strategy proves at n. */
  ghost predicate StepProves(m: Fsm, p: Expr<Var>, strategy: ClosureStrategy, n: nat) {
    match strategy
    case BackwardClosure => BackInductiveAt(m, p, n)
    case ForwardClosure => ForwardInductiveAt(m, p, n)
  }

  lemma StepOf(m: Fsm, p: Expr<Var>, strategy: ClosureStrategy, n: nat)
    ensures strategy == BackwardClosure ==> (StepProves(m, p, strategy, n) <==> BackInductiveAt(m, p, n))
    ensures strategy == ForwardClosure ==> (StepProves(m, p, strategy, n) <==> ForwardInductiveAt(m, p, n))
  {
  }

  /** Dual.  The answers mean the same as those of ZigZag.  The forward closure concludes when the bound
      is the number of states, the backward closure one step later; it rejects machines with inputs. */
  method GenSolveInvarDual(m: Fsm, p: Expr<Var>, maxK: int, strategy: ClosureStrategy, status: PropStatus)
    returns (code: int, status': PropStatus, length: nat)
    requires WellFormed(m, p)
    ensures status != Unchecked ==> code == 0 && status' == status
    ensures status == Unchecked && strategy == BackwardClosure && m.inputs != [] ==> code == 1 && status' == Unchecked
    ensures status == Unchecked && !(strategy == BackwardClosure && m.inputs != []) ==>
              && code == 0
              && (status' == PropTrue ==> !Violated(m, p))
              && (status' == PropTrue <==> !ViolatedWithin(m, p, maxK) && exists n: nat :: n <= maxK && StepProves(m, p, strategy, n))
              && (status' == PropFalse <==> ViolatedWithin(m, p, maxK))
              && (status' == PropFalse ==> exists r :: Shortest(m, p, r) && |r.ins| == length)
              && (maxK >= Pow2(|m.vars|) + (if strategy == BackwardClosure then 1 else 0) ==> status' != Unchecked)
  {
    hide *;
    code, status', length := 0, status, 0;
    if status != Unchecked {
      return;
    }
    if strategy == BackwardClosure && |m.inputs| > 0 {
      code := 1;
      return;
    }
    var solverBase := new SatIncSolver();
    var solverStep := new SatIncSolver();
    solverBase.SetPolarityPermanently(GetInit0(m), true);
    BaseStart(m, p);
    if strategy == BackwardClosure {
      solverStep.SetPolarityPermanently(ToTimed(p, 0), false);
      BackStart(m, p);
    } else {
      ForwardStart(m, p);
    }
    NoViolationYet(m, p);
    var stepN := 0;
    while stepN <= maxK
      invariant 0 <= stepN && solverBase.Valid() && fresh(solverBase) && solverStep.Valid() && fresh(solverStep) && solverBase != solverStep
      invariant solverBase.groups == map[] && solverStep.groups == map[]
      invariant MeansBase(m, p, solverBase.permanent, stepN) && NoneShorter(m, p, stepN)
      invariant strategy == BackwardClosure ==> MeansBack(m, p, solverStep.permanent, stepN)
      invariant strategy == ForwardClosure ==> MeansForward(m, p, solverStep.permanent, stepN)
      invariant stepN > 0 ==> stepN - 1 < Pow2(|m.vars|) + if strategy == BackwardClosure then 1 else 0
      invariant forall n: nat :: n < stepN ==> !StepProves(m, p, strategy, n)
      decreases maxK - stepN
    {
      StepOf(m, p, strategy, stepN);
      var found := ExtendBase(solverBase, m, p, stepN);
      if found {
        FoundWithin(m, p, stepN, maxK);
        status', length := PropFalse, stepN;
        return;
      }
      var proved;
      match strategy {
        case BackwardClosure => proved := ExtendBackward(solverStep, m, p, stepN);
        case ForwardClosure => proved := ExtendForward(solverStep, m, p, stepN);
      }
      if proved {
        NotWithin(m, p, maxK);
        status' := PropTrue;
        return;
      }
      stepN := stepN + 1;
    }
    NoneWithin(m, p, stepN, maxK);
  }
}
