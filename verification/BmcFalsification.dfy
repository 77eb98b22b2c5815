/** The Falsification engine: violations are looked for in batches of several lengths. */
module FalsificationPaths {
  import opened BoolExpr
  import opened BmcModel
  import opened BmcEncoding
  import opened BmcSolver

  /** The first length after the batch that starts at s. */
  function Limit(s: nat, step: nat, maxK: int): int {
    if s + step <= maxK then s + step else maxK + 1
  }

  function Max(x: int, y: int): int {
    if x < y then y else x
  }

  /** A batch starts there. */
  predicate IsBatch(s: nat, step: nat)
    requires step > 0
  {
    s == 0 || (s >= step && IsBatch(s - step, step))
  }

  /** How many transitions have been asserted before the batch that starts at s. */
  function Asserted(s: nat, step: nat, maxK: int): int
    requires step > 0
    decreases s, 0
  {
    if s < step then 0 else Max(Queried(s - step, step, maxK), Limit(s - step, step, maxK))
  }

  /** How many transitions are asserted when the batch that starts at s is solved: the unrolling goes
      beyond the lengths of the batch. */
  function Queried(s: nat, step: nat, maxK: int): int
    requires step > 0
    decreases s, 1
  {
    var limit := Limit(s, step, maxK);
    if limit - s > 1 then Max(Asserted(s, step, maxK), s + limit - 1) else Asserted(s, step, maxK)
  }

  lemma {:induction false} AssertedCovers(s: nat, step: nat, maxK: int)
    requires step > 0 && IsBatch(s, step) && s <= maxK
    ensures s <= Asserted(s, step, maxK) <= Queried(s, step, maxK)
    ensures Limit(s, step, maxK) - 1 <= Queried(s, step, maxK) && s < Limit(s, step, maxK)
  {
  }

  // ----- What the constraints mean

  /** Runs of h moves from an initial state, whose first s states satisfy the invariant. */
  ghost predicate FalsePath(m: Fsm, p: Expr<Var>, a: Assignment, s: nat, h: int) {
    && PropAt(m, m.init, a, 0) && PropAt(m, m.invar, a, 0)
    && (forall t :: 0 <= t < s ==> PropAt(m, p, a, t))
    && (forall t :: 0 <= t < h ==> MovesAt(m, a, t))
  }

  ghost predicate MeansFalse(m: Fsm, p: Expr<Var>, fs: seq<Formula>, s: nat, h: int) {
    forall a :: AllHold(fs, a) <==> FalsePath(m, p, a, s, h)
  }

  lemma FalseStart(m: Fsm, p: Expr<Var>)
    requires WellFormed(m, p)
    ensures MeansFalse(m, p, [] + [GetInit0(m)], 0, 0)
  {
    assert [] + [GetInit0(m)] == [GetInit0(m)];
    forall a ensures AllHold([GetInit0(m)], a) <==> FalsePath(m, p, a, 0, 0) {
      AllHoldOne(GetInit0(m), a);
      Init0Holds(m, p, a);
    }
  }

  lemma FalseUnroll(m: Fsm, p: Expr<Var>, fs: seq<Formula>, s: nat, h: int, j: nat, k: nat)
    requires WellFormed(m, p) && MeansFalse(m, p, fs, s, h) && j <= k && j <= h
    ensures MeansFalse(m, p, fs + [GetUnrolling(m, j, k)], s, Max(h, k))
  {
    hide PropAt, MovesAt;
    var gs := fs + [GetUnrolling(m, j, k)];
    forall a ensures AllHold(gs, a) <==> FalsePath(m, p, a, s, Max(h, k)) {
      AllHoldPush(fs, GetUnrolling(m, j, k), a);
      UnrollingHolds(m, p, a, j, k);
    }
  }

  lemma FalseProp(m: Fsm, p: Expr<Var>, fs: seq<Formula>, s: nat, h: int)
    requires WellFormed(m, p) && MeansFalse(m, p, fs, s, h)
    ensures MeansFalse(m, p, fs + [ToTimed(p, s)], s + 1, h)
  {
    hide PropAt, MovesAt;
    var gs := fs + [ToTimed(p, s)];
    forall a ensures AllHold(gs, a) <==> FalsePath(m, p, a, s + 1, h) {
      AllHoldPush(fs, ToTimed(p, s), a);
      PropHolds(m, p, a, s);
    }
  }

  /** Some state of the batch violates the invariant. */
  ghost predicate BadIn(m: Fsm, p: Expr<Var>, a: Assignment, s: nat, limit: int) {
    exists k :: s <= k < limit && !PropAt(m, p, a, k)
  }

  lemma BadMore(m: Fsm, p: Expr<Var>, a: Assignment, prob: Formula, s: nat, k: nat)
    requires WellFormed(m, p) && s <= k && (Holds(prob, a) <==> BadIn(m, p, a, s, k))
    ensures Holds(Or(prob, Not(ToTimed(p, k))), a) <==> BadIn(m, p, a, s, k + 1)
  {
    PropHolds(m, p, a, k);
    assert Holds(Not(ToTimed(p, k)), a) <==> !Holds(ToTimed(p, k), a);
    assert Holds(Or(prob, Not(ToTimed(p, k))), a) <==> Holds(prob, a) || Holds(Not(ToTimed(p, k)), a);
    hide PropAt;
    if BadIn(m, p, a, s, k) {
      var j :| s <= j < k && !PropAt(m, p, a, j);
    }
  }

  // ----- What the engine finds

  /** A run from an initial state, long enough for the query of the batch, that violates the invariant
      at a length of the batch. */
  ghost predicate CaughtAt(m: Fsm, p: Expr<Var>, step: nat, maxK: int, s: nat, k: nat, r: Run)
    requires step > 0
  {
    && IsBatch(s, step) && s <= maxK && s <= k < Limit(s, step, maxK)
    && FromInit(m, r) && |r.ins| == Queried(s, step, maxK) && k <= |r.ins| && !InState(p, r.ss[k], r.f)
  }

  ghost predicate CaughtIn(m: Fsm, p: Expr<Var>, step: nat, maxK: int, s: nat)
    requires step > 0
  {
    exists k, r :: CaughtAt(m, p, step, maxK, s, k, r)
  }

  ghost predicate Caught(m: Fsm, p: Expr<Var>, step: nat, maxK: int)
    requires step > 0
  {
    exists s :: CaughtIn(m, p, step, maxK, s)
  }

  /** An earlier violation of a caught run is caught by an earlier batch. */
  lemma {:induction false} CaughtEarlier(m: Fsm, p: Expr<Var>, step: nat, maxK: int, s: nat, r: Run, t: nat) returns (e: nat)
    requires step > 0 && IsBatch(s, step) && s <= maxK && t < s
    requires FromInit(m, r) && |r.ins| >= Asserted(s, step, maxK) && t <= |r.ins| && !InState(p, r.ss[t], r.f)
    ensures e < s && CaughtIn(m, p, step, maxK, e)
    decreases s
  {
    e := s - step;
    AssertedCovers(s - step, step, maxK);
    if t >= s - step {
      var q := Prefix(r, Queried(s - step, step, maxK));
      assert CaughtAt(m, p, step, maxK, s - step, t, q);
    } else {
      e := CaughtEarlier(m, p, step, maxK, s - step, r, t);
    }
  }

  /** The query of a batch is satisfiable exactly if a violation is caught in it, if none was before. */
  lemma BatchAnswer(m: Fsm, p: Expr<Var>, step: nat, maxK: int, s: nat, fs: seq<Formula>, prob: Formula, g: Group)
    requires WellFormed(m, p) && step > 0 && IsBatch(s, step) && s <= maxK
    requires MeansFalse(m, p, fs, s, Queried(s, step, maxK))
    requires forall a :: Holds(prob, a) <==> BadIn(m, p, a, s, Limit(s, step, maxK))
    requires forall e: nat :: e < s ==> !CaughtIn(m, p, step, maxK, e)
    ensures Satisfiable(fs, map[g := [prob]], {}) <==> CaughtIn(m, p, step, maxK, s)
  {
    var groups := map[g := [prob]];
    AssertedCovers(s, step, maxK);
    if Satisfiable(fs, groups, {}) {
      var a :| Satisfies(fs, groups, {}, a);
      assert groups[g] == [prob];
      AllHoldOne(prob, a);
      DecodeCaught(m, p, step, maxK, s, a);
    }
    if CaughtIn(m, p, step, maxK, s) {
      var k, r :| CaughtAt(m, p, step, maxK, s, k, r);
      var a := LastStates(r, |r.ins|);
      EncodeCaught(m, p, step, maxK, s, k, r);
      AllHoldOne(prob, a);
      assert Satisfies(fs, groups, {}, a);
    }
  }

  lemma DecodeCaught(m: Fsm, p: Expr<Var>, step: nat, maxK: int, s: nat, a: Assignment)
    requires step > 0 && IsBatch(s, step) && s <= maxK
    requires FalsePath(m, p, a, s, Queried(s, step, maxK)) && BadIn(m, p, a, s, Limit(s, step, maxK))
    ensures CaughtIn(m, p, step, maxK, s)
  {
    AssertedCovers(s, step, maxK);
    var n := Queried(s, step, maxK);
    DecodeIsRun(m, a, n);
    var k :| s <= k < Limit(s, step, maxK) && !PropAt(m, p, a, k);
    assert CaughtAt(m, p, step, maxK, s, k, Decode(m, a, n));
  }

  lemma EncodeCaught(m: Fsm, p: Expr<Var>, step: nat, maxK: int, s: nat, k: nat, r: Run)
    requires WellFormed(m, p) && step > 0 && CaughtAt(m, p, step, maxK, s, k, r)
    requires forall e: nat :: e < s ==> !CaughtIn(m, p, step, maxK, e)
    ensures var a := LastStates(r, |r.ins|);
            FalsePath(m, p, a, s, Queried(s, step, maxK)) && BadIn(m, p, a, s, Limit(s, step, maxK))
  {
    var a, n := LastStates(r, |r.ins|), |r.ins|;
    AssertedCovers(s, step, maxK);
    forall t | 0 <= t <= n ensures StateAt(m, a, t) == r.ss[t] && FrozenAt(a) == r.f && (t < n ==> InputsAt(a, t) == r.ins[t]) {
      LastStatesAt(m, r, n, t);
    }
    forall t | 0 <= t < s ensures PropAt(m, p, a, t) {
      if !PropAt(m, p, a, t) {
        var e := CaughtEarlier(m, p, step, maxK, s, r, t);
      }
    }
    forall t | 0 <= t < n ensures MovesAt(m, a, t) {
      assert Moves(m, r.ss[t], r.f, r.ins[t], r.ss[t + 1]);
    }
    assert !PropAt(m, p, a, k);
  }

  // ----- When what is caught is everything

  /** What is caught is really reachable, within the bound. */
  lemma CaughtIsViolation(m: Fsm, p: Expr<Var>, step: nat, maxK: int)
    requires step > 0 && Caught(m, p, step, maxK)
    ensures ViolatedWithin(m, p, maxK)
  {
    var s :| CaughtIn(m, p, step, maxK, s);
    var k, r :| CaughtAt(m, p, step, maxK, s, k, r);
    assert Violation(m, p, Prefix(r, k));
  }

  /** Every run from an initial state can go on. */
  ghost predicate NeverStuck(m: Fsm) {
    forall r :: FromInit(m, r) ==> CanGoOn(m, r)
  }

  ghost predicate CanGoOn(m: Fsm, r: Run)
    requires FromInit(m, r)
  {
    exists i, n :: StateOk(m, n) && Moves(m, r.ss[|r.ins|], r.f, i, n)
  }

  lemma {:induction false} Prolong(m: Fsm, r: Run, n: nat) returns (q: Run)
    requires NeverStuck(m) && FromInit(m, r) && |r.ins| <= n
    ensures FromInit(m, q) && |q.ins| == n && q.f == r.f && r.ss <= q.ss
    decreases n - |r.ins|
  {
    if |r.ins| == n {
      q := r;
    } else {
      assert CanGoOn(m, r);
      var i, s :| StateOk(m, s) && Moves(m, r.ss[|r.ins|], r.f, i, s);
      var next := Run(r.f, r.ss + [s], r.ins + [i]);
      assert FromInit(m, next);
      q := Prolong(m, next, n);
    }
  }

  lemma {:induction false} SomeBatch(k: nat, step: nat, s: nat) returns (e: nat)
    requires step > 0 && IsBatch(s, step) && s <= k
    ensures IsBatch(e, step) && e <= k < e + step
    decreases k - s
  {
    if k < s + step {
      e := s;
    } else {
      e := SomeBatch(k, step, s + step);
    }
  }

  /** If no run gets stuck, every violation within the bound is caught. */
  lemma NothingMissed(m: Fsm, p: Expr<Var>, step: nat, maxK: int)
    requires step > 0 && NeverStuck(m)
    ensures Caught(m, p, step, maxK) <==> ViolatedWithin(m, p, maxK)
  {
    if ViolatedWithin(m, p, maxK) {
      var r :| Violation(m, p, r) && |r.ins| <= maxK;
      var k := |r.ins|;
      var s := SomeBatch(k, step, 0);
      AssertedCovers(s, step, maxK);
      var q := Prolong(m, r, Queried(s, step, maxK));
      assert CaughtAt(m, p, step, maxK, s, k, q);
      assert CaughtIn(m, p, step, maxK, s);
    }
    if Caught(m, p, step, maxK) {
      CaughtIsViolation(m, p, step, maxK);
    }
  }

  lemma {:induction false} StepOneQueries(s: nat, maxK: int)
    requires s <= maxK
    ensures Queried(s, 1, maxK) == s && Asserted(s, 1, maxK) == s && IsBatch(s, 1)
    decreases s
  {
    if s > 0 {
      StepOneQueries(s - 1, maxK);
    }
  }

  /** With batches of one length, every violation within the bound is caught, stuck runs or not. */
  lemma StepOneMissesNothing(m: Fsm, p: Expr<Var>, maxK: int)
    ensures Caught(m, p, 1, maxK) <==> ViolatedWithin(m, p, maxK)
  {
    if ViolatedWithin(m, p, maxK) {
      var r :| Violation(m, p, r) && |r.ins| <= maxK;
      StepOneQueries(|r.ins|, maxK);
      assert CaughtAt(m, p, 1, maxK, |r.ins|, |r.ins|, r);
      assert CaughtIn(m, p, 1, maxK, |r.ins|);
    }
    if Caught(m, p, 1, maxK) {
      CaughtIsViolation(m, p, 1, maxK);
    }
  }

  /** A machine that is stuck in a bad initial state: with batches of two lengths nothing is caught. */
  lemma StuckIsMissed()
    ensures var m, p := Fsm([], [], True, True, False), Expr<Var>.False;
            WellFormed(m, p) && ViolatedWithin(m, p, 1) && !Caught(m, p, 2, 1)
  {
    var m, p := Fsm([], [], True, True, False), Expr<Var>.False;
    var r := Run({}, [{}], []);
    assert Violation(m, p, r);
    assert forall s, f, i, n :: !Moves(m, s, f, i, n);
    assert Queried(0, 2, 1) == 1;
    forall s: nat, k: nat, q ensures !CaughtAt(m, p, 2, 1, s, k, q) {
      assert IsRun(m, q) ==> |q.ins| == 0 || Moves(m, q.ss[0], q.f, q.ins[0], q.ss[1]);
    }
  }
}

module BmcFalsification {
  import opened BoolExpr
  import opened BmcModel
  import opened BmcEncoding
  import opened BmcSolver
  import opened BmcZigZag
  import opened FalsificationPaths

  /** The lengths of a batch at which the invariant may be violated: their disjunction. */
  method BadStates(m: Fsm, p: Expr<Var>, s: nat, limit: int) returns (prob: Formula)
    requires WellFormed(m, p) && s <= limit
    ensures forall a :: Holds(prob, a) <==> BadIn(m, p, a, s, limit)
  {
    hide *;
    prob := False;
    NoneBad(m, p, s);
    var k: int := s;
    while k < limit
      invariant s <= k <= limit
      invariant forall a :: Holds(prob, a) <==> BadIn(m, p, a, s, k)
    {
      forall a ensures Holds(Or(prob, Not(ToTimed(p, k))), a) <==> BadIn(m, p, a, s, k + 1) {
        BadMore(m, p, a, prob, s, k);
      }
      prob := Or(prob, Not(ToTimed(p, k)));
      k := k + 1;
    }
  }

  lemma NoneBad(m: Fsm, p: Expr<Var>, s: nat)
    ensures forall a :: Holds(False, a) <==> BadIn(m, p, a, s, s)
  {
  }

  /** Assert that the invariant holds at the lengths of a batch. */
  method AssertGood(solver: SatIncSolver, m: Fsm, p: Expr<Var>, s: nat, limit: int, ghost h: int)
    requires solver.Valid() && WellFormed(m, p) && s <= limit && MeansFalse(m, p, solver.permanent, s, h)
    modifies solver
    ensures solver.Valid() && solver.groups == old(solver.groups) && MeansFalse(m, p, solver.permanent, limit, h)
  {
    hide *;
    var k: int := s;
    while k < limit
      invariant s <= k <= limit && solver.Valid() && solver.groups == old(solver.groups)
      invariant MeansFalse(m, p, solver.permanent, k, h)
    {
      FalseProp(m, p, solver.permanent, k, h);
      solver.SetPolarityPermanently(ToTimed(p, k), true);
      k := k + 1;
    }
  }

  /** One batch of lengths. */
  method SolveBatch(solver: SatIncSolver, m: Fsm, p: Expr<Var>, s: nat, step: nat, maxK: int) returns (found: bool)
    requires solver.Valid() && WellFormed(m, p) && step > 0 && IsBatch(s, step) && s <= maxK
    requires solver.groups == map[] && MeansFalse(m, p, solver.permanent, s, Asserted(s, step, maxK))
    requires forall e: nat :: e < s ==> !CaughtIn(m, p, step, maxK, e)
    modifies solver
    ensures solver.Valid()
    ensures found <==> CaughtIn(m, p, step, maxK, s)
    ensures !found ==> solver.groups == map[]
    ensures !found && s + step <= maxK ==> MeansFalse(m, p, solver.permanent, s + step, Asserted(s + step, step, maxK))
  {
    hide *;
    AssertedCovers(s, step, maxK);
    BatchNumbers(s, step, maxK);
    var limit := if s + step <= maxK then s + step else maxK + 1;
    var additionalGroup := solver.CreateGroup();
    var probK := BadStates(m, p, s, limit);
    if limit - s > 1 {
      FalseUnroll(m, p, solver.permanent, s, Asserted(s, step, maxK), s, s + limit - 1);
      solver.SetPolarityPermanently(GetUnrolling(m, s, s + limit - 1), true);
    }
    solver.SetPolarity(probK, true, additionalGroup);
    assert [] + [probK] == [probK];
    assert solver.groups == map[additionalGroup := [probK]];
    ghost var q := Queried(s, step, maxK);
    BatchAnswer(m, p, step, maxK, s, solver.permanent, probK, additionalGroup);
    found := solver.SolveAllGroups();
    if !found {
      solver.DestroyGroup(additionalGroup);
      AssertGood(solver, m, p, s, limit, q);
      FalseUnroll(m, p, solver.permanent, limit, q, limit - 1, limit);
      solver.SetPolarityPermanently(GetUnrolling(m, limit - 1, limit), true);
    }
  }

  lemma BatchNumbers(s: nat, step: nat, maxK: int)
    requires step > 0 && IsBatch(s, step) && s <= maxK
    ensures Limit(s, step, maxK) == if s + step <= maxK then s + step else maxK + 1
    ensures var limit := Limit(s, step, maxK);
            && Queried(s, step, maxK) == (if limit - s > 1 then Max(Asserted(s, step, maxK), s + limit - 1) else Asserted(s, step, maxK))
            && Asserted(s + step, step, maxK) == Max(Queried(s, step, maxK), limit)
            && IsBatch(s + step, step)
  {
  }

  /** Falsification.  "False" exactly if a violation is caught; if no run gets stuck, or if the batches
      have one length, this means exactly that the invariant is violated within the bound. */
  method GenSolveInvarFalsification(m: Fsm, p: Expr<Var>, maxK: int, stepK: nat, status: PropStatus) returns (status': PropStatus)
    requires WellFormed(m, p) && stepK > 0
    ensures status != Unchecked ==> status' == status
    ensures status == Unchecked ==>
              && status' != PropTrue
              && (status' == PropFalse <==> Caught(m, p, stepK, maxK))
              && (status' == PropFalse ==> ViolatedWithin(m, p, maxK))
              && (NeverStuck(m) || stepK == 1 ==> (status' == PropFalse <==> ViolatedWithin(m, p, maxK)))
  {
    hide *;
    status' := status;
    if status != Unchecked {
      return;
    }
    var solver := new SatIncSolver();
    solver.SetPolarityPermanently(GetInit0(m), true);
    FalseStart(m, p);
    FirstBatch(stepK, maxK);
    var stepN := 0;
    while stepN <= maxK
      invariant 0 <= stepN && IsBatch(stepN, stepK) && solver.Valid() && fresh(solver) && solver.groups == map[]
      invariant stepN <= maxK ==> MeansFalse(m, p, solver.permanent, stepN, Asserted(stepN, stepK, maxK))
      invariant forall e: nat :: e < stepN ==> !CaughtIn(m, p, stepK, maxK, e)
      decreases maxK - stepN
    {
      var found := SolveBatch(solver, m, p, stepN, stepK, maxK);
      if found {
        CaughtSomewhere(m, p, stepK, maxK, stepN);
        status' := PropFalse;
        break;
      }
      BatchNumbers(stepN, stepK, maxK);
      NotBetween(m, p, stepK, maxK, stepN);
      stepN := stepN + stepK;
    }
    if status' == Unchecked {
      CaughtNowhere(m, p, stepK, maxK, stepN);
    }
    if Caught(m, p, stepK, maxK) {
      CaughtIsViolation(m, p, stepK, maxK);
    }
    if NeverStuck(m) {
      NothingMissed(m, p, stepK, maxK);
    }
    if stepK == 1 {
      StepOneMissesNothing(m, p, maxK);
    }
  }

  lemma FirstBatch(step: nat, maxK: int)
    requires step > 0
    ensures IsBatch(0, step) && Asserted(0, step, maxK) == 0
  {
  }

  lemma CaughtSomewhere(m: Fsm, p: Expr<Var>, step: nat, maxK: int, s: nat)
    requires step > 0 && CaughtIn(m, p, step, maxK, s)
    ensures Caught(m, p, step, maxK)
  {
  }

  lemma CaughtNowhere(m: Fsm, p: Expr<Var>, step: nat, maxK: int, s: nat)
    requires step > 0 && s > maxK && forall e: nat :: e < s ==> !CaughtIn(m, p, step, maxK, e)
    ensures !Caught(m, p, step, maxK)
  {
    forall e: nat ensures !CaughtIn(m, p, step, maxK, e) {
    }
  }

  /** No batch starts inside another one. */
  lemma NotBetween(m: Fsm, p: Expr<Var>, step: nat, maxK: int, s: nat)
    requires step > 0 && IsBatch(s, step)
    ensures forall e: nat :: s < e < s + step ==> !CaughtIn(m, p, step, maxK, e)
  {
    forall e: nat | s < e < s + step ensures !IsBatch(e, step) {
      BatchesApart(s, e, step);
    }
  }

  lemma {:induction false} BatchesApart(s: nat, e: nat, step: nat)
    requires step > 0 && IsBatch(s, step) && s < e < s + step
    ensures !IsBatch(e, step)
    decreases s
  {
    if s > 0 {
      BatchesApart(s - step, e - step, step);
    }
  }
}
