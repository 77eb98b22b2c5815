/** The boolean machine that bounded model checking unrolls, its runs, and its timed formulas. */
module BmcModel {
  import opened BoolExpr

  type Id = nat

  /** Untimed variables: current and next state bits, frozen bits and inputs. */
  datatype Var = Curr(v: Id) | Next(v: Id) | Frozen(v: Id) | Input(v: Id)

  /** Variables at a time; the frozen ones have none. */
  datatype TimedVar = At(v: Id, t: nat) | Always(v: Id) | InputAt(v: Id, t: nat)

  type Formula = Expr<TimedVar>
  type Assignment = set<TimedVar>

  /** The bits of a state that are true. */
  type State = set<Id>

  datatype Fsm = Fsm(vars: seq<Id>, inputs: seq<Id>, init: Expr<Var>, invar: Expr<Var>, trans: Expr<Var>)

  /** A formula over state and frozen variables. */
  ghost predicate OnState(m: Fsm, e: Expr<Var>) {
    forall x :: x in Support(e) ==> x.Frozen? || (x.Curr? && x.v in m.vars)
  }

  ghost predicate OnTrans(m: Fsm, e: Expr<Var>) {
    forall x :: x in Support(e) ==> x.Frozen? || (x.Input? && x.v in m.inputs) || ((x.Curr? || x.Next?) && x.v in m.vars)
  }

  ghost predicate WellFormed(m: Fsm, p: Expr<Var>) {
    OnState(m, m.init) && OnState(m, m.invar) && OnState(m, p) && OnTrans(m, m.trans)
  }

  // ----- Timed formulas

  /** The variables of a formula at given times. */
  function ToTimes(e: Expr<Var>, curr: nat, input: nat, next: nat): Formula {
    match e
    case True => True
    case False => False
    case Atom(Curr(v)) => Atom(At(v, curr))
    case Atom(Next(v)) => Atom(At(v, next))
    case Atom(Frozen(v)) => Atom(Always(v))
    case Atom(Input(v)) => Atom(InputAt(v, input))
    case Not(f) => Not(ToTimes(f, curr, input, next))
    case And(l, r) => And(ToTimes(l, curr, input, next), ToTimes(r, curr, input, next))
    case Or(l, r) => Or(ToTimes(l, curr, input, next), ToTimes(r, curr, input, next))
    case Xor(l, r) => Xor(ToTimes(l, curr, input, next), ToTimes(r, curr, input, next))
  }

  function ToTimed(e: Expr<Var>, t: nat): Formula {
    ToTimes(e, t, t, t + 1)
  }

  /** The conjunction over the times from `start` to `end`; it is true if there are none. */
  function AndInterval(e: Expr<Var>, start: nat, end: int): Formula
    requires start <= end + 1
    decreases end + 1
  {
    if start > end then True else And(AndInterval(e, start, end - 1), ToTimed(e, end))
  }

  function ShiftCurrToNext(e: Expr<Var>): Expr<Var> {
    match e
    case True => True
    case False => False
    case Atom(Curr(v)) => Atom(Next(v))
    case Atom(x) => Atom(x)
    case Not(f) => Not(ShiftCurrToNext(f))
    case And(l, r) => And(ShiftCurrToNext(l), ShiftCurrToNext(r))
    case Or(l, r) => Or(ShiftCurrToNext(l), ShiftCurrToNext(r))
    case Xor(l, r) => Xor(ShiftCurrToNext(l), ShiftCurrToNext(r))
  }

  function GetInit0(m: Fsm): Formula {
    ToTimed(And(m.init, m.invar), 0)
  }

  function GetUnrolling(m: Fsm, j: nat, k: nat): Formula
    requires j <= k
  {
    AndInterval(And(And(m.trans, m.invar), ShiftCurrToNext(m.invar)), j, k - 1)
  }

  /** One transition, at the times of the forward closure of Dual. */
  function DualForwardUnrolling(m: Fsm, p: Expr<Var>, i: nat): Formula {
    if i == 0 then ToTimed(m.invar, 0)
    else And(And(ToTimed(m.trans, i - 1), ToTimed(m.invar, i)), ToTimed(p, i - 1))
  }

  // ----- Runs

  ghost function Env(s: State, f: State, i: State, n: State): set<Var> {
    (set v | v in s :: Curr(v)) + (set v | v in f :: Frozen(v)) + (set v | v in i :: Input(v)) + (set v | v in n :: Next(v))
  }

  ghost predicate InState(e: Expr<Var>, s: State, f: State) {
    Holds(e, Env(s, f, {}, {}))
  }

  ghost predicate Moves(m: Fsm, s: State, f: State, i: State, n: State) {
    Holds(m.trans, Env(s, f, i, n)) && InState(m.invar, s, f) && InState(m.invar, n, f)
  }

  /** Frozen bits, the states, and the inputs between them. */
  datatype Run = Run(f: State, ss: seq<State>, ins: seq<State>)

  ghost predicate StateOk(m: Fsm, s: State) {
    forall v :: v in s ==> v in m.vars
  }

  ghost predicate IsRun(m: Fsm, r: Run) {
    && |r.ss| == |r.ins| + 1
    && (forall t :: 0 <= t < |r.ss| ==> StateOk(m, r.ss[t]))
    && (forall t :: 0 <= t < |r.ins| ==> Moves(m, r.ss[t], r.f, r.ins[t], r.ss[t + 1]))
  }

  ghost predicate FromInit(m: Fsm, r: Run) {
    IsRun(m, r) && InState(m.init, r.ss[0], r.f) && InState(m.invar, r.ss[0], r.f)
  }

  /** A run from an initial state to a state that violates the invariant. */
  ghost predicate Violation(m: Fsm, p: Expr<Var>, r: Run) {
    FromInit(m, r) && !InState(p, r.ss[|r.ins|], r.f)
  }

  /** Some reachable state violates the invariant. */
  ghost predicate Violated(m: Fsm, p: Expr<Var>) {
    exists r :: Violation(m, p, r)
  }

  /** It does so within k steps. */
  ghost predicate ViolatedWithin(m: Fsm, p: Expr<Var>, k: int) {
    exists r :: Violation(m, p, r) && |r.ins| <= k
  }

  ghost predicate Shortest(m: Fsm, p: Expr<Var>, r: Run) {
    Violation(m, p, r) && forall q :: Violation(m, p, q) ==> |r.ins| <= |q.ins|
  }

  /** A run through states that satisfy the invariant to one that does not; it may start anywhere. */
  ghost predicate EndsBadly(m: Fsm, p: Expr<Var>, r: Run) {
    && IsRun(m, r)
    && (forall t :: 0 <= t < |r.ins| ==> InState(p, r.ss[t], r.f))
    && !InState(p, r.ss[|r.ins|], r.f)
  }

  ghost predicate NoRepetition(r: Run) {
    forall i, j :: 0 <= i < j < |r.ss| ==> r.ss[i] != r.ss[j]
  }

  // ----- Shortest violations

  lemma {:induction false} ShortestExists(m: Fsm, p: Expr<Var>, r: Run) returns (s: Run)
    requires Violation(m, p, r)
    ensures Shortest(m, p, s) && |s.ins| <= |r.ins|
    decreases |r.ins|
  {
    if q :| Violation(m, p, q) && |q.ins| < |r.ins| {
      s := ShortestExists(m, p, q);
    } else {
      s := r;
    }
  }

  ghost function Prefix(r: Run, k: nat): Run
    requires k < |r.ss| && |r.ss| == |r.ins| + 1
  {
    Run(r.f, r.ss[..k + 1], r.ins[..k])
  }

  /** The run without the part between two equal states. */
  ghost function Cut(r: Run, i: nat, j: nat): Run
    requires i < j < |r.ss| && |r.ss| == |r.ins| + 1
  {
    Run(r.f, r.ss[..i] + r.ss[j..], r.ins[..i] + r.ins[j..])
  }

  lemma CutIsRun(m: Fsm, r: Run, i: nat, j: nat)
    requires IsRun(m, r) && i < j < |r.ss| && r.ss[i] == r.ss[j]
    ensures var q := Cut(r, i, j);
            IsRun(m, q) && |q.ins| < |r.ins| && q.ss[|q.ins|] == r.ss[|r.ins|] && q.ss[0] == r.ss[0]
  {
    var q := Cut(r, i, j);
    forall t | 0 <= t < |q.ins| ensures Moves(m, q.ss[t], q.f, q.ins[t], q.ss[t + 1]) {
      var u := if t < i then t else t - i + j;
      assert Moves(m, r.ss[u], r.f, r.ins[u], r.ss[u + 1]);
    }
  }

  /** On a shortest violation the invariant holds up to the last state, and no state is repeated. */
  lemma ShortestFacts(m: Fsm, p: Expr<Var>, r: Run)
    requires Shortest(m, p, r)
    ensures forall t :: 0 <= t < |r.ins| ==> InState(p, r.ss[t], r.f)
    ensures forall i, j :: 0 <= i < j < |r.ss| ==> r.ss[i] != r.ss[j]
  {
    forall t | 0 <= t < |r.ins| ensures InState(p, r.ss[t], r.f) {
      if !InState(p, r.ss[t], r.f) {
        assert Violation(m, p, Prefix(r, t));
      }
    }
    forall i, j | 0 <= i < j < |r.ss| ensures r.ss[i] != r.ss[j] {
      if r.ss[i] == r.ss[j] {
        CutIsRun(m, r, i, j);
        assert Violation(m, p, Cut(r, i, j));
      }
    }
  }
}

/** Assignments to timed variables and runs. */
module BmcEncoding {
  import opened BoolExpr
  import opened Sets
  import opened BmcModel

  ghost function View(a: Assignment, curr: nat, input: nat, next: nat): set<Var> {
    (set x | x in a && x.At? && x.t == curr :: Curr(x.v)) + (set x | x in a && x.At? && x.t == next :: Next(x.v)) +
    (set x | x in a && x.Always? :: Frozen(x.v)) + (set x | x in a && x.InputAt? && x.t == input :: Input(x.v))
  }

  lemma ViewVar(a: Assignment, curr: nat, input: nat, next: nat, v: Id)
    ensures var w := View(a, curr, input, next);
            && (Curr(v) in w <==> At(v, curr) in a) && (Next(v) in w <==> At(v, next) in a)
            && (Frozen(v) in w <==> Always(v) in a) && (Input(v) in w <==> InputAt(v, input) in a)
  {
    var w := View(a, curr, input, next);
    if At(v, curr) in a { assert Curr(v) in w; }
    if At(v, next) in a { assert Next(v) in w; }
    if Always(v) in a { assert Frozen(v) in w; }
    if InputAt(v, input) in a { assert Input(v) in w; }
  }

  /** Timing a formula is a substitution. */
  lemma {:induction false} ToTimesHolds(e: Expr<Var>, a: Assignment, curr: nat, input: nat, next: nat)
    ensures Holds(ToTimes(e, curr, input, next), a) <==> Holds(e, View(a, curr, input, next))
  {
    match e
    case True =>
    case False =>
    case Atom(x) => ViewVar(a, curr, input, next, x.v);
    case Not(f) => ToTimesHolds(f, a, curr, input, next);
    case And(l, r) => ToTimesHolds(l, a, curr, input, next); ToTimesHolds(r, a, curr, input, next);
    case Or(l, r) => ToTimesHolds(l, a, curr, input, next); ToTimesHolds(r, a, curr, input, next);
    case Xor(l, r) => ToTimesHolds(l, a, curr, input, next); ToTimesHolds(r, a, curr, input, next);
  }

  ghost function ShiftView(w: set<Var>): set<Var> {
    (set x | x in w && x.Next? :: Curr(x.v)) + (set x | x in w && !x.Curr?)
  }

  lemma {:induction false} ShiftHolds(e: Expr<Var>, w: set<Var>)
    ensures Holds(ShiftCurrToNext(e), w) <==> Holds(e, ShiftView(w))
  {
    match e
    case True =>
    case False =>
    case Atom(x) =>
      if x.Curr? {
        assert Next(x.v) in w <==> Curr(x.v) in ShiftView(w) by {
          if Next(x.v) in w { assert Next(x.v).Next?; }
        }
      }
    case Not(f) => ShiftHolds(f, w);
    case And(l, r) => ShiftHolds(l, w); ShiftHolds(r, w);
    case Or(l, r) => ShiftHolds(l, w); ShiftHolds(r, w);
    case Xor(l, r) => ShiftHolds(l, w); ShiftHolds(r, w);
  }

  // ----- What an assignment says at a time

  ghost function StateAt(m: Fsm, a: Assignment, t: nat): State {
    set v | v in m.vars && At(v, t) in a
  }

  ghost function FrozenAt(a: Assignment): State {
    set x | x in a && x.Always? :: x.v
  }

  ghost function InputsAt(a: Assignment, t: nat): State {
    set x | x in a && x.InputAt? && x.t == t :: x.v
  }

  ghost predicate PropAt(m: Fsm, e: Expr<Var>, a: Assignment, t: nat) {
    InState(e, StateAt(m, a, t), FrozenAt(a))
  }

  ghost predicate MovesAt(m: Fsm, a: Assignment, t: nat) {
    Moves(m, StateAt(m, a, t), FrozenAt(a), InputsAt(a, t), StateAt(m, a, t + 1))
  }

  lemma EnvVar(s: State, f: State, i: State, n: State, v: Id)
    ensures var w := Env(s, f, i, n);
            && (Curr(v) in w <==> v in s) && (Next(v) in w <==> v in n)
            && (Frozen(v) in w <==> v in f) && (Input(v) in w <==> v in i)
  {
  }

  lemma FrozenVar(a: Assignment, v: Id)
    ensures v in FrozenAt(a) <==> Always(v) in a
  {
    if Always(v) in a { assert Always(v).v in FrozenAt(a); }
  }

  lemma InputVar(a: Assignment, t: nat, v: Id)
    ensures v in InputsAt(a, t) <==> InputAt(v, t) in a
  {
    if InputAt(v, t) in a { assert InputAt(v, t).v in InputsAt(a, t); }
  }

  lemma TransView(m: Fsm, e: Expr<Var>, a: Assignment, curr: nat, input: nat, next: nat)
    requires OnTrans(m, e)
    ensures Holds(ToTimes(e, curr, input, next), a) <==>
            Holds(e, Env(StateAt(m, a, curr), FrozenAt(a), InputsAt(a, input), StateAt(m, a, next)))
  {
    ToTimesHolds(e, a, curr, input, next);
    var w, env := View(a, curr, input, next), Env(StateAt(m, a, curr), FrozenAt(a), InputsAt(a, input), StateAt(m, a, next));
    forall x | x in Support(e) ensures x in w <==> x in env {
      ViewVar(a, curr, input, next, x.v);
      EnvVar(StateAt(m, a, curr), FrozenAt(a), InputsAt(a, input), StateAt(m, a, next), x.v);
      FrozenVar(a, x.v);
      InputVar(a, input, x.v);
    }
    HoldsOnSupport(e, w, env);
  }

  lemma StateView(m: Fsm, e: Expr<Var>, a: Assignment, curr: nat, input: nat, next: nat)
    requires OnState(m, e)
    ensures Holds(ToTimes(e, curr, input, next), a) <==> PropAt(m, e, a, curr)
  {
    ToTimesHolds(e, a, curr, input, next);
    var w, env := View(a, curr, input, next), Env(StateAt(m, a, curr), FrozenAt(a), {}, {});
    forall x | x in Support(e) ensures x in w <==> x in env {
      ViewVar(a, curr, input, next, x.v);
      EnvVar(StateAt(m, a, curr), FrozenAt(a), {}, {}, x.v);
      FrozenVar(a, x.v);
    }
    HoldsOnSupport(e, w, env);
  }

  lemma NextView(m: Fsm, e: Expr<Var>, a: Assignment, t: nat)
    requires OnState(m, e)
    ensures Holds(ToTimed(ShiftCurrToNext(e), t), a) <==> PropAt(m, e, a, t + 1)
  {
    var w := View(a, t, t, t + 1);
    ToTimesHolds(ShiftCurrToNext(e), a, t, t, t + 1);
    ShiftHolds(e, w);
    var env := Env(StateAt(m, a, t + 1), FrozenAt(a), {}, {});
    forall x | x in Support(e) ensures x in ShiftView(w) <==> x in env {
      ViewVar(a, t, t, t + 1, x.v);
      EnvVar(StateAt(m, a, t + 1), FrozenAt(a), {}, {}, x.v);
      FrozenVar(a, x.v);
      if Next(x.v) in w { assert Next(x.v).Next?; }
    }
    HoldsOnSupport(e, ShiftView(w), env);
  }

  // ----- What the formulas of the engines mean

  lemma PropHolds(m: Fsm, e: Expr<Var>, a: Assignment, t: nat)
    requires OnState(m, e)
    ensures Holds(ToTimed(e, t), a) <==> PropAt(m, e, a, t)
  {
    StateView(m, e, a, t, t, t + 1);
  }

  lemma Init0Holds(m: Fsm, p: Expr<Var>, a: Assignment)
    requires WellFormed(m, p)
    ensures Holds(GetInit0(m), a) <==> PropAt(m, m.init, a, 0) && PropAt(m, m.invar, a, 0)
  {
    assert GetInit0(m) == And(ToTimed(m.init, 0), ToTimed(m.invar, 0));
    PropHolds(m, m.init, a, 0);
    PropHolds(m, m.invar, a, 0);
  }

  lemma StepHolds(m: Fsm, p: Expr<Var>, a: Assignment, t: nat)
    requires WellFormed(m, p)
    ensures Holds(ToTimed(And(And(m.trans, m.invar), ShiftCurrToNext(m.invar)), t), a) <==> MovesAt(m, a, t)
  {
    var here, there := And(m.trans, m.invar), ShiftCurrToNext(m.invar);
    assert ToTimed(here, t) == And(ToTimed(m.trans, t), ToTimed(m.invar, t));
    assert ToTimed(And(here, there), t) == And(ToTimed(here, t), ToTimed(there, t));
    TransView(m, m.trans, a, t, t, t + 1);
    PropHolds(m, m.invar, a, t);
    NextView(m, m.invar, a, t);
  }

  /** The unrolling from j to k holds when the machine moves at each time in between. */
  lemma {:induction false} UnrollingHolds(m: Fsm, p: Expr<Var>, a: Assignment, j: nat, k: nat)
    requires WellFormed(m, p) && j <= k
    ensures Holds(GetUnrolling(m, j, k), a) <==> forall t :: j <= t < k ==> MovesAt(m, a, t)
    decreases k
  {
    if j < k {
      UnrollingHolds(m, p, a, j, k - 1);
      StepHolds(m, p, a, k - 1);
    }
  }

  // ----- Runs as assignments

  /** The assignment that takes its states and its inputs from two sequences. */
  ghost function Encode(f: State, ss: seq<State>, ins: seq<State>): Assignment {
    (set v | v in f :: Always(v)) +
    (set t, v | 0 <= t < |ss| && v in ss[t] :: At(v, t)) +
    (set t, v | 0 <= t < |ins| && v in ins[t] :: InputAt(v, t))
  }

  lemma EncodeAt(m: Fsm, f: State, ss: seq<State>, ins: seq<State>, t: nat)
    ensures FrozenAt(Encode(f, ss, ins)) == f
    ensures t < |ss| && StateOk(m, ss[t]) ==> StateAt(m, Encode(f, ss, ins), t) == ss[t]
    ensures t < |ins| ==> InputsAt(Encode(f, ss, ins), t) == ins[t]
  {
    var a := Encode(f, ss, ins);
    forall v ensures v in FrozenAt(a) <==> v in f {
      FrozenVar(a, v);
    }
    if t < |ins| {
      forall v ensures v in InputsAt(a, t) <==> v in ins[t] {
        InputVar(a, t, v);
      }
    }
  }

  ghost function Decode(m: Fsm, a: Assignment, n: nat): Run {
    Run(FrozenAt(a), seq(n + 1, t requires 0 <= t => StateAt(m, a, t)), seq(n, t requires 0 <= t => InputsAt(a, t)))
  }

  lemma DecodeIsRun(m: Fsm, a: Assignment, n: nat)
    requires forall t :: 0 <= t < n ==> MovesAt(m, a, t)
    ensures IsRun(m, Decode(m, a, n)) && |Decode(m, a, n).ins| == n
    ensures forall t :: 0 <= t <= n ==> Decode(m, a, n).ss[t] == StateAt(m, a, t)
    ensures Decode(m, a, n).f == FrozenAt(a)
  {
    var r := Decode(m, a, n);
    forall t | 0 <= t < n ensures Moves(m, r.ss[t], r.f, r.ins[t], r.ss[t + 1]) {
      assert MovesAt(m, a, t);
    }
  }

  /** The assignment of a run. */
  lemma RunEncoded(m: Fsm, r: Run)
    requires IsRun(m, r)
    ensures var a := Encode(r.f, r.ss, r.ins);
            && FrozenAt(a) == r.f
            && (forall t :: 0 <= t <= |r.ins| ==> StateAt(m, a, t) == r.ss[t])
            && (forall t :: 0 <= t < |r.ins| ==> MovesAt(m, a, t))
  {
    var a := Encode(r.f, r.ss, r.ins);
    EncodeAt(m, r.f, r.ss, r.ins, 0);
    hide Encode, StateAt, FrozenAt, InputsAt;
    forall t | 0 <= t <= |r.ins| ensures StateAt(m, a, t) == r.ss[t] && (t < |r.ins| ==> InputsAt(a, t) == r.ins[t]) {
      EncodeAt(m, r.f, r.ss, r.ins, t);
    }
    forall t | 0 <= t < |r.ins| ensures MovesAt(m, a, t) {
      assert Moves(m, r.ss[t], r.f, r.ins[t], r.ss[t + 1]);
    }
  }

  /** An assignment that starts in an initial state, moves n times and then violates the invariant is a violation. */
  lemma DecodeViolation(m: Fsm, p: Expr<Var>, a: Assignment, n: nat)
    requires PropAt(m, m.init, a, 0) && PropAt(m, m.invar, a, 0)
    requires forall t :: 0 <= t < n ==> MovesAt(m, a, t)
    requires !PropAt(m, p, a, n)
    ensures Violation(m, p, Decode(m, a, n)) && |Decode(m, a, n).ins| == n
  {
    DecodeIsRun(m, a, n);
  }

  // ----- Different states

  ghost predicate Differ(m: Fsm, a: Assignment, i: nat, j: nat) {
    StateAt(m, a, i) != StateAt(m, a, j)
  }

  ghost function Bits(vars: seq<Id>): set<Id> {
    set v | v in vars
  }

  /** The state at time j differs from the states from time i on. */
  ghost predicate DifferFrom(m: Fsm, a: Assignment, i: nat, j: nat) {
    forall l :: i <= l < j ==> Differ(m, a, l, j)
  }

  /** Different states can only be as many as there are sets of state bits. */
  lemma StatesBound(m: Fsm, states: set<State>)
    requires forall s :: s in states ==> StateOk(m, s)
    ensures |states| <= Pow2(|m.vars|)
  {
    var bits := Bits(m.vars);
    forall s | s in states ensures s in Powerset(bits) {
      assert StateOk(m, s);
    }
    SubsetSize(states, Powerset(bits));
    PowersetSize(bits);
    BitsSize(m.vars);
    Pow2Monotone(|bits|, |m.vars|);
  }

  lemma {:induction false} BitsSize(vars: seq<Id>)
    ensures |Bits(vars)| <= |vars|
  {
    if vars == [] {
      assert Bits(vars) == {};
    } else {
      BitsSize(vars[1..]);
      assert Bits(vars) == Bits(vars[1..]) + {vars[0]};
    }
  }

  lemma {:induction false} Pow2Monotone(i: nat, j: nat)
    requires i <= j
    ensures Pow2(i) <= Pow2(j)
    decreases j - i
  {
    if i < j {
      Pow2Monotone(i + 1, j);
    }
  }

  /** A sequence of pairwise different states is no longer than their number. */
  lemma {:induction false} DistinctStates(ss: seq<State>) returns (states: set<State>)
    requires forall i, j :: 0 <= i < j < |ss| ==> ss[i] != ss[j]
    ensures |states| == |ss| && forall s :: s in states <==> s in ss
  {
    if ss == [] {
      states := {};
    } else {
      states := DistinctStates(ss[1..]);
      assert ss[0] !in ss[1..];
      states := states + {ss[0]};
    }
  }

  lemma Pigeonhole(m: Fsm, ss: seq<State>)
    requires forall i, j :: 0 <= i < j < |ss| ==> ss[i] != ss[j]
    requires forall i :: 0 <= i < |ss| ==> StateOk(m, ss[i])
    ensures |ss| <= Pow2(|m.vars|)
  {
    var states := DistinctStates(ss);
    StatesBound(m, states);
  }

  // ----- Windows of a shortest violation

  /** The last n + 1 states of a shortest violation, as an assignment. */
  ghost function LastStates(r: Run, n: nat): Assignment
    requires |r.ss| == |r.ins| + 1 && n <= |r.ins|
  {
    Encode(r.f, r.ss[|r.ins| - n..], r.ins[|r.ins| - n..])
  }

  lemma LastStatesAt(m: Fsm, r: Run, n: nat, t: nat)
    requires IsRun(m, r) && t <= n <= |r.ins|
    ensures var a, d := LastStates(r, n), |r.ins| - n;
            && StateAt(m, a, t) == r.ss[d + t] && FrozenAt(a) == r.f
            && (t < n ==> InputsAt(a, t) == r.ins[d + t])
  {
    var d := |r.ins| - n;
    assert r.ss[d..][t] == r.ss[d + t];
    EncodeAt(m, r.f, r.ss[d..], r.ins[d..], t);
  }

  /** They are different, satisfy the invariant except for the last one, and follow each other. */
  lemma LastStatesFacts(m: Fsm, p: Expr<Var>, r: Run, n: nat)
    requires Shortest(m, p, r) && n <= |r.ins|
    ensures var a := LastStates(r, n);
            && (forall t :: 0 <= t < n ==> PropAt(m, p, a, t) && MovesAt(m, a, t))
            && (forall i, j :: 0 <= i < j <= n ==> Differ(m, a, i, j))
            && (|r.ins| > 0 ==> forall t :: 0 <= t <= n ==> PropAt(m, m.invar, a, t))
            && !PropAt(m, p, a, n)
            && (n == |r.ins| ==> PropAt(m, m.init, a, 0) && PropAt(m, m.invar, a, 0))
  {
    hide LastStates, StateAt, FrozenAt, InputsAt, InState;
    var a, d := LastStates(r, n), |r.ins| - n;
    ShortestFacts(m, p, r);
    forall t | 0 <= t <= n ensures StateAt(m, a, t) == r.ss[d + t] && FrozenAt(a) == r.f && (t < n ==> InputsAt(a, t) == r.ins[d + t]) {
      LastStatesAt(m, r, n, t);
    }
    forall t | 0 <= t < n ensures PropAt(m, p, a, t) && MovesAt(m, a, t) {
      assert StateAt(m, a, t + 1) == r.ss[d + t + 1];
      assert Moves(m, r.ss[d + t], r.f, r.ins[d + t], r.ss[d + t + 1]);
    }
    forall t | 0 <= t <= n && |r.ins| > 0 ensures PropAt(m, m.invar, a, t) {
      var u := if t < n then d + t else |r.ins| - 1;
      assert Moves(m, r.ss[u], r.f, r.ins[u], r.ss[u + 1]);
    }
  }

  /** The same states in the opposite order; the input of a move is kept at the time of its source. */
  ghost function LastStatesBackward(r: Run, n: nat): Assignment
    requires |r.ss| == |r.ins| + 1 && n <= |r.ins|
  {
    var last := |r.ins|;
    Encode(r.f, seq(n + 1, t requires 0 <= t <= n => r.ss[last - t]),
           seq(n + 1, t requires 0 <= t <= n => if t == 0 then {} else r.ins[last - t]))
  }

  ghost predicate MovesBackAt(m: Fsm, a: Assignment, t: nat) {
    Moves(m, StateAt(m, a, t + 1), FrozenAt(a), InputsAt(a, t + 1), StateAt(m, a, t))
  }

  lemma LastStatesBackwardAt(m: Fsm, r: Run, n: nat, t: nat)
    requires IsRun(m, r) && t <= n <= |r.ins|
    ensures var a, last := LastStatesBackward(r, n), |r.ins|;
            && StateAt(m, a, t) == r.ss[last - t] && FrozenAt(a) == r.f
            && (t > 0 ==> InputsAt(a, t) == r.ins[last - t])
  {
    var last := |r.ins|;
    var ss := seq(n + 1, t requires 0 <= t <= n => r.ss[last - t]);
    var ins := seq(n + 1, t requires 0 <= t <= n => if t == 0 then {} else r.ins[last - t]);
    assert LastStatesBackward(r, n) == Encode(r.f, ss, ins);
    assert ss[t] == r.ss[last - t];
    EncodeAt(m, r.f, ss, ins, t);
  }

  lemma LastStatesBackwardFacts(m: Fsm, p: Expr<Var>, r: Run, n: nat)
    requires Shortest(m, p, r) && n <= |r.ins|
    ensures var a := LastStatesBackward(r, n);
            && !PropAt(m, p, a, 0)
            && (forall t :: 0 < t <= n ==> PropAt(m, p, a, t))
            && (forall t :: 0 <= t < n ==> MovesBackAt(m, a, t))
            && (forall i, j :: 0 <= i < j <= n ==> Differ(m, a, i, j))
  {
    hide LastStatesBackward, StateAt, FrozenAt, InputsAt, InState;
    var a, last := LastStatesBackward(r, n), |r.ins|;
    ShortestFacts(m, p, r);
    forall t | 0 <= t <= n
      ensures StateAt(m, a, t) == r.ss[last - t] && FrozenAt(a) == r.f && (t > 0 ==> InputsAt(a, t) == r.ins[last - t])
    {
      LastStatesBackwardAt(m, r, n, t);
    }
    forall t | 0 <= t < n ensures MovesBackAt(m, a, t) {
      assert StateAt(m, a, t + 1) == r.ss[last - (t + 1)] && InputsAt(a, t + 1) == r.ins[last - (t + 1)];
      assert Moves(m, r.ss[last - t - 1], r.f, r.ins[last - t - 1], r.ss[last - t]);
    }
    forall i, j | 0 <= i < j <= n ensures Differ(m, a, i, j) {
      assert StateAt(m, a, i) == r.ss[last - i] && StateAt(m, a, j) == r.ss[last - j];
    }
  }

  /** The states of an assignment, at given times, are at most as many as there are sets of bits. */
  lemma DifferBound(m: Fsm, a: Assignment, lo: nat, hi: nat)
    requires lo <= hi && forall i, j :: lo <= i < j < hi ==> Differ(m, a, i, j)
    ensures hi - lo <= Pow2(|m.vars|)
  {
    var ss := seq(hi - lo, t requires 0 <= t => StateAt(m, a, lo + t));
    forall i, j | 0 <= i < j < |ss| ensures ss[i] != ss[j] {
      assert Differ(m, a, lo + i, lo + j);
    }
    assert forall t :: StateOk(m, StateAt(m, a, t));
    Pigeonhole(m, ss);
  }
}
