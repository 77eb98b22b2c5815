/** The incremental SAT solver: a permanent group of constraints, and groups that can be destroyed. */
module BmcSolver {
  import opened BoolExpr
  import opened Alphabet
  import opened AlgoChooser
  import opened BmcModel

  type Group = nat

  ghost predicate AllHold(fs: seq<Formula>, a: Assignment) {
    forall f :: f in fs ==> Holds(f, a)
  }

  /** The assignment satisfies the permanent constraints and those of the groups that are not skipped. */
  ghost predicate Satisfies(permanent: seq<Formula>, groups: map<Group, seq<Formula>>, skip: set<Group>, a: Assignment) {
    AllHold(permanent, a) && forall g :: g in groups && g !in skip ==> AllHold(groups[g], a)
  }

  ghost predicate Satisfiable(permanent: seq<Formula>, groups: map<Group, seq<Formula>>, skip: set<Group>) {
    exists a :: Satisfies(permanent, groups, skip, a)
  }

  lemma AllHoldPush(fs: seq<Formula>, f: Formula, a: Assignment)
    ensures AllHold(fs + [f], a) <==> AllHold(fs, a) && Holds(f, a)
  {
    assert forall g :: g in fs + [f] <==> g in fs || g == f;
  }

  lemma AllHoldOne(f: Formula, a: Assignment)
    ensures AllHold([f], a) <==> Holds(f, a) && AllHold([], a)
  {
  }

  class SatIncSolver {
    var permanent: seq<Formula>
    var groups: map<Group, seq<Formula>>
    var nextGroup: Group

    ghost predicate Valid()
      reads this
    {
      forall g :: g in groups ==> g < nextGroup
    }

    constructor ()
      ensures Valid() && permanent == [] && groups == map[]
    {
      permanent, groups, nextGroup := [], map[], 0;
    }

    method CreateGroup() returns (g: Group)
      requires Valid()
      modifies this
      ensures Valid() && g !in old(groups) && groups == old(groups)[g := []] && permanent == old(permanent)
    {
      g := nextGroup;
      groups := groups[g := []];
      nextGroup := nextGroup + 1;
    }

    method DestroyGroup(g: Group)
      requires Valid()
      modifies this
      ensures Valid() && groups == old(groups) - {g} && permanent == old(permanent)
    {
      groups := groups - {g};
    }

    /** Force a formula to a truth value, in a group. */
    method SetPolarity(f: Formula, positive: bool, g: Group)
      requires Valid() && g in groups
      modifies this
      ensures Valid() && permanent == old(permanent)
      ensures groups == old(groups)[g := old(groups[g]) + [if positive then f else Not(f)]]
    {
      groups := groups[g := groups[g] + [if positive then f else Not(f)]];
    }

    /** Force a formula to a truth value, permanently. */
    method SetPolarityPermanently(f: Formula, positive: bool)
      requires Valid()
      modifies this
      ensures Valid() && groups == old(groups)
      ensures permanent == old(permanent) + [if positive then f else Not(f)]
    {
      permanent := permanent + [if positive then f else Not(f)];
    }

    static method Conjoin(problem: Formula, fs: seq<Formula>) returns (conj: Formula)
      ensures forall a :: Holds(conj, a) <==> Holds(problem, a) && AllHold(fs, a)
    {
      conj := problem;
      var i := 0;
      while i < |fs|
        invariant 0 <= i <= |fs|
        invariant forall a :: Holds(conj, a) <==> Holds(problem, a) && AllHold(fs[..i], a)
      {
        assert fs[..i + 1] == fs[..i] + [fs[i]];
        ghost var before := conj;
        conj := And(conj, fs[i]);
        forall a ensures Holds(conj, a) <==> Holds(problem, a) && AllHold(fs[..i + 1], a) {
          AllHoldPush(fs[..i], fs[i], a);
          assert Holds(conj, a) <==> Holds(before, a) && Holds(fs[i], a);
        }
        i := i + 1;
      }
      assert fs[..i] == fs;
    }

    method SolveWithoutGroups(skip: set<Group>) returns (sat: bool)
      requires Valid()
      ensures sat <==> Satisfiable(permanent, groups, skip)
    {
      var problem := Conjoin(True, permanent);
      var active := Members(groups.Keys - skip);
      var i := 0;
      while i < |active|
        invariant 0 <= i <= |active|
        invariant forall a :: Holds(problem, a) <==> AllHold(permanent, a) && forall j :: 0 <= j < i ==> active[j] in groups && AllHold(groups[active[j]], a)
      {
        assert active[i] in SetOf(active);
        problem := Conjoin(problem, groups[active[i]]);
        i := i + 1;
      }
      forall a ensures Holds(problem, a) <==> Satisfies(permanent, groups, skip, a) {
        if Holds(problem, a) {
          forall g | g in groups && g !in skip ensures AllHold(groups[g], a) {
            assert g in SetOf(active);
            var j :| 0 <= j < |active| && active[j] == g;
          }
        }
        if Satisfies(permanent, groups, skip, a) {
          forall j | 0 <= j < |active| ensures active[j] in groups && AllHold(groups[active[j]], a) {
            assert active[j] in SetOf(active);
          }
        }
      }
      sat := IsSat(problem);
      SatOf(problem, permanent, groups, skip);
    }

    method SolveAllGroups() returns (sat: bool)
      requires Valid()
      ensures sat <==> Satisfiable(permanent, groups, {})
    {
      sat := SolveWithoutGroups({});
    }
  }

  lemma SatOf(problem: Formula, permanent: seq<Formula>, groups: map<Group, seq<Formula>>, skip: set<Group>)
    requires forall a :: Holds(problem, a) <==> Satisfies(permanent, groups, skip, a)
    ensures IsSat(problem) <==> Satisfiable(permanent, groups, skip)
  {
    if Satisfiable(permanent, groups, skip) {
      var a :| Satisfies(permanent, groups, skip, a);
      HoldsIsSat(problem, a);
    }
    if IsSat(problem) {
      var a :| Holds(problem, a);
      assert Satisfies(permanent, groups, skip, a);
    }
  }
}

/** The constraint that a state differs from earlier states. */
module BmcUniqueness {
  import opened BoolExpr
  import opened BmcModel
  import opened BmcEncoding

  /** Some of the first n bits differ between two times. */
  ghost predicate DifferIn(m: Fsm, a: Assignment, i: nat, j: nat, n: nat) {
    exists k :: 0 <= k < n <= |m.vars| && (At(m.vars[k], i) in a) != (At(m.vars[k], j) in a)
  }

  lemma DifferBits(m: Fsm, a: Assignment, i: nat, j: nat)
    ensures DifferIn(m, a, i, j, |m.vars|) <==> Differ(m, a, i, j)
  {
    var s, t := StateAt(m, a, i), StateAt(m, a, j);
    if DifferIn(m, a, i, j, |m.vars|) {
      var k :| 0 <= k < |m.vars| && (At(m.vars[k], i) in a) != (At(m.vars[k], j) in a);
      assert (m.vars[k] in s) != (m.vars[k] in t);
    }
    if !DifferIn(m, a, i, j, |m.vars|) {
      forall v ensures v in s <==> v in t {
        if v in m.vars {
          var k :| 0 <= k < |m.vars| && m.vars[k] == v;
        }
      }
    }
  }

  lemma DifferNext(m: Fsm, a: Assignment, i: nat, j: nat, n: nat)
    requires n < |m.vars|
    ensures DifferIn(m, a, i, j, n + 1) <==> DifferIn(m, a, i, j, n) || (At(m.vars[n], i) in a) != (At(m.vars[n], j) in a)
  {
    if DifferIn(m, a, i, j, n) {
      var k :| 0 <= k < n && (At(m.vars[k], i) in a) != (At(m.vars[k], j) in a);
    }
  }

  lemma XorBit(v: Id, i: nat, j: nat, a: Assignment)
    ensures Holds(Xor(ToTimed(Atom(Curr(v)), i), ToTimed(Atom(Curr(v)), j)), a) <==> (At(v, i) in a) != (At(v, j) in a)
  {
    assert ToTimed(Atom(Curr(v)), i) == Atom(At(v, i)) && ToTimed(Atom(Curr(v)), j) == Atom(At(v, j));
  }

  /** The states at two times differ in some bit. */
  method NotEqual(m: Fsm, i: nat, j: nat) returns (notEqual: Formula)
    ensures forall a :: Holds(notEqual, a) <==> Differ(m, a, i, j)
  {
    notEqual := False;
    var n := 0;
    while n < |m.vars|
      invariant 0 <= n <= |m.vars|
      invariant forall a :: Holds(notEqual, a) <==> DifferIn(m, a, i, j, n)
    {
      var v := m.vars[n];
      var xor := Xor(ToTimed(Atom(Curr(v)), i), ToTimed(Atom(Curr(v)), j));
      ghost var before := notEqual;
      notEqual := Or(notEqual, xor);
      forall a ensures Holds(notEqual, a) <==> DifferIn(m, a, i, j, n + 1) {
        assert Holds(notEqual, a) <==> Holds(before, a) || Holds(xor, a);
        XorBit(v, i, j, a);
        DifferNext(m, a, i, j, n);
      }
      n := n + 1;
    }
    forall a ensures Holds(notEqual, a) <==> Differ(m, a, i, j) {
      DifferBits(m, a, i, j);
    }
  }

  /** The last state differs from the states from init on. */
  method BuildUniqueness(m: Fsm, init: nat, last: nat) returns (res: Formula)
    requires init <= last
    ensures forall a :: Holds(res, a) <==> DifferFrom(m, a, init, last)
  {
    res := True;
    var l := init;
    while l < last
      invariant init <= l <= last
      invariant forall a :: Holds(res, a) <==> forall k :: init <= k < l ==> Differ(m, a, k, last)
    {
      var notEqual := NotEqual(m, l, last);
      ghost var before := res;
      res := And(res, notEqual);
      forall a ensures Holds(res, a) <==> forall k :: init <= k < l + 1 ==> Differ(m, a, k, last) {
        assert Holds(res, a) <==> Holds(before, a) && Holds(notEqual, a);
      }
      l := l + 1;
    }
  }
}
