/** Combining labelled transitions: for each combination of labels, the locations it leads to. */
module LabelCombinator {
  import opened BoolExpr
  import opened Alphabet
  import opened Nfas
  import opened Automata

  type Combination = (Label, set<Loc>)

  /** The locations to which the listed transitions lead on a letter. */
  ghost function Targets(list: seq<Transition>, a: Letter): set<Loc> {
    set i | 0 <= i < |list| && Holds(list[i].lab, a) :: list[i].end
  }

  ghost function Ends(list: seq<Transition>): set<Loc> {
    set i | 0 <= i < |list| :: list[i].end
  }

  /** On the letters of its label, a combination leads to exactly the targets of the list. */
  ghost predicate Leads(list: seq<Transition>, c: Combination) {
    c.1 <= Ends(list) && forall a :: Holds(c.0, a) ==> c.1 == Targets(list, a)
  }

  ghost predicate Admits(cs: seq<Combination>, a: Letter) {
    exists i :: 0 <= i < |cs| && Holds(cs[i].0, a)
  }

  ghost predicate AllLead(list: seq<Transition>, cs: seq<Combination>) {
    forall i :: 0 <= i < |cs| ==> Leads(list, cs[i])
  }

  /** Every combination is satisfiable, or it is the second of the two combinations of a single transition. */
  ghost predicate AllSat(list: seq<Transition>, cs: seq<Combination>) {
    forall i :: 0 <= i < |cs| ==> IsSat(cs[i].0) || (|list| == 1 && (cs[i].1 == {} || !IsSat(list[0].lab)))
  }

  lemma TargetsFirst(list: seq<Transition>, a: Letter)
    requires list != []
    ensures Targets(list, a) == Targets(list[1..], a) + if Holds(list[0].lab, a) then {list[0].end} else {}
    ensures Ends(list) == Ends(list[1..]) + {list[0].end}
  {
    forall l | l in Targets(list[1..], a) ensures l in Targets(list, a) {
      var i :| 0 <= i < |list[1..]| && Holds(list[1..][i].lab, a) && list[1..][i].end == l;
      assert list[i + 1] == list[1..][i];
    }
    forall l | l in Ends(list[1..]) ensures l in Ends(list) {
      var i :| 0 <= i < |list[1..]| && list[1..][i].end == l;
      assert list[i + 1] == list[1..][i];
    }
    forall l | l in Targets(list, a) ensures l in Targets(list[1..], a) + if Holds(list[0].lab, a) then {list[0].end} else {} {
      var i :| 0 <= i < |list| && Holds(list[i].lab, a) && list[i].end == l;
      assert i > 0 ==> list[1..][i - 1] == list[i];
    }
    forall l | l in Ends(list) ensures l in Ends(list[1..]) + {list[0].end} {
      var i :| 0 <= i < |list| && list[i].end == l;
      assert i > 0 ==> list[1..][i - 1] == list[i];
    }
  }

  /** The combination with the first transition, and the one without it. */
  lemma LeadsWith(list: seq<Transition>, c: Combination)
    requires list != [] && Leads(list[1..], c)
    ensures Leads(list, (And(c.0, list[0].lab), c.1 + {list[0].end}))
    ensures Leads(list, (And(c.0, Not(list[0].lab)), c.1))
  {
    TargetsFirst(list, {});
    forall a | Holds(And(c.0, list[0].lab), a) ensures c.1 + {list[0].end} == Targets(list, a) {
      TargetsFirst(list, a);
    }
    forall a | Holds(And(c.0, Not(list[0].lab)), a) ensures c.1 == Targets(list, a) {
      assert Holds(Not(list[0].lab), a);
      TargetsFirst(list, a);
    }
  }

  lemma LeadsSingle(list: seq<Transition>)
    requires |list| == 1
    ensures Leads(list, (list[0].lab, {list[0].end})) && Leads(list, (Not(list[0].lab), {}))
  {
    TargetsFirst(list, {});
    forall a ensures Targets(list, a) == if Holds(list[0].lab, a) then {list[0].end} else {} {
      TargetsFirst(list, a);
    }
  }

  lemma AdmitsLast(cs: seq<Combination>, i: nat, a: Letter)
    requires i < |cs| && Holds(cs[i].0, a)
    ensures Admits(cs, a)
  {
  }

  method CombineOne(list: seq<Transition>, c: Combination, result: seq<Combination>) returns (result': seq<Combination>)
    requires |list| > 1 && Leads(list[1..], c) && AllLead(list, result) && AllSat(list, result)
    ensures AllLead(list, result') && AllSat(list, result') && result <= result'
    ensures forall a :: Holds(c.0, a) ==> Admits(result', a)
  {
    result' := result;
    LeadsWith(list, c);
    var firstLabel := And(c.0, list[0].lab);
    if IsSat(firstLabel) {
      result' := result' + [(firstLabel, c.1 + {list[0].end})];
    }
    ghost var mid := result';
    var secondLabel := And(c.0, Not(list[0].lab));
    if IsSat(secondLabel) {
      result' := result' + [(secondLabel, c.1)];
    }
    forall a | Holds(c.0, a) ensures Admits(result', a) {
      if Holds(list[0].lab, a) {
        HoldsIsSat(firstLabel, a);
        assert mid[|mid| - 1] == result'[|mid| - 1];
        AdmitsLast(result', |mid| - 1, a);
      } else {
        assert Holds(secondLabel, a);
        HoldsIsSat(secondLabel, a);
        AdmitsLast(result', |result'| - 1, a);
      }
    }
  }

  /** All combinations of the labels, with their targets.  A single transition yields its label and the
      complement of its label, which is not tested for satisfiability. */
  method Combine(list: seq<Transition>) returns (result: seq<Combination>)
    ensures list == [] ==> result == []
    ensures |list| == 1 ==> result == [(list[0].lab, {list[0].end}), (Not(list[0].lab), {})]
    ensures list != [] ==> forall a: Letter :: Admits(result, a)
    ensures AllLead(list, result)
    ensures AllSat(list, result)
    decreases |list|
  {
    if list == [] {
      result := [];
    } else if |list| == 1 {
      result := [(list[0].lab, {list[0].end}), (Not(list[0].lab), {})];
      LeadsSingle(list);
      forall a: Letter ensures Admits(result, a) {
        assert Holds(result[0].0, a) || Holds(result[1].0, a);
      }
    } else {
      var previous := Combine(list[1..]);
      result := [];
      var i := 0;
      while i < |previous|
        invariant 0 <= i <= |previous|
        invariant AllLead(list, result) && AllSat(list, result)
        invariant forall a :: Admits(previous[..i], a) ==> Admits(result, a)
      {
        ghost var before := result;
        result := CombineOne(list, previous[i], result);
        forall a | Admits(previous[..i + 1], a) ensures Admits(result, a) {
          var j :| 0 <= j < i + 1 && Holds(previous[..i + 1][j].0, a);
          if j < i {
            assert previous[..i][j] == previous[j];
            assert Admits(previous[..i], a);
            var n :| 0 <= n < |before| && Holds(before[n].0, a);
            AdmitsLast(result, n, a);
          }
        }
        i := i + 1;
      }
      assert previous[..i] == previous;
    }
  }
}
