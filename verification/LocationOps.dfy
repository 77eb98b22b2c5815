/** Operations on one location: merging transitions with the same end, and the determinism test. */
module LocationLists {
  import opened BoolExpr
  import opened Alphabet
  import opened Nfas
  import opened Automata
  import opened LabelSteps

  /** Some transition of the list leads to q on the letter a. */
  ghost predicate Leads(ts: seq<Transition>, a: Letter, q: Loc) {
    exists i :: 0 <= i < |ts| && ts[i].end == q && Holds(ts[i].lab, a)
  }

  ghost predicate DistinctEnds(ts: seq<Transition>) {
    forall i, j :: 0 <= i < j < |ts| ==> ts[i].end != ts[j].end
  }

  /** The hash knows each transition of the list by its end: the number of transitions pushed before it. */
  ghost predicate Indexed(ts: seq<Transition>, hash: map<Loc, nat>) {
    && (forall l :: l in hash ==> hash[l] < |ts| && ts[|ts| - 1 - hash[l]].end == l)
    && (forall i :: 0 <= i < |ts| ==> ts[i].end in hash && hash[ts[i].end] == |ts| - 1 - i)
  }

  lemma IndexedDistinct(ts: seq<Transition>, hash: map<Loc, nat>)
    requires Indexed(ts, hash)
    ensures DistinctEnds(ts)
  {
  }

  /** Pushing a transition with a new end. */
  lemma LeadsPush(ts: seq<Transition>, t: Transition, a: Letter, q: Loc)
    ensures Leads([t] + ts, a, q) <==> Leads(ts, a, q) || (t.end == q && Holds(t.lab, a))
  {
    var s := [t] + ts;
    if i :| 0 <= i < |ts| && ts[i].end == q && Holds(ts[i].lab, a) {
      assert s[i + 1] == ts[i];
    }
    assert s[0] == t;
    if i :| 0 <= i < |s| && s[i].end == q && Holds(s[i].lab, a) {
      assert i > 0 ==> ts[i - 1] == s[i];
    }
  }

  /** Weakening the label of a transition by a disjunct. */
  lemma LeadsMerge(ts: seq<Transition>, n: nat, lab: Label, a: Letter, q: Loc)
    requires n < |ts|
    ensures Leads(ts[n := Transition(Or(ts[n].lab, lab), ts[n].end)], a, q) <==> Leads(ts, a, q) || (ts[n].end == q && Holds(lab, a))
  {
    var s := ts[n := Transition(Or(ts[n].lab, lab), ts[n].end)];
    assert Holds(s[n].lab, a) <==> Holds(ts[n].lab, a) || Holds(lab, a);
    if i :| 0 <= i < |ts| && ts[i].end == q && Holds(ts[i].lab, a) {
      assert i != n ==> s[i] == ts[i];
      assert s[i].end == q && Holds(s[i].lab, a);
    }
    if i :| 0 <= i < |s| && s[i].end == q && Holds(s[i].lab, a) {
      assert i != n ==> s[i] == ts[i];
    }
    if ts[n].end == q && Holds(lab, a) {
      assert s[n].end == q && Holds(s[n].lab, a);
    }
  }

  /** The transitions kept and the transitions still to drain lead where the original list leads. */
  ghost predicate SameLeads(all: seq<Transition>, kept: seq<Transition>, rest: seq<Transition>) {
    forall a: Letter, q: Loc :: Leads(all, a, q) <==> Leads(kept, a, q) || Leads(rest, a, q)
  }

  lemma SameLeadsPush(all: seq<Transition>, kept: seq<Transition>, rest: seq<Transition>)
    requires rest != [] && SameLeads(all, kept, rest)
    ensures SameLeads(all, [rest[0]] + kept, rest[1..])
  {
    assert rest == [rest[0]] + rest[1..];
    forall a: Letter, q: Loc ensures Leads(all, a, q) <==> Leads([rest[0]] + kept, a, q) || Leads(rest[1..], a, q) {
      LeadsPush(kept, rest[0], a, q);
      LeadsPush(rest[1..], rest[0], a, q);
    }
  }

  lemma SameLeadsMerge(all: seq<Transition>, kept: seq<Transition>, rest: seq<Transition>, n: nat)
    requires rest != [] && SameLeads(all, kept, rest) && n < |kept| && kept[n].end == rest[0].end
    ensures SameLeads(all, kept[n := Transition(Or(kept[n].lab, rest[0].lab), kept[n].end)], rest[1..])
  {
    assert rest == [rest[0]] + rest[1..];
    forall a: Letter, q: Loc
      ensures Leads(all, a, q) <==> Leads(kept[n := Transition(Or(kept[n].lab, rest[0].lab), kept[n].end)], a, q) || Leads(rest[1..], a, q)
    {
      LeadsMerge(kept, n, rest[0].lab, a, q);
      LeadsPush(rest[1..], rest[0], a, q);
    }
  }

  ghost predicate HasEnd(ts: seq<Transition>, q: Loc) {
    exists i :: 0 <= i < |ts| && ts[i].end == q
  }

  ghost predicate AllEnds(ts: seq<Transition>, us: seq<Transition>) {
    forall i :: 0 <= i < |us| ==> HasEnd(ts, us[i].end)
  }

  lemma EndsStart(ts: seq<Transition>)
    ensures AllEnds(ts, ts) && AllEnds(ts, []) && Indexed([], map[]) && SameLeads(ts, [], ts)
  {
  }

  lemma RestEnds(ts: seq<Transition>, rest: seq<Transition>)
    requires AllEnds(ts, rest) && rest != []
    ensures AllEnds(ts, rest[1..]) && HasEnd(ts, rest[0].end)
  {
  }

  lemma KeptPush(ts: seq<Transition>, kept: seq<Transition>, hash: map<Loc, nat>, t: Transition)
    requires AllEnds(ts, kept) && HasEnd(ts, t.end) && Indexed(kept, hash) && t.end !in hash
    ensures AllEnds(ts, [t] + kept) && Indexed([t] + kept, hash[t.end := |kept|])
  {
  }

  lemma KeptMerge(ts: seq<Transition>, kept: seq<Transition>, hash: map<Loc, nat>, end: Loc, lab: Label)
    requires AllEnds(ts, kept) && Indexed(kept, hash) && end in hash
    ensures hash[end] < |kept| && kept[|kept| - 1 - hash[end]].end == end
    ensures var kept' := kept[|kept| - 1 - hash[end] := Transition(lab, end)];
            AllEnds(ts, kept') && Indexed(kept', hash)
  {
    hide HasEnd;
    var n := |kept| - 1 - hash[end];
    var kept' := kept[n := Transition(lab, end)];
    SameEnds(ts, kept, kept', hash, n);
  }

  lemma SameEnds(ts: seq<Transition>, kept: seq<Transition>, kept': seq<Transition>, hash: map<Loc, nat>, n: nat)
    requires n < |kept| == |kept'| && kept' == kept[n := Transition(kept'[n].lab, kept[n].end)]
    requires AllEnds(ts, kept) && Indexed(kept, hash)
    ensures AllEnds(ts, kept') && Indexed(kept', hash)
  {
    hide HasEnd, Indexed, AllEnds;
    assert forall i :: 0 <= i < |kept| ==> kept'[i].end == kept[i].end;
    EndsOnly(ts, kept, kept', hash);
  }

  lemma EndsOnly(ts: seq<Transition>, kept: seq<Transition>, kept': seq<Transition>, hash: map<Loc, nat>)
    requires |kept| == |kept'| && forall i {:trigger kept'[i]} :: 0 <= i < |kept| ==> kept'[i].end == kept[i].end
    requires AllEnds(ts, kept) && Indexed(kept, hash)
    ensures AllEnds(ts, kept') && Indexed(kept', hash)
  {
    hide HasEnd;
  }

  lemma MergeDone(ts: seq<Transition>, kept: seq<Transition>, hash: map<Loc, nat>)
    requires AllEnds(ts, kept) && Indexed(kept, hash) && SameLeads(ts, kept, [])
    ensures DistinctEnds(kept) && forall i :: 0 <= i < |kept| ==> HasEnd(ts, kept[i].end)
    ensures forall a: Letter, q: Loc :: Leads(kept, a, q) <==> Leads(ts, a, q)
  {
    IndexedDistinct(kept, hash);
    assert forall a: Letter, q: Loc :: !Leads([], a, q);
  }

  /** Two transitions of the list admit the same letter. */
  ghost predicate Clash(ts: seq<Transition>, i: nat, j: nat, a: Letter) {
    i < j < |ts| && Holds(ts[i].lab, a) && Holds(ts[j].lab, a)
  }

  /** The steps from a location are the leads of its list. */
  lemma StepIsLead(a: Automaton, l: Loc, x: Letter, q: Loc)
    requires a.Valid() && l in a.loc
    ensures Step(a.Graph(), l, x, q) <==> Leads(a.loc[l].transitions, x, q)
  {
    var ts := a.loc[l].transitions;
    if Step(a.Graph(), l, x, q) {
      var t :| t in a.Graph().trans && t.src == l && t.dst == q && Holds(t.lab, x);
      var i :| 0 <= i < |ts| && t == Trans(l, ts[i].lab, ts[i].end);
    }
    if Leads(ts, x, q) {
      var i :| 0 <= i < |ts| && ts[i].end == q && Holds(ts[i].lab, x);
      assert Trans(l, ts[i].lab, ts[i].end) in a.Graph().trans;
    }
  }

  lemma {:induction false} SameSteps(g: Nfa, h: Nfa, p: Loc, w: Word)
    requires h.final == g.final && forall p: Loc, a: Letter, q: Loc :: Step(h, p, a, q) <==> Step(g, p, a, q)
    ensures Accepts(h, p, w) <==> Accepts(g, p, w)
    decreases |w|
  {
    if w != [] {
      if q :| Step(g, p, w[0], q) && Accepts(g, q, w[1..]) {
        SameSteps(g, h, q, w[1..]);
        assert Step(h, p, w[0], q);
      }
      if q :| Step(h, p, w[0], q) && Accepts(h, q, w[1..]) {
        SameSteps(g, h, q, w[1..]);
        assert Step(g, p, w[0], q);
      }
    }
  }
}

module LocationOps {
  import opened BoolExpr
  import opened Alphabet
  import opened Nfas
  import opened Automata
  import opened LabelSteps
  import opened LocationLists

  /** Drain the list and rebuild it, merging the labels of the transitions with the same end. */
  method MergeList(list: seq<Transition>) returns (merged: seq<Transition>, count: nat)
    ensures DistinctEnds(merged) && count == |merged|
    ensures forall a: Letter, q: Loc :: Leads(merged, a, q) <==> Leads(list, a, q)
    ensures forall i :: 0 <= i < |merged| ==> HasEnd(list, merged[i].end)
  {
    hide *;
    merged, count := [], 0;
    var rest := list;
    var hash: map<Loc, nat> := map[];
    EndsStart(list);
    while rest != []
      invariant Indexed(merged, hash) && count == |merged|
      invariant SameLeads(list, merged, rest) && AllEnds(list, merged) && AllEnds(list, rest)
      decreases |rest|
    {
      var trans := rest[0];
      RestEnds(list, rest);
      if trans.end !in hash {
        SameLeadsPush(list, merged, rest);
        KeptPush(list, merged, hash, trans);
        hash := hash[trans.end := |merged|];
        merged := [trans] + merged;
        count := count + 1;
      } else {
        KeptMerge(list, merged, hash, trans.end, trans.lab);
        var n := |merged| - 1 - hash[trans.end];
        SameLeadsMerge(list, merged, rest, n);
        KeptMerge(list, merged, hash, trans.end, Or(merged[n].lab, trans.lab));
        merged := merged[n := Transition(Or(merged[n].lab, trans.lab), trans.end)];
      }
      rest := rest[1..];
    }
    MergeDone(list, merged, hash);
  }

  /** Merge the transitions of a location: the steps are the same, and so is the language. */
  method MergeDuplicates(self: Automaton, l: Loc)
    requires self.Valid() && l in self.loc
    modifies self
    ensures self.Valid() && self.loc.Keys == old(self.loc.Keys) && DistinctEnds(self.loc[l].transitions)
    ensures forall p: Loc, a: Letter, q: Loc :: Step(self.Graph(), p, a, q) <==> Step(old(self.Graph()), p, a, q)
    ensures Lang(self.Graph()) == Lang(old(self.Graph()))
  {
    hide Leads, Step, Accepts, DistinctEnds, HasEnd;
    ghost var g := self.Graph();
    forall p, a, q | p in self.loc ensures Step(g, p, a, q) <==> Leads(self.loc[p].transitions, a, q) {
      StepIsLead(self, p, a, q);
    }
    StepsInside(g);
    var merged, count := MergeList(self.loc[l].transitions);
    ghost var before := self.loc;
    ListEnds(self, l);
    self.loc := self.loc[l := self.loc[l].(transitions := merged)];
    Replaced(before, l, merged);
    assert self.Valid();
    forall p, a, q | p in self.loc ensures Step(self.Graph(), p, a, q) <==> Leads(self.loc[p].transitions, a, q) {
      StepIsLead(self, p, a, q);
    }
    StepsInside(self.Graph());
    forall w ensures w in Lang(self.Graph()) <==> w in Lang(g) {
      SameSteps(g, self.Graph(), g.init, w);
    }
  }

  lemma StepsInside(g: Nfa)
    requires Closed(g)
    ensures forall p: Loc, a: Letter, q: Loc :: Step(g, p, a, q) ==> p in g.locs && q in g.locs
  {
  }

  lemma ListEnds(self: Automaton, l: Loc)
    requires self.Valid() && l in self.loc
    ensures forall q :: HasEnd(self.loc[l].transitions, q) ==> q in self.loc
  {
    var ts := self.loc[l].transitions;
    forall i | 0 <= i < |ts| ensures ts[i].end in self.loc {
      assert Trans(l, ts[i].lab, ts[i].end) in self.Graph().trans;
    }
  }

  lemma Replaced(loc: map<Loc, AutomataLoc>, l: Loc, merged: seq<Transition>)
    requires l in loc
    ensures FinalOf(loc[l := loc[l].(transitions := merged)]) == FinalOf(loc)
  {
  }

  /** The pairwise test: no two transitions of the list admit the same letter. */
  method CheckIsDeterministic(l: AutomataLoc) returns (deterministic: bool)
    ensures deterministic <==> forall i: nat, j: nat, a: Letter :: !Clash(l.transitions, i, j, a)
  {
    var ts := l.transitions;
    var i := 0;
    while i < |ts|
      invariant 0 <= i <= |ts|
      invariant forall m: nat, n: nat, a: Letter :: m < i ==> !Clash(ts, m, n, a)
    {
      var j := i + 1;
      while j < |ts|
        invariant i < j <= |ts|
        invariant forall n: nat, a: Letter :: n < j ==> !Clash(ts, i, n, a)
      {
        if IsSat(And(ts[i].lab, ts[j].lab)) {
          assert exists a: Letter :: Holds(And(ts[i].lab, ts[j].lab), a);
          ghost var a: Letter :| Holds(And(ts[i].lab, ts[j].lab), a);
          assert Clash(l.transitions, i, j, a);
          return false;
        }
        NotSat(ts[i].lab, ts[j].lab);
        j := j + 1;
      }
      i := i + 1;
    }
    deterministic := true;
  }
}
