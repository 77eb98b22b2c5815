/** What the steps over symbols and over transitions have in common. */
module LabelSteps {
  import opened BoolExpr
  import opened Alphabet
  import opened Nfas
  import opened Automata
  import opened AlgoChooser
  import opened CopyGraphs

  ghost predicate Admitted(ms: set<Label>, a: Letter) {
    exists m :: m in ms && Holds(m, a)
  }

  ghost function TransAt(a: Automaton, l: Loc, i: nat): Trans
    requires l in a.loc && i < |a.loc[l].transitions|
    reads a
  {
    Trans(l, a.loc[l].transitions[i].lab, a.loc[l].transitions[i].end)
  }

  lemma ListStart(a: Automaton, l: Loc)
    requires a.Valid() && l in a.loc
    ensures var ts := a.loc[l].transitions;
            Leaving(a.Graph(), {l}) == TransFrom(l, ts) && TransFrom(l, ts[..0]) == {} && ts[..|ts|] == ts
  {
    LeavingOne(a, l);
  }

  lemma ListNext(a: Automaton, l: Loc, i: nat)
    requires a.Valid() && l in a.loc && i < |a.loc[l].transitions|
    ensures var ts := a.loc[l].transitions;
            var t := Trans(l, ts[i].lab, ts[i].end);
            && t in a.Graph().trans && t.dst in a.loc && t.dst in a.Graph().locs && TransAt(a, l, i) == t
            && TransFrom(l, ts[..i + 1]) == TransFrom(l, ts[..i]) + {t}
  {
    InGraph(a, l, i);
    TransFromNext(l, a.loc[l].transitions, i);
  }

  lemma SupportCovers(ts: seq<Transition>, i: nat, support: set<Prop>)
    requires i < |ts| && ListSupport(ts) <= support
    ensures Support(ts[i].lab) <= support
  {
    forall v | v in Support(ts[i].lab) ensures v in ListSupport(ts) {
    }
  }

  /** A symbol that is a model of both labels implies them both. */
  lemma SymbolImplies(alphabet: set<Label>, support: set<Prop>, m: Label, l1: Label, l2: Label)
    requires IsAlphabet(alphabet, support) && m in alphabet && Support(l1) <= support && Support(l2) <= support
    requires IsModel(l1, m) && IsModel(l2, m)
    ensures forall a :: Holds(m, a) ==> Holds(l1, a) && Holds(l2, a)
    ensures IsSat(m)
  {
    AlphabetSat(alphabet, support, m);
    forall a | Holds(m, a) ensures Holds(l1, a) && Holds(l2, a) {
      AlphabetDecides(alphabet, support, m, l1, a);
      AlphabetDecides(alphabet, support, m, l2, a);
    }
  }

  lemma NotModel(l: Label, m: Label)
    requires !IsModel(l, m)
    ensures forall a :: Holds(m, a) ==> !Holds(l, a)
  {
    forall a | Holds(m, a) ensures !Holds(l, a) {
      if Holds(l, a) {
        HoldsIsSat(And(l, m), a);
      }
    }
  }

  lemma NotSat(l1: Label, l2: Label)
    requires !IsSat(And(l1, l2))
    ensures forall a :: Holds(l1, a) ==> !Holds(l2, a)
  {
    forall a | Holds(l1, a) ensures !Holds(l2, a) {
      if Holds(l2, a) {
        HoldsIsSat(And(l1, l2), a);
      }
    }
  }

  lemma AndHolds(l1: Label, l2: Label)
    ensures forall a :: Holds(And(l1, l2), a) <==> Holds(l1, a) && Holds(l2, a)
  {
  }

  lemma OrHolds(l1: Label, l2: Label)
    ensures forall a :: Holds(l2, a) ==> Holds(Or(l1, l2), a)
  {
  }

  lemma AlphabetAdmits(alphabet: set<Label>, support: set<Prop>)
    requires IsAlphabet(alphabet, support)
    ensures forall a: Letter :: Admitted(alphabet, a)
  {
    forall a: Letter ensures Admitted(alphabet, a) {
      var m := AlphabetCovers(alphabet, support, a);
    }
  }
}
