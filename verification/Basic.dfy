/** The elementary automata, and conjunction. */
module BasicLanguage {
  import opened BoolExpr
  import opened Alphabet
  import opened Nfas
  import opened Automata

  /** The words of one letter that satisfies an expression. */
  ghost function Letters(e: Label): Language {
    iset w: Word | |w| == 1 && Holds(e, w[0])
  }

  ghost predicate LongEnough(w: Word, n: nat) {
    |w| >= n
  }

  ghost function AllWords(): Language {
    iset w | LongEnough(w, 0)
  }

  ghost function NonemptyWords(): Language {
    iset w | LongEnough(w, 1)
  }

  /** The words that have a prefix in x. */
  ghost function Extending(x: Language): Language {
    iset w | HasPrefix(x, w)
  }

  ghost predicate HasPrefix(x: Language, w: Word) {
    exists i | 0 <= i <= |w| :: w[..i] in x
  }

  lemma ExtendingIsCat(x: Language)
    ensures Cat(x, AllWords()) == Extending(x)
  {
    forall w ensures w in Cat(x, AllWords()) <==> w in Extending(x) {
      if i :| 0 <= i <= |w| && w[..i] in x {
        assert w[i..] in AllWords();
      }
    }
  }

  /** The automaton of an expression: one transition, from the initial to a final location. */
  ghost function ExprNfa(l: Loc, e: Loc, lab: Label): Nfa {
    WithTrans(WithLoc(Single(l, false), e, true), Trans(l, lab, e))
  }

  lemma ExprMeans(l: Loc, e: Loc, lab: Label)
    requires l != e && IsSat(lab)
    ensures var g := ExprNfa(l, e, lab);
            Lang(g) == Letters(lab) && NoReturn(g) && LabelsSat(g) && SinkOk(g)
  {
    var g := ExprNfa(l, e, lab);
    forall w ensures w in Lang(g) <==> w in Letters(lab) {
      ExprAccepts(l, e, lab, w);
    }
  }

  lemma ExprAccepts(l: Loc, e: Loc, lab: Label, w: Word)
    requires l != e
    ensures Accepts(ExprNfa(l, e, lab), l, w) <==> |w| == 1 && Holds(lab, w[0])
  {
    var g := ExprNfa(l, e, lab);
    if w != [] {
      ExprEnd(l, e, lab, w[1..]);
      assert Holds(lab, w[0]) ==> Step(g, l, w[0], e);
    }
  }

  lemma ExprEnd(l: Loc, e: Loc, lab: Label, w: Word)
    requires l != e
    ensures Accepts(ExprNfa(l, e, lab), e, w) <==> w == []
  {
  }

  lemma SingleMeans(l: Loc)
    ensures Lang(Single(l, false)) == iset{} && NoReturn(Single(l, false)) && LabelsSat(Single(l, false)) && SinkOk(Single(l, false))
  {
    forall w ensures w !in Lang(Single(l, false)) {
      if w != [] {
        assert forall q :: !Step(Single(l, false), l, w[0], q);
      }
    }
  }

  lemma UnsatLetters(lab: Label)
    requires !IsSat(lab)
    ensures Letters(lab) == iset{} && Star(Letters(lab)) == iset{[]}
  {
    forall w ensures w !in Letters(lab) {
      if w in Letters(lab) {
        HoldsIsSat(lab, w[0]);
      }
    }
  }

  // ----- Repetition of an expression: a loop on a final initial location

  ghost function LoopNfa(l: Loc, lab: Label): Nfa {
    WithFinal(WithTrans(Single(l, false), Trans(l, lab, l)), l, true)
  }

  lemma LoopMeans(l: Loc, lab: Label)
    requires IsSat(lab)
    ensures var g := LoopNfa(l, lab);
            Lang(g) == Star(Letters(lab)) && Returns(g) == Star(Letters(lab)) && LabelsSat(g) && SinkOk(g)
  {
    var g := LoopNfa(l, lab);
    assert Rooted(g) == g;
    forall w ensures w in Lang(g) <==> w in Star(Letters(lab)) {
      LoopAccepts(l, lab, w);
    }
  }

  lemma {:induction false} LoopAccepts(l: Loc, lab: Label, w: Word)
    ensures Accepts(LoopNfa(l, lab), l, w) <==> InStar(Letters(lab), w)
    decreases |w|
  {
    var g := LoopNfa(l, lab);
    if w != [] {
      LoopAccepts(l, lab, w[1..]);
      assert Holds(lab, w[0]) ==> Step(g, l, w[0], l);
      if InStar(Letters(lab), w) {
        var i :| 0 < i <= |w| && w[..i] in Letters(lab) && InStar(Letters(lab), w[i..]);
        assert i == 1;
      }
      if Holds(lab, w[0]) && InStar(Letters(lab), w[1..]) {
        assert w[..1] in Letters(lab);
      }
    }
  }

  /** A loop that is not created leaves the empty word. */
  lemma NoLoopMeans(l: Loc)
    ensures Lang(Single(l, true)) == iset{[]} && Returns(Single(l, true)) == iset{[]}
    ensures LabelsSat(Single(l, true)) && SinkOk(Single(l, true))
  {
    var g := Single(l, true);
    assert Rooted(g) == g;
    forall w ensures w in Lang(g) <==> w == [] {
      if w != [] {
        assert forall q :: !Step(g, l, w[0], q);
      }
    }
  }

  lemma {:induction false} TrueStarAt(w: Word)
    ensures InStar(Letters(True), w)
    decreases |w|
  {
    if w != [] {
      TrueStarAt(w[1..]);
      assert w[..1] in Letters(True);
    }
  }

  lemma TrueStarIsAll()
    ensures Star(Letters(True)) == AllWords()
  {
    forall w ensures w in Star(Letters(True)) {
      TrueStarAt(w);
    }
  }

  lemma TruePlusIsNonempty()
    ensures Plus(Letters(True)) == NonemptyWords()
  {
    forall w: Word ensures w in Plus(Letters(True)) <==> w in NonemptyWords() {
      if w != [] {
        TrueStarAt(w[1..]);
        assert w[..1] in Letters(True) && w[1..] in Star(Letters(True));
      }
    }
  }
}

module Basics {
  import opened BoolExpr
  import opened Alphabet
  import opened Nfas
  import opened Automata
  import opened CopyGraphs
  import opened AcceptingLanguage
  import opened Accepting
  import opened Unions
  import opened Concats
  import opened Intersections
  import opened BasicLanguage

  method CreateEmpty(manager: AutomataManager) returns (self: Automaton)
    modifies manager
    ensures fresh(self) && self.Usable(manager) && old(manager.nextLoc) <= manager.nextLoc
    ensures forall l :: l in self.loc ==> old(manager.nextLoc) <= l
    ensures Lang(self.Graph()) == iset{} && NoReturn(self.Graph()) && LabelsSat(self.Graph())
  {
    self := new Automaton.Empty(manager);
    SingleMeans(self.initial);
    assert self.loc.Keys == self.Graph().locs;
  }

  /** The automaton of a propositional expression.  The final location is listed twice. */
  method CreateFromExpr(manager: AutomataManager, expr: Label) returns (self: Automaton)
    modifies manager
    ensures fresh(self) && self.Usable(manager) && old(manager.nextLoc) <= manager.nextLoc
    ensures forall l :: l in self.loc ==> old(manager.nextLoc) <= l
    ensures Lang(self.Graph()) == Letters(expr) && NoReturn(self.Graph()) && LabelsSat(self.Graph())
  {
    hide TransOf, FinalOf, Letters;
    self := new Automaton.Empty(manager);
    ghost var l := self.initial;
    if IsSat(expr) {
      var end := self.AddLoc(manager, true);
      assert self.Graph().init == l;
      SetOfPush(end, self.finalLocations);
      self.finalLocations := [end] + self.finalLocations;
      assert self.Valid();
      self.CreateTransition(self.initial, end, expr);
      assert self.Graph() == ExprNfa(l, end, expr);
      assert self.loc.Keys == self.Graph().locs;
      ExprMeans(l, end, expr);
    } else {
      SingleMeans(l);
      UnsatLetters(expr);
      assert self.loc.Keys == self.Graph().locs;
    }
  }

  /** The repetition of a propositional expression: a loop on the initial location, which is final. */
  method PropositionalKleeneStar(manager: AutomataManager, expr: Label) returns (res: Automaton)
    modifies manager
    ensures fresh(res) && res.Usable(manager) && old(manager.nextLoc) <= manager.nextLoc
    ensures forall l :: l in res.loc ==> old(manager.nextLoc) <= l
    ensures Lang(res.Graph()) == Star(Letters(expr)) && Returns(res.Graph()) == Star(Letters(expr))
    ensures LabelsSat(res.Graph())
  {
    hide TransOf, FinalOf, Letters;
    res := new Automaton.Empty(manager);
    ghost var l := res.initial;
    if IsSat(expr) {
      res.CreateTransition(res.initial, res.initial, expr);
      assert res.Graph().init == l;
      LoopMeans(l, expr);
    } else {
      UnsatLetters(expr);
      NoLoopMeans(l);
    }
    res.SetLocationFinal(res.initial, true);
    assert res.Graph() == if IsSat(expr) then LoopNfa(l, expr) else Single(l, true);
    assert res.loc.Keys == res.Graph().locs;
  }

  method TrueStar(manager: AutomataManager) returns (res: Automaton)
    modifies manager
    ensures fresh(res) && res.Usable(manager) && old(manager.nextLoc) <= manager.nextLoc
    ensures forall l :: l in res.loc ==> old(manager.nextLoc) <= l
    ensures Lang(res.Graph()) == AllWords() && Returns(res.Graph()) == AllWords()
    ensures LabelsSat(res.Graph())
  {
    TrueStarIsAll();
    res := PropositionalKleeneStar(manager, True);
  }

  /** Conjunction: one operand accepts the word and the other one a prefix of it. */
  method And(manager: AutomataManager, a1: Automaton, a2: Automaton) returns (res: Automaton)
    requires a1.Usable(manager) && a2.Usable(manager)
    modifies manager
    ensures fresh(res) && res.Usable(manager) && old(manager.nextLoc) <= manager.nextLoc
    ensures forall l :: l in res.loc ==> old(manager.nextLoc) <= l
    ensures var x, y := Lang(a1.Graph()), Lang(a2.Graph());
            Lang(res.Graph()) == (Extending(x) * y) + (x * Extending(y))
    ensures NoReturn(res.Graph()) && LabelsSat(res.Graph()) && Trim(res.Graph()) && res.sink.None?
  {
    hide *;
    UsableUnpack(manager, a1);
    UsableUnpack(manager, a2);
    ghost var n0 := manager.nextLoc;
    var trueStar := TrueStar(manager);
    UsableUnpack(manager, trueStar);
    AllocatedLater(a1, trueStar, n0);
    AllocatedLater(a2, trueStar, n0);
    UsableLater(manager, a1);
    var r1 := Concat(manager, a1, trueStar);
    UsableUnpack(manager, r1);
    UsableLater(manager, a2);
    var and1 := Intersection(manager, r1, a2);
    UsableUnpack(manager, and1);
    ghost var n1 := manager.nextLoc;
    UsableLater(manager, a2);
    UsableLater(manager, trueStar);
    var r2 := Concat(manager, a2, trueStar);
    UsableLater(manager, a1);
    var and2 := Intersection(manager, a1, r2);
    UsableUnpack(manager, and2);
    AllocatedLater(and1, and2, n1);
    UsableLater(manager, and1);
    var united := Union(manager, and1, and2);
    UsableUnpack(manager, united);
    res := PruneNonAcceptingPaths(manager, united);
    ExtendingIsCat(Lang(a1.Graph()));
    ExtendingIsCat(Lang(a2.Graph()));
  }
}
