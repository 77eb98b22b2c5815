/** SEREs: their syntax, tight satisfaction, and what the compiled automata do at their initial location. */
module SereSemantics {
  import opened BoolExpr
  import opened Alphabet
  import opened Nfas
  import opened ComplementLanguage
  import opened BasicLanguage

  datatype Sere =
    | Prop(e: Label)
    | Brace(r: Sere)
    | Concat(left: Sere, right: Sere)
    | Fusion(left: Sere, right: Sere)
    | CompoundOr(left: Sere, right: Sere)
    | CompoundAnd(left: Sere, right: Sere)
    | CompoundAndAnd(left: Sere, right: Sere)
    | StandaloneStar
    | StandalonePlus
    | Star(r: Sere)
    | Plus(r: Sere)
    | Negated(r: Sere)
    | Count(r: Sere)
    | Unknown

  predicate IsPropositional(s: Sere) {
    match s
    case Prop(_) => true
    case Negated(r) => IsPropositional(r)
    case _ => false
  }

  function ToExpr(s: Sere): Label
    requires IsPropositional(s)
  {
    match s
    case Prop(e) => e
    case Negated(r) => Expr.Not(ToExpr(r))
  }

  /** The propositional expression under any number of braces. */
  function Wrapped(s: Sere): Option<Label> {
    if IsPropositional(s) then Some(ToExpr(s))
    else match s
      case Brace(r) => Wrapped(r)
      case _ => None
  }

  /** No operator on which the compiler stops with an error. */
  predicate Supported(s: Sere) {
    match s
    case Prop(_) | StandaloneStar | StandalonePlus => true
    case Brace(r) => Supported(r)
    case Star(r) => Supported(r)
    case Plus(r) => Supported(r)
    case Negated(r) => Supported(r)
    case Concat(l, r) => Supported(l) && Supported(r)
    case Fusion(l, r) => Supported(l) && Supported(r)
    case CompoundOr(l, r) => Supported(l) && Supported(r)
    case CompoundAnd(l, r) => Supported(l) && Supported(r)
    case CompoundAndAnd(l, r) => Supported(l) && Supported(r)
    case Count(_) | Unknown => false
  }

  /** Tight satisfaction of unclocked SEREs. */
  ghost function Tight(s: Sere): Language {
    match s
    case Prop(e) => Letters(e)
    case Brace(r) => Tight(r)
    case Concat(l, r) => Cat(Tight(l), Tight(r))
    case Fusion(l, r) => Fuse(Tight(l), Tight(r))
    case CompoundOr(l, r) => Tight(l) + Tight(r)
    case CompoundAnd(l, r) => (Extending(Tight(l)) * Tight(r)) + (Tight(l) * Extending(Tight(r)))
    case CompoundAndAnd(l, r) => Tight(l) * Tight(r)
    case StandaloneStar => AllWords()
    case StandalonePlus => NonemptyWords()
    case Star(r) => Nfas.Star(Tight(r))
    case Plus(r) => Nfas.Plus(Tight(r))
    case Negated(r) => if IsPropositional(r) then Letters(Expr.Not(ToExpr(r))) else Complement(Tight(r))
    case Count(_) | Unknown => iset{}
  }

  predicate HasNegation(s: Sere) {
    match s
    case Prop(_) | StandaloneStar | StandalonePlus | Count(_) | Unknown => false
    case Brace(r) => HasNegation(r)
    case Star(r) => HasNegation(r)
    case Plus(r) => HasNegation(r)
    case Negated(r) => !IsPropositional(r)
    case Concat(l, r) => HasNegation(l) || HasNegation(r)
    case Fusion(l, r) => HasNegation(l) || HasNegation(r)
    case CompoundOr(l, r) => HasNegation(l) || HasNegation(r)
    case CompoundAnd(l, r) => HasNegation(l) || HasNegation(r)
    case CompoundAndAnd(l, r) => HasNegation(l) || HasNegation(r)
  }

  /** The words on which the compiled automaton can return to its initial location. */
  ghost function Back(s: Sere): Language {
    match s
    case Brace(r) => Back(r)
    case Concat(l, r) => Back(l)
    case Fusion(l, r) => if Tight(s) == iset{} && !HasNegation(s) then iset{[]} else Back(l)
    case CompoundAndAnd(l, r) => if Tight(s) == iset{} then iset{[]} else Back(l) * Back(r)
    case StandaloneStar | StandalonePlus => AllWords()
    case Star(r) => if Wrapped(r).Some? then Nfas.Star(Letters(Wrapped(r).value)) else Cat(Nfas.Star(Tight(r)), Back(r))
    case Plus(r) => Cat(Nfas.Star(Tight(r)), Back(r))
    case _ => iset{[]}
  }

  /** The body of a star may only return to its start on words that repeat it already; an expression
      is safe whatever the braces around it. */
  ghost predicate StarSafe(s: Sere) {
    match s
    case Prop(_) | StandaloneStar | StandalonePlus => true
    case Brace(r) => StarSafe(r)
    case Star(r) => Wrapped(r).Some? || (StarSafe(r) && Back(r) <= Nfas.Star(Tight(r)))
    case Plus(r) => StarSafe(r)
    case Negated(r) => IsPropositional(r) || StarSafe(r)
    case Concat(l, r) => StarSafe(l) && StarSafe(r)
    case Fusion(l, r) => StarSafe(l) && StarSafe(r)
    case CompoundOr(l, r) => StarSafe(l) && StarSafe(r)
    case CompoundAnd(l, r) => StarSafe(l) && StarSafe(r)
    case CompoundAndAnd(l, r) => StarSafe(l) && StarSafe(r)
    case Count(_) | Unknown => true
  }

  lemma {:induction false} PropositionalTight(s: Sere)
    requires IsPropositional(s)
    ensures Tight(s) == Letters(ToExpr(s)) && Back(s) == iset{[]} && !HasNegation(s) && Supported(s) && StarSafe(s)
  {
    match s
    case Prop(_) =>
    case Negated(r) => PropositionalTight(r);
  }

  lemma {:induction false} WrappedTight(s: Sere)
    requires Wrapped(s).Some?
    ensures Tight(s) == Letters(Wrapped(s).value) && Supported(s) && StarSafe(s)
  {
    if IsPropositional(s) {
      PropositionalTight(s);
    } else {
      WrappedTight(s.r);
    }
  }

  lemma CatEmpty(x: Language, y: Language)
    requires [] in x && [] in y
    ensures [] in Cat(x, y)
  {
    var w: Word := [];
    assert w[..0] == [] && w[0..] == [];
  }

  lemma {:induction false} BackHasEmpty(s: Sere)
    ensures [] in Back(s)
  {
    match s
    case Brace(r) => BackHasEmpty(r);
    case Concat(l, r) => BackHasEmpty(l);
    case Fusion(l, r) => BackHasEmpty(l);
    case CompoundAndAnd(l, r) => BackHasEmpty(l); BackHasEmpty(r);
    case Star(r) =>
      if Wrapped(r).None? {
        BackHasEmpty(r);
        CatEmpty(Nfas.Star(Tight(r)), Back(r));
      }
    case Plus(r) =>
      BackHasEmpty(r);
      CatEmpty(Nfas.Star(Tight(r)), Back(r));
    case _ =>
  }

  lemma CatMonotone(x: Language, y: Language, z: Language)
    requires y <= z
    ensures Cat(x, y) <= Cat(x, z)
  {
    forall w | w in Cat(x, y) ensures w in Cat(x, z) {
      var i :| 0 <= i <= |w| && w[..i] in x && w[i..] in y;
    }
  }

  lemma CatOnlyEmpty(x: Language)
    ensures Cat(x, iset{[]}) == x
  {
    forall w ensures w in Cat(x, iset{[]}) <==> w in x {
      if i :| 0 <= i <= |w| && w[..i] in x && w[i..] in iset{[]} {
        assert w[..i] == w;
      }
      if w in x {
        assert w[..|w|] == w && w[|w|..] == [];
      }
    }
  }

  // ----- What the compiled automata accept

  /** The words that the compiled automaton accepts, safe or not.  The star of a body also accepts a
      repetition followed by a word on which the body returns to its start. */
  ghost function Accepted(s: Sere): Language {
    match s
    case Prop(e) => Letters(e)
    case Brace(r) => Accepted(r)
    case Concat(l, r) => Cat(Accepted(l), Accepted(r))
    case Fusion(l, r) => Fuse(Accepted(l), Accepted(r))
    case CompoundOr(l, r) => Accepted(l) + Accepted(r)
    case CompoundAnd(l, r) => (Extending(Accepted(l)) * Accepted(r)) + (Accepted(l) * Extending(Accepted(r)))
    case CompoundAndAnd(l, r) => Accepted(l) * Accepted(r)
    case StandaloneStar => AllWords()
    case StandalonePlus => NonemptyWords()
    case Star(r) => if Wrapped(r).Some? then Nfas.Star(Letters(Wrapped(r).value)) else Cat(Nfas.Star(Accepted(r)), Returned(r))
    case Plus(r) => Nfas.Plus(Accepted(r))
    case Negated(r) => if IsPropositional(r) then Letters(Expr.Not(ToExpr(r))) else Complement(Accepted(r))
    case Count(_) | Unknown => iset{}
  }

  /** The words on which it returns to its initial location.  Pruning what accepts nothing leaves the
      initial location alone. */
  ghost function Returned(s: Sere): Language {
    match s
    case Brace(r) => Returned(r)
    case Concat(l, r) => Returned(l)
    case Fusion(l, r) => if Fuse(Accepted(l), Accepted(r)) == iset{} then iset{[]} else Returned(l)
    case CompoundAndAnd(l, r) => if Accepted(l) * Accepted(r) == iset{} then iset{[]} else Returned(l) * Returned(r)
    case StandaloneStar | StandalonePlus => AllWords()
    case Star(r) => if Wrapped(r).Some? then Nfas.Star(Letters(Wrapped(r).value)) else Cat(Nfas.Star(Accepted(r)), Returned(r))
    case Plus(r) => Cat(Nfas.Star(Accepted(r)), Returned(r))
    case _ => iset{[]}
  }

  /** The labels of a complement may reach the result: conjunctions only create satisfiable ones. */
  predicate Exposed(s: Sere) {
    match s
    case Brace(r) => Exposed(r)
    case Star(r) => Exposed(r)
    case Plus(r) => Exposed(r)
    case Negated(r) => !IsPropositional(r)
    case Concat(l, r) => Exposed(l) || Exposed(r)
    case Fusion(l, r) => Exposed(l) || Exposed(r)
    case CompoundOr(l, r) => Exposed(l) || Exposed(r)
    case _ => false
  }

  /** Every fusion accepts something, or has satisfiable labels only: then the graph tells what is pruned. */
  ghost predicate Settled(s: Sere) {
    match s
    case Prop(_) | StandaloneStar | StandalonePlus | Count(_) | Unknown => true
    case Brace(r) => Settled(r)
    case Star(r) => Settled(r)
    case Plus(r) => Settled(r)
    case Negated(r) => Settled(r)
    case Concat(l, r) => Settled(l) && Settled(r)
    case Fusion(l, r) => Settled(l) && Settled(r) && (Fuse(Accepted(l), Accepted(r)) != iset{} || !Exposed(s))
    case CompoundOr(l, r) => Settled(l) && Settled(r)
    case CompoundAnd(l, r) => Settled(l) && Settled(r)
    case CompoundAndAnd(l, r) => Settled(l) && Settled(r)
  }

  /** Without a negation, everything is settled. */
  lemma {:induction false} PositiveIsSettled(s: Sere)
    requires !HasNegation(s)
    ensures Settled(s) && !Exposed(s)
  {
    match s
    case Prop(_) | StandaloneStar | StandalonePlus | Count(_) | Unknown =>
    case Brace(r) => PositiveIsSettled(r);
    case Star(r) => PositiveIsSettled(r);
    case Plus(r) => PositiveIsSettled(r);
    case Negated(r) => PropositionalTight(r); PropositionalSettled(r);
    case Concat(l, r) => PositiveIsSettled(l); PositiveIsSettled(r);
    case Fusion(l, r) => PositiveIsSettled(l); PositiveIsSettled(r);
    case CompoundOr(l, r) => PositiveIsSettled(l); PositiveIsSettled(r);
    case CompoundAnd(l, r) => PositiveIsSettled(l); PositiveIsSettled(r);
    case CompoundAndAnd(l, r) => PositiveIsSettled(l); PositiveIsSettled(r);
  }

  lemma {:induction false} PropositionalSettled(s: Sere)
    requires IsPropositional(s)
    ensures Settled(s) && !Exposed(s) && Accepted(s) == Letters(ToExpr(s)) && Returned(s) == iset{[]}
  {
    match s
    case Prop(_) =>
    case Negated(r) => PropositionalSettled(r);
  }

  lemma {:induction false} ReturnedHasEmpty(s: Sere)
    ensures [] in Returned(s)
  {
    match s
    case Brace(r) => ReturnedHasEmpty(r);
    case Concat(l, r) => ReturnedHasEmpty(l);
    case Fusion(l, r) => ReturnedHasEmpty(l);
    case CompoundAndAnd(l, r) => ReturnedHasEmpty(l); ReturnedHasEmpty(r);
    case Star(r) =>
      if Wrapped(r).None? {
        ReturnedHasEmpty(r);
        CatEmpty(Nfas.Star(Accepted(r)), Returned(r));
      }
    case Plus(r) =>
      ReturnedHasEmpty(r);
      CatEmpty(Nfas.Star(Accepted(r)), Returned(r));
    case _ =>
  }

  // ----- Nothing is missed

  lemma CatBoth(x: Language, y: Language, x': Language, y': Language)
    requires x <= x' && y <= y'
    ensures Cat(x, y) <= Cat(x', y')
  {
    forall w | w in Cat(x, y) ensures w in Cat(x', y') {
      var i :| 0 <= i <= |w| && w[..i] in x && w[i..] in y;
    }
  }

  lemma FuseBoth(x: Language, y: Language, x': Language, y': Language)
    requires x <= x' && y <= y'
    ensures Fuse(x, y) <= Fuse(x', y')
  {
  }

  lemma ExtendingBoth(x: Language, x': Language)
    requires x <= x'
    ensures Extending(x) <= Extending(x')
  {
  }

  lemma {:induction false} StarBoth(x: Language, x': Language, w: Word)
    requires x <= x' && InStar(x, w)
    ensures InStar(x', w)
    decreases |w|
  {
    if w != [] {
      var i :| 0 < i <= |w| && w[..i] in x && InStar(x, w[i..]);
      StarBoth(x, x', w[i..]);
    }
  }

  lemma StarsBoth(x: Language, x': Language)
    requires x <= x'
    ensures Nfas.Star(x) <= Nfas.Star(x') && Nfas.Plus(x) <= Nfas.Plus(x')
  {
    forall w | InStar(x, w) ensures InStar(x', w) {
      StarBoth(x, x', w);
    }
    CatBoth(x, Nfas.Star(x), x', Nfas.Star(x'));
  }

  /** Without a negation, every word that satisfies the SERE tightly is accepted, safe or not. */
  lemma {:induction false} TightIsAccepted(s: Sere)
    requires !HasNegation(s)
    ensures Tight(s) <= Accepted(s)
  {
    hide Cat, Fuse, Extending, Nfas.Star, Nfas.Plus;
    match s
    case Prop(_) | StandaloneStar | StandalonePlus | Count(_) | Unknown | Negated(_) =>
    case Brace(r) => TightIsAccepted(r);
    case Star(r) =>
      TightIsAccepted(r);
      if Wrapped(r).Some? {
        WrappedTight(r);
      } else {
        StarsBoth(Tight(r), Accepted(r));
        ReturnedHasEmpty(r);
        CatWithEmpty(Nfas.Star(Accepted(r)), Returned(r));
      }
    case Plus(r) => TightIsAccepted(r); StarsBoth(Tight(r), Accepted(r));
    case Concat(l, r) => TightIsAccepted(l); TightIsAccepted(r); CatBoth(Tight(l), Tight(r), Accepted(l), Accepted(r));
    case Fusion(l, r) => TightIsAccepted(l); TightIsAccepted(r); FuseBoth(Tight(l), Tight(r), Accepted(l), Accepted(r));
    case CompoundOr(l, r) => TightIsAccepted(l); TightIsAccepted(r);
    case CompoundAnd(l, r) =>
      TightIsAccepted(l);
      TightIsAccepted(r);
      ExtendingBoth(Tight(l), Accepted(l));
      ExtendingBoth(Tight(r), Accepted(r));
    case CompoundAndAnd(l, r) => TightIsAccepted(l); TightIsAccepted(r);
  }

  /** Every word of the body ends with a letter that satisfies q. */
  lemma BodyNeedsLast(p: Alphabet.Prop, q: Alphabet.Prop)
    requires p != q
    ensures [{p}] !in Nfas.Star(Cat(Nfas.Star(Letters(Atom(p))), Letters(Atom(q))))
  {
    var w: Word := [{p}];
    var body := Cat(Nfas.Star(Letters(Atom(p))), Letters(Atom(q)));
    forall i | 0 <= i <= |w| && w[..i] in Nfas.Star(Letters(Atom(p))) ensures w[i..] !in Letters(Atom(q)) {
      assert i == 0 ==> w[i..] == w;
    }
    assert w !in body;
    forall i | 0 < i <= |w| ensures w[..i] !in body {
      assert w[..1] == w;
    }
  }

  /** The star of a SERE that begins with a repetition accepts too much: {p[*]; q}[*] accepts p. */
  lemma StarUnsafe(p: Alphabet.Prop, q: Alphabet.Prop)
    requires p != q
    ensures var body := Concat(Star(Prop(Atom(p))), Prop(Atom(q)));
            && StarSafe(body) && Supported(body) && !HasNegation(body) && Wrapped(body).None?
            && [{p}] in Back(body) && [{p}] !in Tight(Star(body))
            && [{p}] in Accepted(Star(body)) && Tight(Star(body)) <= Accepted(Star(body))
  {
    var head, last := Star(Prop(Atom(p))), Prop(Atom(q));
    var w: Word := [{p}];
    BodyNeedsLast(p, q);
    PropStar(Atom(p));
    PropAlone(Atom(q));
    assert Tight(Concat(head, last)) == Cat(Tight(head), Tight(last));
    assert w[..1] in Letters(Atom(p)) && InStar(Letters(Atom(p)), w[1..]);
    var body := Concat(head, last);
    TightIsAccepted(Star(body));
    StarAccepts(body, w);
  }

  /** A star accepts whatever leads its body back to its start. */
  lemma StarAccepts(r: Sere, w: Word)
    requires Wrapped(r).None? && w in Returned(r)
    ensures w in Accepted(Star(r))
  {
    assert w[..0] == [] && w[0..] == w;
    assert InStar(Accepted(r), []);
  }

  lemma PropAlone(e: Label)
    ensures Tight(Prop(e)) == Letters(e) && StarSafe(Prop(e)) && !HasNegation(Prop(e)) && Wrapped(Prop(e)) == Some(e)
  {
  }

  lemma PropStar(e: Label)
    ensures Tight(Star(Prop(e))) == Nfas.Star(Letters(e)) && Back(Star(Prop(e))) == Nfas.Star(Letters(e))
    ensures StarSafe(Star(Prop(e))) && !HasNegation(Star(Prop(e))) && Wrapped(Star(Prop(e))).None?
  {
    PropAlone(e);
  }
}

/** The contract of the compiler, operator by operator. */
module SereContracts {
  import opened BoolExpr
  import opened Alphabet
  import opened Nfas
  import Kleene = KleeneLanguage
  import opened ComplementLanguage
  import opened BasicLanguage
  import opened SereSemantics

  /** What is known of an automaton: the words it accepts, the words on which it returns to its initial
      location, and whether all its labels are satisfiable. */
  datatype Meaning = Meaning(lang: Language, back: Language, sat: bool)

  predicate HasTwo(s: Sere) {
    s.Concat? || s.Fusion? || s.CompoundOr? || s.CompoundAnd? || s.CompoundAndAnd?
  }

  /** What an operator makes of two automata.  Only when a fusion accepts nothing does it depend on its
      graph whether its returns are pruned. */
  ghost predicate Joins(s: Sere, x: Meaning, y: Meaning, m: Meaning)
    requires HasTwo(s)
  {
    match s
    case Concat(_, _) => m.lang == Cat(x.lang, y.lang) && m.back == x.back && (x.sat && y.sat ==> m.sat)
    case Fusion(_, _) =>
      && m.lang == Fuse(x.lang, y.lang)
      && (m.lang != iset{} ==> m.back == x.back)
      && (m.lang == iset{} ==> m.back == x.back || m.back == iset{[]})
      && (x.sat && y.sat ==> m.sat && (m.lang == iset{} ==> m.back == iset{[]}))
    case CompoundOr(_, _) => m.lang == x.lang + y.lang && m.back == iset{[]} && (x.sat && y.sat ==> m.sat)
    case CompoundAnd(_, _) =>
      m.lang == (Extending(x.lang) * y.lang) + (x.lang * Extending(y.lang)) && m.back == iset{[]} && m.sat
    case CompoundAndAnd(_, _) =>
      m.lang == x.lang * y.lang && m.back == (if m.lang == iset{} then iset{[]} else x.back * y.back) && m.sat
  }

  /** What an operator makes of one automaton.  Complements are clean if their labels are satisfiable. */
  ghost predicate Wraps(s: Sere, clean: bool, x: Meaning, m: Meaning)
    requires s.Star? || s.Plus? || s.Negated?
  {
    match s
    case Star(_) => m.lang == m.back == Cat(Nfas.Star(x.lang), x.back) && (x.sat ==> m.sat)
    case Plus(_) => m.lang == Nfas.Plus(x.lang) && m.back == Cat(Nfas.Star(x.lang), x.back) && (x.sat ==> m.sat)
    case Negated(_) => m.lang == Complement(x.lang) && m.back == iset{[]} && (clean ==> m.sat)
  }

  /** What the compiled automaton is: language equations over the syntax. */
  ghost predicate Denotes(s: Sere, clean: bool, m: Meaning) {
    if IsPropositional(s) then m == Meaning(Letters(ToExpr(s)), iset{[]}, true)
    else match s
      case Brace(r) => Denotes(r, clean, m)
      case StandaloneStar => m == Meaning(AllWords(), AllWords(), true)
      case StandalonePlus => m == Meaning(NonemptyWords(), AllWords(), true)
      case Star(r) =>
        if Wrapped(r).Some? then m == Meaning(Nfas.Star(Letters(Wrapped(r).value)), Nfas.Star(Letters(Wrapped(r).value)), true)
        else exists x :: Denotes(r, clean, x) && Wraps(s, clean, x, m)
      case Plus(r) => exists x :: Denotes(r, clean, x) && Wraps(s, clean, x, m)
      case Negated(r) => exists x :: Denotes(r, clean, x) && Wraps(s, clean, x, m)
      case Concat(l, r) => exists x, y :: Denotes(l, clean, x) && Denotes(r, clean, y) && Joins(s, x, y, m)
      case Fusion(l, r) => exists x, y :: Denotes(l, clean, x) && Denotes(r, clean, y) && Joins(s, x, y, m)
      case CompoundOr(l, r) => exists x, y :: Denotes(l, clean, x) && Denotes(r, clean, y) && Joins(s, x, y, m)
      case CompoundAnd(l, r) => exists x, y :: Denotes(l, clean, x) && Denotes(r, clean, y) && Joins(s, x, y, m)
      case CompoundAndAnd(l, r) => exists x, y :: Denotes(l, clean, x) && Denotes(r, clean, y) && Joins(s, x, y, m)
      case Count(_) | Unknown => false
  }

  lemma JoinedParts(s: Sere, clean: bool, m: Meaning) returns (x: Meaning, y: Meaning)
    requires HasTwo(s) && Denotes(s, clean, m)
    ensures Denotes(s.left, clean, x) && Denotes(s.right, clean, y) && Joins(s, x, y, m)
  {
    hide Joins;
    x, y :| Denotes(s.left, clean, x) && Denotes(s.right, clean, y) && Joins(s, x, y, m);
  }

  lemma WrappedPart(s: Sere, clean: bool, m: Meaning) returns (x: Meaning)
    requires ((s.Star? && Wrapped(s.r).None?) || s.Plus? || (s.Negated? && !IsPropositional(s))) && Denotes(s, clean, m)
    ensures Denotes(s.r, clean, x) && Wraps(s, clean, x, m)
  {
    hide Wraps;
    x :| Denotes(s.r, clean, x) && Wraps(s, clean, x, m);
  }

  lemma JoinsDenote(s: Sere, clean: bool, x: Meaning, y: Meaning, m: Meaning)
    requires HasTwo(s) && Denotes(s.left, clean, x) && Denotes(s.right, clean, y) && Joins(s, x, y, m)
    ensures Denotes(s, clean, m)
  {
    hide Joins;
  }

  // ----- The language of every SERE

  /** With satisfiable labels, or when everything is settled, the words accepted and the returns are exactly
      those of the equations. */
  ghost predicate IsExact(s: Sere, clean: bool, m: Meaning) {
    && (clean || !Exposed(s) ==> m.sat)
    && (clean || Settled(s) ==> m.lang == Accepted(s) && m.back == Returned(s))
  }

  lemma JoinsExact(s: Sere, clean: bool, x: Meaning, y: Meaning, m: Meaning)
    requires HasTwo(s) && IsExact(s.left, clean, x) && IsExact(s.right, clean, y) && Joins(s, x, y, m)
    ensures IsExact(s, clean, m)
  {
    hide Cat, Fuse, Extending;
  }

  lemma WrapsExact(s: Sere, clean: bool, x: Meaning, m: Meaning)
    requires (s.Star? && Wrapped(s.r).None?) || s.Plus? || (s.Negated? && !IsPropositional(s))
    requires IsExact(s.r, clean, x) && Wraps(s, clean, x, m)
    ensures IsExact(s, clean, m)
  {
    hide Cat, Nfas.Star, Nfas.Plus, Complement;
  }

  lemma {:induction false} DenotesExactly(s: Sere, clean: bool, m: Meaning)
    requires Denotes(s, clean, m)
    ensures IsExact(s, clean, m)
  {
    if IsPropositional(s) {
      PropositionalSettled(s);
    } else if HasTwo(s) {
      var x, y := JoinedParts(s, clean, m);
      hide Denotes, IsExact, Joins;
      DenotesExactly(s.left, clean, x);
      DenotesExactly(s.right, clean, y);
      JoinsExact(s, clean, x, y, m);
    } else if s.Brace? {
      DenotesExactly(s.r, clean, m);
    } else if s.Plus? || s.Negated? || (s.Star? && Wrapped(s.r).None?) {
      var x := WrappedPart(s, clean, m);
      hide Denotes, IsExact, Wraps;
      DenotesExactly(s.r, clean, x);
      WrapsExact(s, clean, x, m);
    }
  }

  lemma ExactMeans(s: Sere, clean: bool, m: Meaning)
    requires IsExact(s, clean, m)
    ensures clean || !Exposed(s) ==> m.sat
    ensures clean || Settled(s) ==> m.lang == Accepted(s) && m.back == Returned(s)
  {
  }

  /** The equations have a solution for every supported SERE. */
  lemma {:induction false} AcceptedDenotes(s: Sere)
    requires Supported(s)
    ensures Denotes(s, true, Meaning(Accepted(s), Returned(s), true))
  {
    var m := Meaning(Accepted(s), Returned(s), true);
    if IsPropositional(s) {
      PropositionalSettled(s);
    } else if HasTwo(s) {
      AcceptedDenotes(s.left);
      AcceptedDenotes(s.right);
      var x, y := Meaning(Accepted(s.left), Returned(s.left), true), Meaning(Accepted(s.right), Returned(s.right), true);
      AcceptedJoins(s, x, y, m);
      JoinsDenote(s, true, x, y, m);
    } else if s.Brace? {
      AcceptedDenotes(s.r);
    } else if s.Plus? || s.Negated? || (s.Star? && Wrapped(s.r).None?) {
      AcceptedDenotes(s.r);
      var x := Meaning(Accepted(s.r), Returned(s.r), true);
      assert Wraps(s, true, x, m);
    }
  }

  lemma AcceptedJoins(s: Sere, x: Meaning, y: Meaning, m: Meaning)
    requires HasTwo(s) && m == Meaning(Accepted(s), Returned(s), true)
    requires x == Meaning(Accepted(s.left), Returned(s.left), true) && y == Meaning(Accepted(s.right), Returned(s.right), true)
    ensures Joins(s, x, y, m)
  {
    hide Cat, Fuse, Extending;
  }

  // ----- Tight satisfaction

  /** The empty word leads back to the start. */
  lemma {:induction false} EmptyReturns(s: Sere, clean: bool, m: Meaning)
    requires Denotes(s, clean, m)
    ensures [] in m.back
  {
    if IsPropositional(s) {
    } else if HasTwo(s) {
      var x, y := JoinedParts(s, clean, m);
      hide Denotes, Cat, Fuse, Extending;
      EmptyReturns(s.left, clean, x);
      EmptyReturns(s.right, clean, y);
    } else if s.Brace? {
      EmptyReturns(s.r, clean, m);
    } else if s.Plus? || s.Negated? || (s.Star? && Wrapped(s.r).None?) {
      var x := WrappedPart(s, clean, m);
      hide Denotes, Nfas.Star, Nfas.Plus, Complement, Cat;
      EmptyReturns(s.r, clean, x);
      CatEmpty(Nfas.Star(x.lang), x.back);
    }
  }

  /** What is promised of a safe SERE. */
  ghost predicate IsTight(s: Sere, m: Meaning) {
    m.lang == Tight(s) && m.back <= Back(s) && (!HasNegation(s) ==> m.sat && m.back == Back(s))
  }

  lemma JoinsTight(s: Sere, x: Meaning, y: Meaning, m: Meaning)
    requires HasTwo(s) && IsTight(s.left, x) && IsTight(s.right, y) && Joins(s, x, y, m)
    ensures IsTight(s, m)
  {
    BackHasEmpty(s.left);
    BackHasEmpty(s.right);
    hide Cat, Fuse, Extending;
  }

  lemma WrapsTight(s: Sere, clean: bool, x: Meaning, m: Meaning)
    requires (s.Star? && Wrapped(s.r).None?) || s.Plus? || (s.Negated? && !IsPropositional(s))
    requires StarSafe(s) && IsTight(s.r, x) && Wraps(s, clean, x, m) && [] in x.back
    ensures IsTight(s, m)
  {
    hide Cat, Nfas.Star, Nfas.Plus, Complement;
    CatMonotone(Nfas.Star(x.lang), x.back, Back(s.r));
    if s.Star? {
      Kleene.StarExact(x.lang, x.back);
    }
  }

  /** If every starred body is safe, the language is tight satisfaction, and the returns are bounded. */
  lemma {:induction false} DenotesTight(s: Sere, clean: bool, m: Meaning)
    requires Denotes(s, clean, m) && StarSafe(s)
    ensures IsTight(s, m) && m.lang == Tight(s)
  {
    if IsPropositional(s) {
      PropositionalTight(s);
    } else if HasTwo(s) {
      var x, y := JoinedParts(s, clean, m);
      hide Denotes, IsTight, Joins;
      DenotesTight(s.left, clean, x);
      DenotesTight(s.right, clean, y);
      JoinsTight(s, x, y, m);
    } else if s.Brace? {
      DenotesTight(s.r, clean, m);
    } else if s.Star? && Wrapped(s.r).Some? {
      WrappedTight(s.r);
    } else if s.Plus? || s.Negated? || s.Star? {
      var x := WrappedPart(s, clean, m);
      hide Denotes, IsTight, Wraps;
      DenotesTight(s.r, clean, x);
      EmptyReturns(s.r, clean, x);
      WrapsTight(s, clean, x, m);
    }
  }

  /** For safe SEREs the equations give tight satisfaction. */
  lemma AcceptedIsTight(s: Sere)
    requires Supported(s) && StarSafe(s)
    ensures Accepted(s) == Tight(s) && Returned(s) <= Back(s)
    ensures !HasNegation(s) ==> Returned(s) == Back(s)
  {
    AcceptedDenotes(s);
    hide Denotes;
    DenotesTight(s, true, Meaning(Accepted(s), Returned(s), true));
  }

  /** What the star of a safe body accepts, and when this is tight satisfaction. */
  ghost predicate StarExactly(s: Sere, lang: Language) {
    s.Star? && Wrapped(s.r).None? && StarSafe(s.r) && !HasNegation(s.r) ==>
      && lang == Cat(Nfas.Star(Tight(s.r)), Back(s.r))
      && (lang == Tight(s) <==> Back(s.r) <= Nfas.Star(Tight(s.r)))
  }

  lemma StarIsExact(s: Sere, clean: bool, m: Meaning)
    requires Denotes(s, clean, m)
    ensures StarExactly(s, m.lang)
  {
    if s.Star? && Wrapped(s.r).None? && StarSafe(s.r) && !HasNegation(s.r) {
      var x := WrappedPart(s, clean, m);
      DenotesTight(s.r, clean, x);
      BackHasEmpty(s.r);
      hide Denotes, Nfas.Star, Cat;
      Kleene.StarExact(Tight(s.r), Back(s.r));
    }
  }

  /** The star of any body: what it accepts, and exactly when this is the repetition of what the body accepts. */
  lemma StarOfAny(r: Sere)
    requires Wrapped(r).None?
    ensures Accepted(Star(r)) == Returned(Star(r)) == Cat(Nfas.Star(Accepted(r)), Returned(r))
    ensures Accepted(Star(r)) == Nfas.Star(Accepted(r)) <==> Returned(r) <= Nfas.Star(Accepted(r))
  {
    ReturnedHasEmpty(r);
    hide Nfas.Star, Cat;
    Kleene.StarExact(Accepted(r), Returned(r));
  }

  /** All that a denotation says. */
  lemma DenotesFacts(s: Sere, clean: bool, m: Meaning)
    requires Denotes(s, clean, m)
    ensures clean || Settled(s) ==> m.lang == Accepted(s) && m.back == Returned(s)
    ensures StarSafe(s) ==> m.lang == Tight(s)
    ensures !HasNegation(s) ==> Tight(s) <= m.lang
    ensures StarExactly(s, m.lang)
  {
    hide *;
    DenotesExactly(s, clean, m);
    ExactMeans(s, clean, m);
    StarIsExact(s, clean, m);
    if StarSafe(s) {
      DenotesTight(s, clean, m);
    }
    if !HasNegation(s) {
      PositiveIsSettled(s);
      TightIsAccepted(s);
    }
  }

  // ----- The compiler, operator by operator

  lemma ExprDenotes(s: Sere, clean: bool, e: Label)
    requires IsPropositional(s) && ToExpr(s) == e
    ensures Denotes(s, clean, Meaning(Letters(e), iset{[]}, true)) && Supported(s)
  {
    PropositionalTight(s);
  }

  lemma BraceDenotes(s: Sere, clean: bool, m: Meaning)
    requires s.Brace? && Denotes(s.r, clean, m)
    ensures Denotes(s, clean, m)
  {
  }

  lemma ConcatDenotes(s: Sere, clean: bool, x: Meaning, y: Meaning, m: Meaning)
    requires s.Concat? && Denotes(s.left, clean, x) && Denotes(s.right, clean, y)
    requires m.lang == Cat(x.lang, y.lang) && m.back == x.back && (x.sat && y.sat ==> m.sat)
    ensures Denotes(s, clean, m)
  {
    assert Joins(s, x, y, m);
    hide Joins;
  }

  lemma FusionDenotes(s: Sere, clean: bool, x: Meaning, y: Meaning, m: Meaning)
    requires s.Fusion? && Denotes(s.left, clean, x) && Denotes(s.right, clean, y)
    requires m.lang == Fuse(x.lang, y.lang) && (m.lang != iset{} ==> m.back == x.back)
    requires m.back == x.back || m.back == iset{[]}
    requires x.sat && y.sat ==> m.sat && m.back == if m.lang == iset{} then iset{[]} else x.back
    ensures Denotes(s, clean, m)
  {
    assert Joins(s, x, y, m);
    hide Joins;
  }

  lemma OrDenotes(s: Sere, clean: bool, x: Meaning, y: Meaning, m: Meaning)
    requires s.CompoundOr? && Denotes(s.left, clean, x) && Denotes(s.right, clean, y)
    requires m.lang == x.lang + y.lang && m.back == iset{[]} && (x.sat && y.sat ==> m.sat)
    ensures Denotes(s, clean, m)
  {
    assert Joins(s, x, y, m);
    hide Joins;
  }

  lemma AndDenotes(s: Sere, clean: bool, x: Meaning, y: Meaning, m: Meaning)
    requires s.CompoundAnd? && Denotes(s.left, clean, x) && Denotes(s.right, clean, y)
    requires m.lang == (Extending(x.lang) * y.lang) + (x.lang * Extending(y.lang)) && m.back == iset{[]} && m.sat
    ensures Denotes(s, clean, m)
  {
    assert Joins(s, x, y, m);
    hide Joins;
  }

  lemma AndAndDenotes(s: Sere, clean: bool, x: Meaning, y: Meaning, m: Meaning)
    requires s.CompoundAndAnd? && Denotes(s.left, clean, x) && Denotes(s.right, clean, y)
    requires m.lang == x.lang * y.lang && m.back == (if m.lang == iset{} then iset{[]} else x.back * y.back) && m.sat
    ensures Denotes(s, clean, m)
  {
    assert Joins(s, x, y, m);
    hide Joins;
  }

  lemma PlusDenotes(s: Sere, clean: bool, x: Meaning, m: Meaning)
    requires s.Plus? && Denotes(s.r, clean, x)
    requires m.lang == Nfas.Plus(x.lang) && m.back == Cat(Nfas.Star(x.lang), x.back) && (x.sat ==> m.sat)
    ensures Denotes(s, clean, m)
  {
    assert Wraps(s, clean, x, m);
    hide Wraps;
  }

  lemma StarDenotes(s: Sere, clean: bool, x: Meaning, m: Meaning)
    requires s.Star? && Wrapped(s.r).None? && Denotes(s.r, clean, x)
    requires m.lang == m.back == Cat(Nfas.Star(x.lang), x.back) && (x.sat ==> m.sat)
    ensures Denotes(s, clean, m)
  {
    assert Wraps(s, clean, x, m);
    hide Wraps;
  }

  lemma WrappedDenotes(s: Sere, clean: bool, e: Label)
    requires s.Star? && Wrapped(s.r) == Some(e)
    ensures Denotes(s, clean, Meaning(Nfas.Star(Letters(e)), Nfas.Star(Letters(e)), true)) && Supported(s)
  {
    WrappedTight(s.r);
  }

  lemma NegatedDenotes(s: Sere, clean: bool, x: Meaning, m: Meaning)
    requires s.Negated? && !IsPropositional(s) && Denotes(s.r, clean, x)
    requires m.lang == Complement(x.lang) && m.back == iset{[]} && (clean ==> m.sat)
    ensures Denotes(s, clean, m)
  {
    assert Wraps(s, clean, x, m);
    hide Wraps;
  }

  lemma AloneDenotes(s: Sere, clean: bool)
    requires s.StandaloneStar? || s.StandalonePlus?
    ensures Denotes(s, clean, Meaning(if s.StandaloneStar? then AllWords() else NonemptyWords(), AllWords(), true)) && Supported(s)
  {
  }

  lemma PropFacts(e: Label)
    ensures IsPropositional(Prop(e)) && ToExpr(Prop(e)) == e
  {
  }

  lemma NothingIsFalse()
    ensures Letters(Expr.False) == iset{}
  {
  }

  lemma SupportedParts(s: Sere)
    ensures s.Concat? || s.Fusion? || s.CompoundOr? || s.CompoundAnd? || s.CompoundAndAnd? ==>
              (Supported(s) <==> Supported(s.left) && Supported(s.right))
    ensures s.Brace? || s.Plus? || s.Star? || s.Negated? ==> (Supported(s) <==> Supported(s.r))
    ensures s.Count? || s.Unknown? ==> !Supported(s)
  {
  }
}

module SereCompiler {
  import opened BoolExpr
  import opened Alphabet
  import opened Nfas
  import opened Automata
  import opened CopyGraphs
  import opened BasicLanguage
  import opened SereSemantics
  import opened SereContracts
  import Basics
  import Concats
  import Fusions
  import Inclusion
  import Intersections
  import Kleenes
  import Unions

  /** Look for a propositional expression under braces. */
  method GetWrappedPropositional(sere: Sere) returns (e: Option<Label>)
    ensures e == Wrapped(sere)
  {
    var s := sere;
    while s.Brace? && !IsPropositional(s)
      invariant Wrapped(s) == Wrapped(sere)
      decreases s
    {
      s := s.r;
    }
    e := if IsPropositional(s) then Some(ToExpr(s)) else None;
  }

  /** The complements of the manager's algorithm have satisfiable labels. */
  ghost predicate Clean(manager: AutomataManager) {
    manager.algorithm == AlphabetBased
  }

  /** What an automaton is. */
  ghost function MeaningOf(a: Automaton): Meaning
    reads a
  {
    Meaning(Lang(a.Graph()), Returns(a.Graph()), LabelsSat(a.Graph()))
  }

  /** Compile both operands of an operator; their locations are disjoint. */
  method CreateOperands(manager: AutomataManager, s: Sere) returns (a1: Option<Automaton>, a2: Option<Automaton>)
    requires HasTwo(s)
    modifies manager
    ensures old(manager.nextLoc) <= manager.nextLoc
    ensures a1.Some? && a2.Some? <==> Supported(s.left) && Supported(s.right)
    ensures a1.Some? && a2.Some? ==>
              && fresh(a1.value) && fresh(a2.value) && a1.value.Usable(manager) && a2.value.Usable(manager)
              && a1.value.loc.Keys !! a2.value.loc.Keys
              && Denotes(s.left, Clean(manager), MeaningOf(a1.value))
              && Denotes(s.right, Clean(manager), MeaningOf(a2.value))
    decreases s, 0
  {
    hide Denotes, Supported, Automaton.Usable, Automaton.Graph, Lang, Returns, LabelsSat;
    a2 := None;
    a1 := CreateFromSere(manager, s.left);
    if a1.Some? {
      UsableUnpack(manager, a1.value);
      ghost var n := manager.nextLoc;
      a2 := CreateFromSere(manager, s.right);
      if a2.Some? {
        AllocatedLater(a1.value, a2.value, n);
        UsableLater(manager, a1.value);
      }
    }
  }

  /** Compile an operator with two operands. */
  method CreateFromTwo(manager: AutomataManager, s: Sere) returns (res: Option<Automaton>)
    requires s.Concat? || s.Fusion? || s.CompoundOr? || s.CompoundAnd? || s.CompoundAndAnd?
    modifies manager
    ensures old(manager.nextLoc) <= manager.nextLoc
    ensures res.Some? <==> Supported(s)
    ensures res.Some? ==> fresh(res.value) && res.value.Usable(manager) && forall l :: l in res.value.loc ==> old(manager.nextLoc) <= l
    ensures res.Some? ==> Denotes(s, Clean(manager), MeaningOf(res.value))
    decreases s, 1
  {
    hide *;
    SupportedParts(s);
    IsTwo(s);
    var o1, o2 := CreateOperands(manager, s);
    res := None;
    if o1.Some? && o2.Some? {
      var a1, a2 := o1.value, o2.value;
      ghost var clean, x, y := Clean(manager), MeaningOf(a1), MeaningOf(a2);
      MeaningIs(a1);
      MeaningIs(a2);
      var a;
      match s {
        case Concat(_, _) =>
          a := Concats.Concat(manager, a1, a2);
          MeaningIs(a);
          ConcatDenotes(s, clean, x, y, MeaningOf(a));
        case Fusion(_, _) =>
          a := Fusions.Fusion(manager, a1, a2);
          MeaningIs(a);
          FusionDenotes(s, clean, x, y, MeaningOf(a));
        case CompoundOr(_, _) =>
          a := Unions.Union(manager, a1, a2);
          NoReturnReturns(a.Graph());
          MeaningIs(a);
          OrDenotes(s, clean, x, y, MeaningOf(a));
        case CompoundAnd(_, _) =>
          a := Basics.And(manager, a1, a2);
          NoReturnReturns(a.Graph());
          MeaningIs(a);
          AndDenotes(s, clean, x, y, MeaningOf(a));
        case CompoundAndAnd(_, _) =>
          a := Intersections.Intersection(manager, a1, a2);
          MeaningIs(a);
          AndAndDenotes(s, clean, x, y, MeaningOf(a));
      }
      res := Some(a);
    }
  }

  lemma MeaningIs(a: Automaton)
    ensures MeaningOf(a) == Meaning(Lang(a.Graph()), Returns(a.Graph()), LabelsSat(a.Graph()))
  {
    hide Automaton.Graph, Lang, Returns, LabelsSat;
  }

  /** Compile a repetition. */
  method CreateFromRepeated(manager: AutomataManager, s: Sere) returns (res: Option<Automaton>)
    requires s.StandaloneStar? || s.StandalonePlus? || s.Star? || s.Plus? || s.Count?
    modifies manager
    ensures old(manager.nextLoc) <= manager.nextLoc
    ensures res.Some? <==> Supported(s)
    ensures res.Some? ==> fresh(res.value) && res.value.Usable(manager) && forall l :: l in res.value.loc ==> old(manager.nextLoc) <= l
    ensures res.Some? ==> Denotes(s, Clean(manager), MeaningOf(res.value))
    decreases s, 1
  {
    hide *;
    SupportedParts(s);
    ghost var clean := Clean(manager);
    res := None;
    var a;
    match s {
      case StandaloneStar =>
        a := Basics.TrueStar(manager);
        AloneDenotes(s, clean);
        MeaningIs(a);
        res := Some(a);
      case StandalonePlus =>
        var a1 := Basics.CreateFromExpr(manager, Expr.True);
        NoReturnReturns(a1.Graph());
        CatOnlyEmpty(Nfas.Star(Lang(a1.Graph())));
        TruePlusIsNonempty();
        TrueStarIsAll();
        a := Kleenes.KleenePlus(manager, a1);
        AloneDenotes(s, clean);
        MeaningIs(a);
        res := Some(a);
      case Star(r) =>
        var prop := GetWrappedPropositional(r);
        if prop.Some? {
          a := Basics.PropositionalKleeneStar(manager, prop.value);
          WrappedDenotes(s, clean, prop.value);
          MeaningIs(a);
          res := Some(a);
        } else {
          var o := CreateFromSere(manager, r);
          if o.Some? {
            ghost var x := MeaningOf(o.value);
            MeaningIs(o.value);
            a := Kleenes.KleeneStar(manager, o.value);
            MeaningIs(a);
            StarDenotes(s, clean, x, MeaningOf(a));
            res := Some(a);
          }
        }
      case Plus(r) =>
        var o := CreateFromSere(manager, r);
        if o.Some? {
          ghost var x := MeaningOf(o.value);
          MeaningIs(o.value);
          a := Kleenes.KleenePlus(manager, o.value);
          MeaningIs(a);
          PlusDenotes(s, clean, x, MeaningOf(a));
          res := Some(a);
        }
      case Count(_) =>
    }
  }

  /** Compile a SERE.  There is no result when an operator is not supported.  The automaton accepts exactly
      the words of the language equations; if every starred body is safe, these are the words that satisfy
      the SERE tightly. */
  method CreateFromSere(manager: AutomataManager, s: Sere) returns (res: Option<Automaton>)
    modifies manager
    ensures old(manager.nextLoc) <= manager.nextLoc
    ensures res.Some? <==> Supported(s)
    ensures res.Some? ==> fresh(res.value) && res.value.Usable(manager) && forall l :: l in res.value.loc ==> old(manager.nextLoc) <= l
    ensures res.Some? && (manager.algorithm == AlphabetBased || Settled(s)) ==>
              Lang(res.value.Graph()) == Accepted(s) && Returns(res.value.Graph()) == Returned(s)
    ensures res.Some? && StarSafe(s) ==> Lang(res.value.Graph()) == Tight(s)
    ensures res.Some? && !HasNegation(s) ==> Tight(s) <= Lang(res.value.Graph())
    ensures res.Some? ==> StarExactly(s, Lang(res.value.Graph()))
    ensures res.Some? ==> Denotes(s, Clean(manager), MeaningOf(res.value))
    decreases s, 2
  {
    hide *;
    SupportedParts(s);
    ghost var clean := Clean(manager);
    res := None;
    if s == Prop(Expr.True) {
      var a := Basics.CreateFromExpr(manager, Expr.True);
      PropFacts(Expr.True);
      NoReturnReturns(a.Graph());
      ExprDenotes(s, clean, Expr.True);
      MeaningIs(a);
      res := Some(a);
    } else if s == Prop(Expr.False) {
      var a := Basics.CreateEmpty(manager);
      PropFacts(Expr.False);
      NothingIsFalse();
      NoReturnReturns(a.Graph());
      ExprDenotes(s, clean, Expr.False);
      MeaningIs(a);
      res := Some(a);
    } else if IsPropositional(s) {
      var a := Basics.CreateFromExpr(manager, ToExpr(s));
      NoReturnReturns(a.Graph());
      ExprDenotes(s, clean, ToExpr(s));
      MeaningIs(a);
      res := Some(a);
    } else if s.Brace? && IsPropositional(s.r) {
      var a := Basics.CreateFromExpr(manager, ToExpr(s.r));
      NoReturnReturns(a.Graph());
      ExprDenotes(s.r, clean, ToExpr(s.r));
      MeaningIs(a);
      BraceDenotes(s, clean, MeaningOf(a));
      res := Some(a);
    } else {
      match s {
        case Concat(_, _) => res := CreateFromTwo(manager, s);
        case Fusion(_, _) => res := CreateFromTwo(manager, s);
        case CompoundOr(_, _) => res := CreateFromTwo(manager, s);
        case CompoundAnd(_, _) => res := CreateFromTwo(manager, s);
        case CompoundAndAnd(_, _) => res := CreateFromTwo(manager, s);
        case Negated(r) =>
          var o := CreateFromSere(manager, r);
          if o.Some? {
            ghost var x := MeaningOf(o.value);
            MeaningIs(o.value);
            UsableUnpack(manager, o.value);
            var a := Inclusion.Complement(manager, o.value);
            NoReturnReturns(a.Graph());
            MeaningIs(a);
            CleanIs(manager);
            NegatedDenotes(s, clean, x, MeaningOf(a));
            res := Some(a);
          }
        case Brace(r) =>
          res := CreateFromSere(manager, r);
          if res.Some? {
            BraceDenotes(s, clean, MeaningOf(res.value));
          }
        case Prop(e) => PropFacts(e);
        case Unknown =>
        case _ => res := CreateFromRepeated(manager, s);
      }
    }
    if res.Some? {
      MeaningIs(res.value);
      CleanIs(manager);
      DenotesFacts(s, clean, MeaningOf(res.value));
    }
  }

  lemma IsTwo(s: Sere)
    requires s.Concat? || s.Fusion? || s.CompoundOr? || s.CompoundAnd? || s.CompoundAndAnd?
    ensures HasTwo(s)
  {
  }

  lemma CleanIs(manager: AutomataManager)
    ensures Clean(manager) <==> manager.algorithm == AlphabetBased
  {
  }
}
