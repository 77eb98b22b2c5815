/** Finite automata as values: what an automaton object means, and the languages used to say it. */
module Nfas {
  import opened BoolExpr
  import opened Alphabet

  /** The address of a location. */
  type Loc = nat
  type Word = seq<Letter>
  type Language = iset<Word>

  datatype Option<T> = None | Some(value: T)

  datatype Trans = Trans(src: Loc, lab: Label, dst: Loc)

  datatype Nfa = Nfa(init: Loc, locs: set<Loc>, final: set<Loc>, trans: set<Trans>, sink: Option<Loc>)

  /** The automaton only refers to locations of its own. */
  ghost predicate Closed(g: Nfa) {
    && g.init in g.locs
    && g.final <= g.locs
    && (forall t :: t in g.trans ==> t.src in g.locs && t.dst in g.locs)
    && (g.sink.Some? ==> g.sink.value in g.locs)
  }

  ghost predicate SinkNotFinal(g: Nfa) {
    g.sink.Some? ==> g.sink.value !in g.final
  }

  /** A sink is neither initial nor final, and is never left. */
  ghost predicate SinkOk(g: Nfa) {
    g.sink.Some? ==>
      && g.sink.value != g.init
      && g.sink.value !in g.final
      && forall t :: t in g.trans && t.src == g.sink.value ==> t.dst == g.sink.value
  }

  /** The automaton with a single location and no transition. */
  ghost function Single(l: Loc, final: bool): Nfa {
    Nfa(l, {l}, if final then {l} else {}, {}, None)
  }

  lemma SingleLocs(l: Loc, final: bool)
    ensures Single(l, final).init == l && Single(l, final).locs == {l} && Single(l, final).sink.None?
  {
  }

  ghost function WithLoc(g: Nfa, l: Loc, final: bool): Nfa {
    g.(locs := g.locs + {l}, final := if final then g.final + {l} else g.final)
  }

  ghost function WithFinal(g: Nfa, l: Loc, final: bool): Nfa {
    g.(final := if final then g.final + {l} else g.final - {l})
  }

  ghost function WithTrans(g: Nfa, t: Trans): Nfa {
    g.(trans := g.trans + {t})
  }

  ghost predicate LabelsSat(g: Nfa) {
    forall t :: t in g.trans ==> IsSat(t.lab)
  }

  ghost predicate Step(g: Nfa, p: Loc, a: Letter, q: Loc) {
    exists t :: t in g.trans && t.src == p && t.dst == q && Holds(t.lab, a)
  }

  /** The word leads the automaton from location p to a final location. */
  ghost predicate Accepts(g: Nfa, p: Loc, w: Word)
    decreases |w|
  {
    if w == [] then p in g.final
    else exists q :: Step(g, p, w[0], q) && Accepts(g, q, w[1..])
  }

  ghost function Lang(g: Nfa): Language {
    iset w | Accepts(g, g.init, w)
  }

  /** No word is accepted from p. */
  ghost predicate Dead(g: Nfa, p: Loc) {
    forall w :: !Accepts(g, p, w)
  }

  /** No transition leads to the initial location. */
  ghost predicate NoReturn(g: Nfa) {
    forall t :: t in g.trans ==> t.dst != g.init
  }

  /** The automaton that accepts where it starts and nowhere else. */
  ghost function Rooted(g: Nfa): Nfa {
    g.(final := {g.init})
  }

  /** The words that lead the initial location back to itself. */
  ghost function Returns(g: Nfa): Language {
    Lang(Rooted(g))
  }

  lemma {:induction false} SinkRejects(g: Nfa, w: Word)
    requires SinkOk(g) && g.sink.Some?
    ensures !Accepts(g, g.sink.value, w)
  {
    if w != [] {
      SinkRejects(g, w[1..]);
    }
  }

  lemma SinkIsDead(g: Nfa)
    requires SinkOk(g) && g.sink.Some?
    ensures Dead(g, g.sink.value)
  {
    forall w ensures !Accepts(g, g.sink.value, w) {
      SinkRejects(g, w);
    }
  }

  // ----- Runs between two locations

  /** The word leads from p to q. */
  ghost predicate Run(g: Nfa, p: Loc, w: Word, q: Loc)
    decreases |w|
  {
    if w == [] then p == q
    else var v, a := w[..|w| - 1], w[|w| - 1]; exists m :: Run(g, p, v, m) && Step(g, m, a, q)
  }

  lemma RunStep(g: Nfa, p: Loc, w: Word, m: Loc, a: Letter, q: Loc)
    requires Run(g, p, w, m) && Step(g, m, a, q)
    ensures Run(g, p, w + [a], q)
  {
    assert (w + [a])[..|w|] == w;
  }

  lemma {:induction false} RunFirst(g: Nfa, p: Loc, a: Letter, m: Loc, w: Word, q: Loc)
    requires Step(g, p, a, m) && Run(g, m, w, q)
    ensures Run(g, p, [a] + w, q)
    decreases |w|
  {
    if w == [] {
      assert [a] + w == [] + [a];
      RunStep(g, p, [], p, a, q);
    } else {
      var v := w[..|w| - 1];
      var k :| Run(g, m, v, k) && Step(g, k, w[|w| - 1], q);
      RunFirst(g, p, a, m, v, k);
      assert ([a] + w)[..|w|] == [a] + v;
    }
  }

  /** A word is accepted from p exactly when it leads from p to a final location. */
  lemma {:induction false} AcceptsIsRun(g: Nfa, p: Loc, w: Word)
    ensures Accepts(g, p, w) <==> exists f :: f in g.final && Run(g, p, w, f)
    decreases |w|
  {
    if Accepts(g, p, w) && w != [] {
      var q :| Step(g, p, w[0], q) && Accepts(g, q, w[1..]);
      AcceptsIsRun(g, q, w[1..]);
      var f :| f in g.final && Run(g, q, w[1..], f);
      RunFirst(g, p, w[0], q, w[1..], f);
      assert [w[0]] + w[1..] == w;
    }
    if f :| f in g.final && Run(g, p, w, f) {
      assert w[|w|..] == [] && Accepts(g, f, []);
      assert w + [] == w;
      RunAccepts(g, p, w, f, []);
    }
  }

  lemma {:induction false} RunAccepts(g: Nfa, p: Loc, u: Word, m: Loc, v: Word)
    requires Run(g, p, u, m) && Accepts(g, m, v)
    ensures Accepts(g, p, u + v)
    decreases |u|
  {
    if u == [] {
      assert u + v == v;
    } else {
      var x, a := u[..|u| - 1], u[|u| - 1];
      var k :| Run(g, p, x, k) && Step(g, k, a, m);
      assert ([a] + v)[0] == a && ([a] + v)[1..] == v;
      assert Accepts(g, k, [a] + v);
      RunAccepts(g, p, x, k, [a] + v);
      assert x + ([a] + v) == u + v;
    }
  }

  lemma NoReturnReturns(g: Nfa)
    requires NoReturn(g)
    ensures Returns(g) == iset{[]}
  {
    var h := Rooted(g);
    forall w ensures w in Returns(g) <==> w == [] {
      AcceptsIsRun(h, h.init, w);
    }
  }

  // ----- Reachability in the graph, whatever the labels

  ghost predicate PathN(g: Nfa, p: Loc, n: nat, q: Loc) {
    if n == 0 then p == q else exists t :: t in g.trans && t.dst == q && PathN(g, p, n - 1, t.src)
  }

  ghost predicate Connected(g: Nfa, p: Loc, q: Loc) {
    exists n: nat :: PathN(g, p, n, q)
  }

  lemma ConnectedSelf(g: Nfa, p: Loc)
    ensures Connected(g, p, p)
  {
    assert PathN(g, p, 0, p);
  }

  lemma ConnectedStep(g: Nfa, p: Loc, t: Trans)
    requires t in g.trans && Connected(g, p, t.src)
    ensures Connected(g, p, t.dst)
  {
    var n: nat :| PathN(g, p, n, t.src);
    assert PathN(g, p, n + 1, t.dst);
  }

  /** A set of locations that is never left holds everything reachable from its members. */
  lemma {:induction false} PathStays(g: Nfa, s: set<Loc>, p: Loc, n: nat, q: Loc)
    requires p in s && PathN(g, p, n, q)
    requires forall t :: t in g.trans && t.src in s ==> t.dst in s
    ensures q in s
  {
    if n > 0 {
      var t :| t in g.trans && t.dst == q && PathN(g, p, n - 1, t.src);
      PathStays(g, s, p, n - 1, t.src);
    }
  }

  // ----- Simulation

  /** The map m identifies locations of g with locations of h that accept the same words:
      final locations correspond, and so do the steps, except steps to dead locations. */
  ghost predicate Simulates(g: Nfa, h: Nfa, m: map<Loc, Loc>) {
    && (forall p :: p in m ==> (p in g.final <==> m[p] in h.final))
    && (forall p, a, q :: p in m && Step(g, p, a, q) ==> Dead(g, q) || (q in m && Step(h, m[p], a, m[q])))
    && (forall p, a, r :: p in m && Step(h, m[p], a, r) ==>
          Dead(h, r) || exists q :: q in m && m[q] == r && Step(g, p, a, q))
  }

  lemma {:induction false} SimulationAccepts(g: Nfa, h: Nfa, m: map<Loc, Loc>, p: Loc, w: Word)
    requires Simulates(g, h, m) && p in m
    ensures Accepts(g, p, w) <==> Accepts(h, m[p], w)
    decreases |w|
  {
    if w != [] {
      if q :| Step(g, p, w[0], q) && Accepts(g, q, w[1..]) {
        SimulationAccepts(g, h, m, q, w[1..]);
      }
      if r :| Step(h, m[p], w[0], r) && Accepts(h, r, w[1..]) {
        var q :| q in m && m[q] == r && Step(g, p, w[0], q);
        SimulationAccepts(g, h, m, q, w[1..]);
      }
    }
  }

  // ----- Languages

  ghost function Cat(x: Language, y: Language): Language {
    iset w | IsCat(x, y, w)
  }

  ghost predicate IsCat(x: Language, y: Language, w: Word) {
    exists i | 0 <= i <= |w| :: w[..i] in x && w[i..] in y
  }

  /** The two words share the letter at which they are joined. */
  ghost function Fuse(x: Language, y: Language): Language {
    iset w | IsFusion(x, y, w)
  }

  ghost predicate IsFusion(x: Language, y: Language, w: Word) {
    exists i | 0 <= i < |w| :: w[..i + 1] in x && w[i..] in y
  }

  /** Repetition zero or more times: the word is cut into nonempty words of x. */
  ghost predicate InStar(x: Language, w: Word)
    decreases |w|
  {
    w == [] || exists i | 0 < i <= |w| :: w[..i] in x && InStar(x, w[i..])
  }

  ghost function Star(x: Language): Language {
    iset w | InStar(x, w)
  }

  /** Repetition one or more times. */
  ghost function Plus(x: Language): Language {
    Cat(x, Star(x))
  }

  ghost function Reversed(w: Word): (r: Word)
    ensures |r| == |w|
  {
    if w == [] then [] else Reversed(w[1..]) + [w[0]]
  }

  ghost function Mirror(x: Language): Language {
    iset w | Reversed(w) in x
  }

  lemma CatAt(x: Language, y: Language, u: Word, v: Word)
    requires u in x && v in y
    ensures u + v in Cat(x, y)
  {
    assert (u + v)[..|u|] == u && (u + v)[|u|..] == v;
  }

  lemma StarStep(x: Language, u: Word, v: Word)
    requires u in x && InStar(x, v)
    ensures InStar(x, u + v)
  {
    if u == [] {
      assert u + v == v;
    } else {
      assert (u + v)[..|u|] == u && (u + v)[|u|..] == v;
    }
  }

  lemma {:induction false} StarCat(x: Language, u: Word, v: Word)
    requires InStar(x, u) && InStar(x, v)
    ensures InStar(x, u + v)
    decreases |u|
  {
    if u == [] {
      assert u + v == v;
    } else {
      var i :| 0 < i <= |u| && u[..i] in x && InStar(x, u[i..]);
      StarCat(x, u[i..], v);
      StarStep(x, u[..i], u[i..] + v);
      assert u[..i] + (u[i..] + v) == u + v;
    }
  }

  lemma {:induction false} ReversedCat(u: Word, v: Word)
    ensures Reversed(u + v) == Reversed(v) + Reversed(u)
    decreases |u|
  {
    if u == [] {
      assert u + v == v;
    } else {
      ReversedCat(u[1..], v);
      assert (u + v)[1..] == u[1..] + v;
    }
  }

  lemma {:induction false} ReversedTwice(w: Word)
    ensures Reversed(Reversed(w)) == w
    decreases |w|
  {
    if w != [] {
      ReversedTwice(w[1..]);
      ReversedCat(Reversed(w[1..]), [w[0]]);
      assert Reversed([w[0]]) == [w[0]];
    }
  }

  /** Concatenation is monotonic and keeps the words of x if y has the empty word. */
  lemma CatWithEmpty(x: Language, y: Language)
    requires [] in y
    ensures x <= Cat(x, y)
  {
    forall w | w in x ensures w in Cat(x, y) {
      assert w[..|w|] == w && w[|w|..] == [];
    }
  }

  /** Repetition one or more times, read from the other end. */
  lemma PlusFromEnd(x: Language)
    ensures Cat(Star(x), x) == Plus(x)
  {
    forall w ensures w in Cat(Star(x), x) <==> w in Plus(x) {
      if i :| 0 <= i <= |w| && w[..i] in Star(x) && w[i..] in x {
        StarThenOne(x, w[..i], w[i..]);
        assert w[..i] + w[i..] == w;
      }
      if i :| 0 <= i <= |w| && w[..i] in x && w[i..] in Star(x) {
        OneThenStar(x, w[..i], w[i..]);
        assert w[..i] + w[i..] == w;
      }
    }
  }

  lemma {:induction false} StarThenOne(x: Language, u: Word, v: Word)
    requires InStar(x, u) && v in x
    ensures u + v in Plus(x)
    decreases |u|
  {
    if u == [] {
      CatAt(x, Star(x), v, []);
      assert u + v == v + [];
    } else {
      var i :| 0 < i <= |u| && u[..i] in x && InStar(x, u[i..]);
      StarStep(x, v, []);
      assert v + [] == v;
      StarCat(x, u[i..], v);
      CatAt(x, Star(x), u[..i], u[i..] + v);
      assert u[..i] + (u[i..] + v) == u + v;
    }
  }

  lemma {:induction false} OneThenStar(x: Language, u: Word, v: Word)
    requires u in x && InStar(x, v)
    ensures u + v in Cat(Star(x), x)
    decreases |v|
  {
    if v == [] {
      CatAt(Star(x), x, [], u);
      assert [] + u == u + v;
    } else {
      var i :| 0 < i <= |v| && v[..i] in x && InStar(x, v[i..]);
      OneThenStar(x, v[..i], v[i..]);
      assert v[..i] + v[i..] == v;
      var j :| 0 <= j <= |v| && v[..j] in Star(x) && v[j..] in x;
      StarStep(x, u, v[..j]);
      CatAt(Star(x), x, u + v[..j], v[j..]);
      assert (u + v[..j]) + v[j..] == u + v;
    }
  }

  /** A repetition in front of a word can be made longer at its front. */
  lemma StarFront(x: Language, e: Language, w: Word, i: nat)
    requires 0 < i <= |w| && w[..i] in x && w[i..] in Cat(Star(x), e)
    ensures w in Cat(Star(x), e)
  {
    var v := w[i..];
    var j :| 0 <= j <= |v| && v[..j] in Star(x) && v[j..] in e;
    StarStep(x, w[..i], v[..j]);
    CatAt(Star(x), e, w[..i] + v[..j], v[j..]);
    assert (w[..i] + v[..j]) + v[j..] == w;
  }

  lemma StarNone(x: Language, e: Language, w: Word)
    requires w in e
    ensures w in Cat(Star(x), e)
  {
    CatAt(Star(x), e, [], w);
    assert [] + w == w;
  }

  /** A repetition in front of a word is empty, or its first part can be taken off. */
  lemma StarFirst(x: Language, e: Language, w: Word)
    requires w in Cat(Star(x), e)
    ensures w in e || exists i | 0 < i <= |w| :: w[..i] in x && w[i..] in Cat(Star(x), e)
  {
    var j :| 0 <= j <= |w| && w[..j] in Star(x) && w[j..] in e;
    if j == 0 {
      assert w[0..] == w;
    } else {
      var u := w[..j];
      var i :| 0 < i <= |u| && u[..i] in x && InStar(x, u[i..]);
      CatAt(Star(x), e, u[i..], w[j..]);
      assert u[i..] + w[j..] == w[i..] && u[..i] == w[..i];
    }
  }

  /** A language that is closed under putting words of x in front of it, and otherwise is e. */
  lemma {:induction false} FrontClosure(x: Language, e: Language, l: Language, w: Word)
    requires forall v :: v in l <==> v in e || exists i | 0 < i <= |v| :: v[..i] in x && v[i..] in l
    ensures w in l <==> w in Cat(Star(x), e)
    decreases |w|
  {
    hide Cat, Star, InStar;
    if w in e {
      StarNone(x, e, w);
    } else if i :| 0 < i <= |w| && w[..i] in x && w[i..] in l {
      FrontClosure(x, e, l, w[i..]);
      StarFront(x, e, w, i);
    } else if w in Cat(Star(x), e) {
      StarFirst(x, e, w);
      var i :| 0 < i <= |w| && w[..i] in x && w[i..] in Cat(Star(x), e);
      FrontClosure(x, e, l, w[i..]);
    }
  }

  /** Accepting in either of two sets of final locations. */
  lemma {:induction false} AcceptsEither(g: Nfa, f1: set<Loc>, f2: set<Loc>, p: Loc, w: Word)
    ensures Accepts(g.(final := f1 + f2), p, w) <==> Accepts(g.(final := f1), p, w) || Accepts(g.(final := f2), p, w)
    decreases |w|
  {
    if w != [] {
      forall q | Step(g, p, w[0], q)
        ensures Accepts(g.(final := f1 + f2), q, w[1..]) <==>
                Accepts(g.(final := f1), q, w[1..]) || Accepts(g.(final := f2), q, w[1..])
      {
        AcceptsEither(g, f1, f2, q, w[1..]);
      }
      assert forall f, q :: Step(g.(final := f), p, w[0], q) <==> Step(g, p, w[0], q);
    }
  }
}
