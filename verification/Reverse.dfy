/** Reversal of an automaton, and minimization by reversing and determinizing twice. */
module ReverseLanguage {
  import opened BoolExpr
  import opened Alphabet
  import opened Nfas
  import opened Automata
  import opened CopyGraphs
  import opened AcceptingSearch
  import opened AcceptingLanguage

  /** The transitions of c, from the copy of their end to the copy of their source. */
  ghost function Backward(c: set<Trans>, m: LocHash): set<Trans> {
    set t | t in c && t.src in m && t.dst in m :: Trans(m[t.dst], t.lab, m[t.src])
  }

  /** For each transition of c into a final location, one from r to the copy of its source. */
  ghost function Entries(c: set<Trans>, m: LocHash, final: set<Loc>, r: Loc): set<Trans> {
    set t | t in c && t.src in m && t.dst in final :: Trans(r, t.lab, m[t.src])
  }

  /** The initial location is final, and one of the transitions c leads to it. */
  ghost predicate Cleared(g: Nfa, c: set<Trans>) {
    g.init in g.final && exists t :: t in c && t.dst == g.init
  }

  ghost predicate ReversedTrans(g: Nfa, h: Nfa, m: LocHash, c: set<Trans>) {
    && c <= g.trans && EndsIn(c, m)
    && h.trans == Backward(c, m) + Entries(c, m, g.final, h.init)
  }

  /** Only the initial location and the copy of the initial location of the source can be final; the
      latter is unless a transition into it has cleared its flag. */
  ghost predicate ReversedFinals(g: Nfa, h: Nfa, m: LocHash, c: set<Trans>) {
    && g.init in m
    && (h.init in h.final <==> g.init in g.final)
    && (forall k :: k in m ==> m[k] != h.init && (m[k] in h.final <==> k == g.init && !Cleared(g, c)))
  }

  ghost function Start(g: Nfa, r: Loc, f: Loc): Nfa {
    WithLoc(Single(r, g.init in g.final), f, true)
  }

  ghost predicate Reversing(g: Nfa, r: Loc, f: Loc, lo: nat, h: Nfa, m: LocHash, hi: nat, c: set<Trans>) {
    && r < lo && f < lo && r != f
    && Shape(g, Start(g, r, f), map[g.init := f], lo, h, m, hi)
    && ReversedTrans(g, h, m, c) && ReversedFinals(g, h, m, c)
  }

  lemma ReversingStart(g: Nfa, r: Loc, f: Loc, lo: nat)
    requires r < lo && f < lo && r != f
    ensures Reversing(g, r, f, lo, Start(g, r, f), map[g.init := f], lo, Leaving(g, {}))
    ensures Start(g, r, f).init == r && Start(g, r, f).locs == {r, f} && Start(g, r, f).sink.None?
  {
  }

  lemma ReversingFacts(g: Nfa, r: Loc, f: Loc, lo: nat, h: Nfa, m: LocHash, hi: nat, c: set<Trans>)
    requires Reversing(g, r, f, lo, h, m, hi, c)
    ensures h.init == r && r in h.locs && lo <= hi
  {
  }

  lemma BackwardKept(c: set<Trans>, m0: LocHash, m: LocHash, final: set<Loc>, r: Loc)
    requires EndsIn(c, m0) && m0.Keys <= m.Keys && forall k :: k in m0 ==> m[k] == m0[k]
    ensures Backward(c, m) == Backward(c, m0) && Entries(c, m, final, r) == Entries(c, m0, final, r)
  {
  }

  lemma BackwardAdd(c: set<Trans>, t: Trans, m: LocHash, final: set<Loc>, r: Loc)
    requires t.src in m && t.dst in m
    ensures Backward(c + {t}, m) == Backward(c, m) + {Trans(m[t.dst], t.lab, m[t.src])}
    ensures Entries(c + {t}, m, final, r) == Entries(c, m, final, r) + if t.dst in final then {Trans(r, t.lab, m[t.src])} else {}
  {
  }

  /** What one transition of the source does to the result. */
  ghost function ReversedOne(g: Nfa, h: Nfa, m: LocHash, t: Trans): Nfa
    requires t.src in m && t.dst in m
  {
    var h' := WithTrans(h, Trans(m[t.dst], t.lab, m[t.src]));
    if t.dst in g.final then WithFinal(WithTrans(h', Trans(h.init, t.lab, m[t.src])), m[t.dst], false) else h'
  }

  lemma ReversedOneTrans(g: Nfa, h: Nfa, m: LocHash, h1: Nfa, m1: LocHash, c: set<Trans>, t: Trans)
    requires ReversedTrans(g, h, m, c) && h1.trans == h.trans && h1.init == h.init
    requires m.Keys <= m1.Keys && forall k :: k in m ==> m1[k] == m[k]
    requires t in g.trans && t.src in m1 && t.dst in m1
    ensures ReversedTrans(g, ReversedOne(g, h1, m1, t), m1, c + {t})
  {
    BackwardKept(c, m, m1, g.final, h.init);
    BackwardAdd(c, t, m1, g.final, h.init);
  }

  lemma ReversedOneFinals(g: Nfa, h: Nfa, m: LocHash, lo: nat, h1: Nfa, m1: LocHash, hi: nat, c: set<Trans>, t: Trans)
    requires ReversedFinals(g, h, m, c) && Extends(g, h, m, lo, h1, m1, hi)
    requires (forall l :: l in h.locs ==> l < lo) && h.init in h.locs && (forall k :: k in m ==> m[k] in h.locs)
    requires m1.Keys == m.Keys + {t.dst} && t.src in m1
    requires forall k, l :: k in m1 && l in m1 && k != l ==> m1[k] != m1[l]
    requires h.sink.Some? ==> h.sink.value != h.init && h.sink.value in h.locs
    ensures ReversedFinals(g, ReversedOne(g, h1, m1, t), m1, c + {t})
  {
    var h2 := ReversedOne(g, h1, m1, t);
    assert Cleared(g, c + {t}) <==> Cleared(g, c) || (g.init in g.final && t.dst == g.init);
    hide Cleared;
    forall k | k in m1
      ensures m1[k] != h2.init && (m1[k] in h2.final <==> k == g.init && !Cleared(g, c + {t}))
    {
      assert k !in m ==> k == t.dst;
    }
  }

  lemma ReversingStep(g: Nfa, r: Loc, f: Loc, lo: nat, h: Nfa, m: LocHash, hi: nat, h1: Nfa, m1: LocHash, hi1: nat, c: set<Trans>, t: Trans)
    requires Reversing(g, r, f, lo, h, m, hi, c) && Extends(g, h, m, hi, h1, m1, hi1)
    requires ReadyOn(g, h, m) && Closed(h) && (forall l :: l in h.locs ==> l < hi)
    requires h1.trans == h.trans && m1.Keys == m.Keys + {t.dst} && t in g.trans && t.src in m
    ensures Reversing(g, r, f, lo, ReversedOne(g, h1, m1, t), m1, hi1, c + {t})
  {
    ShapeTransitive(g, Start(g, r, f), map[g.init := f], lo, h, m, hi, h1, m1, hi1);
    ReversingInjective(g, r, f, lo, h1, m1, hi1);
    ReversingSink(g, r, f, lo, h, m, hi);
    ReversedOneTrans(g, h, m, h1, m1, c, t);
    ReversedOneFinals(g, h, m, hi, h1, m1, hi1, c, t);
    hide ReversedTrans, ReversedFinals, Extends;
    ReversedOneShape(g, r, f, lo, h1, m1, hi1, t);
  }

  lemma ReversedOneShape(g: Nfa, r: Loc, f: Loc, lo: nat, h: Nfa, m: LocHash, hi: nat, t: Trans)
    requires Shape(g, Start(g, r, f), map[g.init := f], lo, h, m, hi) && t.src in m && t.dst in m
    ensures Shape(g, Start(g, r, f), map[g.init := f], lo, ReversedOne(g, h, m, t), m, hi)
  {
  }

  lemma ReversingInjective(g: Nfa, r: Loc, f: Loc, lo: nat, h: Nfa, m: LocHash, hi: nat)
    requires Shape(g, Start(g, r, f), map[g.init := f], lo, h, m, hi) && f < lo
    ensures forall k, l :: k in m && l in m && k != l ==> m[k] != m[l]
  {
  }

  lemma ReversingSink(g: Nfa, r: Loc, f: Loc, lo: nat, h: Nfa, m: LocHash, hi: nat)
    requires Shape(g, Start(g, r, f), map[g.init := f], lo, h, m, hi) && r < lo && f < lo
    ensures h.sink.Some? ==> h.sink.value != h.init && h.sink.value in h.locs
  {
  }

  // ----- The language of the result

  ghost predicate IsReverse(g: Nfa, h: Nfa, m: LocHash) {
    && (forall k, l :: k in m && l in m && k != l ==> m[k] != m[l])
    && ReversedTrans(g, h, m, Leaving(g, m.Keys)) && ReversedFinals(g, h, m, Leaving(g, m.Keys))
  }

  lemma {:induction false} RunMapped(g: Nfa, h: Nfa, m: LocHash, w: Word, q: Loc)
    requires IsReverse(g, h, m) && Run(g, g.init, w, q)
    ensures q in m
    decreases |w|
  {
    if w != [] {
      var v, a := w[..|w| - 1], w[|w| - 1];
      var p :| Run(g, g.init, v, p) && Step(g, p, a, q);
      RunMapped(g, h, m, v, p);
      var t :| t in g.trans && t.src == p && t.dst == q && Holds(t.lab, a);
      assert t in Leaving(g, m.Keys);
    }
  }

  /** The steps of the copies are the steps of the originals, backward. */
  lemma StepBackward(g: Nfa, h: Nfa, m: LocHash, d: Loc, a: Letter)
    requires IsReverse(g, h, m) && d in m
    ensures forall p :: p in m && Step(g, p, a, d) ==> Step(h, m[d], a, m[p])
    ensures forall x :: Step(h, m[d], a, x) ==> exists p :: p in m && m[p] == x && Step(g, p, a, d)
  {
    var c := Leaving(g, m.Keys);
    forall p | p in m && Step(g, p, a, d) ensures Step(h, m[d], a, m[p]) {
      var t :| t in g.trans && t.src == p && t.dst == d && Holds(t.lab, a);
      assert Trans(m[d], t.lab, m[p]) in Backward(c, m);
    }
    forall x | Step(h, m[d], a, x) ensures exists p :: p in m && m[p] == x && Step(g, p, a, d) {
      var u :| u in h.trans && u.src == m[d] && u.dst == x && Holds(u.lab, a);
      assert u in Backward(c, m);
      var t :| t in c && t.src in m && t.dst in m && u == Trans(m[t.dst], t.lab, m[t.src]);
      assert Step(g, t.src, a, d);
    }
  }

  lemma StepEntry(g: Nfa, h: Nfa, m: LocHash, a: Letter)
    requires IsReverse(g, h, m)
    ensures forall p, d :: p in m && d in g.final && Step(g, p, a, d) ==> Step(h, h.init, a, m[p])
    ensures forall x :: Step(h, h.init, a, x) ==> exists p, d :: p in m && m[p] == x && d in g.final && Step(g, p, a, d)
  {
    var c := Leaving(g, m.Keys);
    forall p, d | p in m && d in g.final && Step(g, p, a, d) ensures Step(h, h.init, a, m[p]) {
      var t :| t in g.trans && t.src == p && t.dst == d && Holds(t.lab, a);
      assert Trans(h.init, t.lab, m[p]) in Entries(c, m, g.final, h.init);
    }
    forall x | Step(h, h.init, a, x) ensures exists p, d :: p in m && m[p] == x && d in g.final && Step(g, p, a, d) {
      var u :| u in h.trans && u.src == h.init && u.dst == x && Holds(u.lab, a);
      assert u in Entries(c, m, g.final, h.init);
      var t :| t in c && t.src in m && t.dst in g.final && u == Trans(h.init, t.lab, m[t.src]);
      assert Step(g, t.src, a, t.dst);
    }
  }

  lemma {:induction false} ReverseAccepts(g: Nfa, h: Nfa, m: LocHash, d: Loc, w: Word)
    requires IsReverse(g, h, m) && !Cleared(g, Leaving(g, m.Keys)) && d in m
    ensures Accepts(h, m[d], w) <==> Run(g, g.init, Reversed(w), d)
    decreases |w|
  {
    if w != [] {
      StepBackward(g, h, m, d, w[0]);
      ReversedEnds(w);
      if x :| Step(h, m[d], w[0], x) && Accepts(h, x, w[1..]) {
        var p :| p in m && m[p] == x && Step(g, p, w[0], d);
        ReverseAccepts(g, h, m, p, w[1..]);
      }
      if p :| Run(g, g.init, Reversed(w[1..]), p) && Step(g, p, w[0], d) {
        RunMapped(g, h, m, Reversed(w[1..]), p);
        ReverseAccepts(g, h, m, p, w[1..]);
      }
    }
  }

  lemma ReversedEnds(w: Word)
    requires w != []
    ensures var r := Reversed(w); r != [] && r[..|r| - 1] == Reversed(w[1..]) && r[|r| - 1] == w[0]
  {
  }

  /** Without a cleared flag, the reversed automaton accepts the mirrored words. */
  lemma ReverseMeans(g: Nfa, h: Nfa, m: LocHash)
    requires IsReverse(g, h, m) && !Cleared(g, Leaving(g, m.Keys))
    ensures Lang(h) == Mirror(Lang(g))
  {
    forall w ensures w in Lang(h) <==> w in Mirror(Lang(g)) {
      ReverseWord(g, h, m, w);
    }
  }

  lemma ReverseWord(g: Nfa, h: Nfa, m: LocHash, w: Word)
    requires IsReverse(g, h, m) && !Cleared(g, Leaving(g, m.Keys))
    ensures Accepts(h, h.init, w) <==> Accepts(g, g.init, Reversed(w))
  {
    if w != [] {
      AcceptsIsRun(g, g.init, Reversed(w));
      StepEntry(g, h, m, w[0]);
      ReversedEnds(w);
      if x :| Step(h, h.init, w[0], x) && Accepts(h, x, w[1..]) {
        var p, d :| p in m && m[p] == x && d in g.final && Step(g, p, w[0], d);
        ReverseAccepts(g, h, m, p, w[1..]);
        assert Run(g, g.init, Reversed(w), d);
      }
      if d :| d in g.final && Run(g, g.init, Reversed(w), d) {
        var p :| Run(g, g.init, Reversed(w[1..]), p) && Step(g, p, w[0], d);
        RunMapped(g, h, m, Reversed(w[1..]), p);
        ReverseAccepts(g, h, m, p, w[1..]);
      }
    }
  }

  /** With the flag cleared, only the empty word is left. */
  lemma ReverseCleared(g: Nfa, h: Nfa, m: LocHash)
    requires IsReverse(g, h, m) && Cleared(g, Leaving(g, m.Keys))
    ensures Lang(h) == iset{[]}
  {
    forall w ensures w in Lang(h) <==> w == [] {
      if w != [] {
        StepEntry(g, h, m, w[0]);
        forall x | Step(h, h.init, w[0], x) ensures !Accepts(h, x, w[1..]) {
          var p, d :| p in m && m[p] == x && d in g.final && Step(g, p, w[0], d);
          ClearedRejects(g, h, m, p, w[1..]);
        }
      }
    }
  }

  lemma {:induction false} ClearedRejects(g: Nfa, h: Nfa, m: LocHash, d: Loc, w: Word)
    requires IsReverse(g, h, m) && Cleared(g, Leaving(g, m.Keys)) && d in m
    ensures !Accepts(h, m[d], w)
    decreases |w|
  {
    if w != [] {
      StepBackward(g, h, m, d, w[0]);
      forall x | Step(h, m[d], w[0], x) ensures !Accepts(h, x, w[1..]) {
        var p :| p in m && m[p] == x && Step(g, p, w[0], d);
        ClearedRejects(g, h, m, p, w[1..]);
      }
    }
  }

  // ----- The exact condition

  /** The initial location is final and a reachable transition leads back to it. */
  ghost predicate ReturnsToFinalStart(g: Nfa) {
    g.init in g.final && exists t :: t in g.trans && t.dst == g.init && Connected(g, g.init, t.src)
  }

  lemma NoReturnNoLoss(g: Nfa)
    requires NoReturn(g)
    ensures !ReturnsToFinalStart(g)
  {
  }

  lemma ClearedIff(g: Nfa, h: Nfa, m: LocHash)
    requires IsReverse(g, h, m) && forall l :: l in m ==> Connected(g, g.init, l)
    ensures Cleared(g, Leaving(g, m.Keys)) <==> ReturnsToFinalStart(g)
  {
    if ReturnsToFinalStart(g) {
      var t :| t in g.trans && t.dst == g.init && Connected(g, g.init, t.src);
      var n: nat :| PathN(g, g.init, n, t.src);
      PathMapped(g, h, m, n, t.src);
      assert t in Leaving(g, m.Keys);
    }
  }

  lemma {:induction false} PathMapped(g: Nfa, h: Nfa, m: LocHash, n: nat, q: Loc)
    requires IsReverse(g, h, m) && PathN(g, g.init, n, q)
    ensures q in m
    decreases n
  {
    if n > 0 {
      var t :| t in g.trans && t.dst == q && PathN(g, g.init, n - 1, t.src);
      PathMapped(g, h, m, n - 1, t.src);
      assert t in Leaving(g, m.Keys);
    }
  }

  /** With satisfiable labels, some word other than the empty one is then lost. */
  lemma LossIsReal(g: Nfa)
    requires ReturnsToFinalStart(g) && LabelsSat(g)
    ensures Mirror(Lang(g)) != iset{[]}
  {
    var t :| t in g.trans && t.dst == g.init && Connected(g, g.init, t.src);
    var n: nat :| PathN(g, g.init, n, t.src);
    var v := PathAccepts(g, g.init, n, t.src);
    var a: Letter :| Holds(t.lab, a);
    assert Step(g, t.src, a, g.init);
    RunStep(g, g.init, v, t.src, a, g.init);
    var w := v + [a];
    AcceptsIsRun(g, g.init, w);
    ReversedTwice(w);
    assert Reversed(w) in Mirror(Lang(g)) && |Reversed(w)| > 0;
  }

  lemma MirrorTwice(x: Language)
    ensures Mirror(Mirror(x)) == x
  {
    forall w ensures w in Mirror(Mirror(x)) <==> w in x {
      ReversedTwice(w);
    }
  }

  lemma MirrorEmptyWord()
    ensures Mirror(iset{[]}) == iset{[]}
  {
  }

  /** The state when nothing is left to visit. */
  ghost predicate ReverseDone(g: Nfa, r: Loc, f: Loc, lo: nat, h: Nfa, m: LocHash, hi: nat) {
    && Reversing(g, r, f, lo, h, m, hi, Leaving(g, m.Keys))
    && forall l :: l in m ==> Connected(g, g.init, l)
  }

  lemma ReverseDonePack(g: Nfa, r: Loc, f: Loc, lo: nat, h: Nfa, m: LocHash, hi: nat, visited: set<Loc>, m0: LocHash)
    requires Reversing(g, r, f, lo, h, m, hi, Leaving(g, visited))
    requires m0 == map[g.init := f] && visited == (m.Keys - m0.Keys) + {g.init} && g.init in m
    requires forall l :: l in visited ==> Connected(g, g.init, l)
    ensures ReverseDone(g, r, f, lo, h, m, hi)
  {
    assert visited == m.Keys;
  }

  /** The reversed automaton before it is pruned: what it accepts; its sink cannot be reached. */
  lemma ReverseAll(g: Nfa, r: Loc, f: Loc, lo: nat, h: Nfa, m: LocHash, hi: nat)
    requires ReverseDone(g, r, f, lo, h, m, hi) && SinkOk(g) && Closed(g)
    ensures Lang(h) == if ReturnsToFinalStart(g) then iset{[]} else Mirror(Lang(g))
    ensures NoReturn(h) && (LabelsSat(g) ==> LabelsSat(h))
    ensures h.sink.Some? ==> !Connected(h, h.init, h.sink.value)
  {
    ReversingInjective(g, r, f, lo, h, m, hi);
    ClearedIff(g, h, m);
    if ReturnsToFinalStart(g) {
      ReverseCleared(g, h, m);
    } else {
      ReverseMeans(g, h, m);
    }
    if h.sink.Some? {
      ReverseSink(g, r, f, lo, h, m, hi);
      forall n: nat ensures !PathN(h, h.init, n, h.sink.value) {
        NotReached(h, h.sink.value, n);
      }
    }
  }

  lemma ReverseSink(g: Nfa, r: Loc, f: Loc, lo: nat, h: Nfa, m: LocHash, hi: nat)
    requires ReverseDone(g, r, f, lo, h, m, hi) && SinkOk(g) && Closed(g) && h.sink.Some?
    ensures h.sink.value != h.init
    ensures forall u :: u in h.trans && u.dst == h.sink.value ==> u.src == h.sink.value
  {
    ReversingInjective(g, r, f, lo, h, m, hi);
    var c := Leaving(g, m.Keys);
    forall u | u in h.trans && u.dst == h.sink.value ensures u.src == h.sink.value {
      if u in Backward(c, m) {
        var t :| t in c && t.src in m && t.dst in m && u == Trans(m[t.dst], t.lab, m[t.src]);
        assert t.src == g.sink.value;
      }
    }
  }

  lemma {:induction false} NotReached(h: Nfa, l: Loc, n: nat)
    requires l != h.init && forall u :: u in h.trans && u.dst == l ==> u.src == l
    ensures !PathN(h, h.init, n, l)
    decreases n
  {
    if n > 0 {
      NotReached(h, l, n - 1);
    }
  }
}

module Reversal {
  import opened BoolExpr
  import opened Alphabet
  import opened Nfas
  import opened Automata
  import opened CopyGraphs
  import opened Copying
  import opened LabelSteps
  import opened SubsetLanguage
  import opened Determinization
  import opened Prunes
  import opened ReverseLanguage

  /** One transition: its end is copied if it is new, and the transition is created backward. */
  method ReverseTransition(manager: AutomataManager, res: Automaton, hash: LocHash, stack: seq<Loc>, a: Automaton, s: Loc, i: nat,
                           ghost r: Loc, ghost f: Loc, ghost lo: nat, ghost visited: set<Loc>, ghost m0: LocHash, ghost c: set<Trans>)
    returns (hash': LocHash, stack': seq<Loc>)
    requires Ready(manager, res, hash, a) && s in a.loc && s in hash && s in visited && i < |a.loc[s].transitions|
    requires Reversing(a.Graph(), r, f, lo, res.Graph(), hash, manager.nextLoc, c)
    requires Frontier(a.Graph(), m0, hash, a.initial, visited, stack)
    modifies res, manager
    ensures Ready(manager, res, hash', a) && s in hash'
    ensures Reversing(a.Graph(), r, f, lo, res.Graph(), hash', manager.nextLoc, c + {TransAt(a, s, i)})
    ensures Frontier(a.Graph(), m0, hash', a.initial, visited, stack')
  {
    hide *;
    ghost var g, h, hi, t := a.Graph(), res.Graph(), manager.nextLoc, TransAt(a, s, i);
    ReadyUnpack(manager, res, hash, a);
    ListNext(a, s, i);
    ExtendsSame(g, h, hash, hi);
    var dest, lab := a.loc[s].transitions[i].end, a.loc[s].transitions[i].lab;
    hash', stack' := hash, stack;
    if dest !in hash {
      var l;
      VisibleAbsent(g, h, hash, dest);
      hash', l := HashFindOrCreateLoc(manager, res, hash, a, dest);
      stack' := [dest] + stack;
    }
    ghost var h1, hi1 := res.Graph(), manager.nextLoc;
    ExtendsKeeps(g, h, hash, hi, h1, hash', hi1);
    FrontierStep(g, m0, hash, hash', a.initial, visited, stack, stack', t);
    assert hash'.Keys == hash.Keys + {dest};
    ReversingStep(g, r, f, lo, h, hash, hi, h1, hash', hi1, c, t);
    ReadyUnpack(manager, res, hash', a);
    AddTransition(manager, res, hash', a, hash'[dest], hash'[s], lab);
    ReadyUnpack(manager, res, hash', a);
    if a.loc[dest].final {
      AddTransition(manager, res, hash', a, res.initial, hash'[s], lab);
      ReadyUnpack(manager, res, hash', a);
      FlagLocation(manager, res, hash', a, hash'[dest], false);
    }
    OneIs(g, h1, hash', t);
  }

  /** The body of the loop: the transitions of one location. */
  method ReverseLocation(manager: AutomataManager, res: Automaton, hash: LocHash, stack: seq<Loc>, a: Automaton, s: Loc,
                         ghost r: Loc, ghost f: Loc, ghost lo: nat, ghost visited: set<Loc>, ghost m0: LocHash)
    returns (hash': LocHash, stack': seq<Loc>)
    requires Ready(manager, res, hash, a) && s in a.loc && s in hash
    requires Reversing(a.Graph(), r, f, lo, res.Graph(), hash, manager.nextLoc, Leaving(a.Graph(), visited))
    requires Frontier(a.Graph(), m0, hash, a.initial, visited + {s}, stack)
    modifies res, manager
    ensures Ready(manager, res, hash', a)
    ensures Reversing(a.Graph(), r, f, lo, res.Graph(), hash', manager.nextLoc, Leaving(a.Graph(), visited + {s}))
    ensures Frontier(a.Graph(), m0, hash', a.initial, visited + {s}, stack')
  {
    hide *;
    ghost var g, c := a.Graph(), Leaving(a.Graph(), visited);
    ReadyUnpack(manager, res, hash, a);
    hash', stack' := hash, stack;
    var ts := a.loc[s].transitions;
    ListStart(a, s);
    LeavingMore(a, visited, s);
    assert c + {} == c;
    var i := 0;
    while i < |ts|
      invariant 0 <= i <= |ts|
      invariant Ready(manager, res, hash', a) && s in hash'
      invariant a.Graph() == g && a.loc == old(a.loc) && a.initial == old(a.initial)
      invariant Reversing(g, r, f, lo, res.Graph(), hash', manager.nextLoc, c + TransFrom(s, ts[..i]))
      invariant Frontier(g, m0, hash', a.initial, visited + {s}, stack')
    {
      ReadyUnpack(manager, res, hash', a);
      ListNext(a, s, i);
      hash', stack' := ReverseTransition(manager, res, hash', stack', a, s, i, r, f, lo, visited + {s}, m0, c + TransFrom(s, ts[..i]));
      assert c + TransFrom(s, ts[..i + 1]) == c + TransFrom(s, ts[..i]) + {TransAt(a, s, i)};
      i := i + 1;
    }
  }

  /** The result with its two first locations: the initial one and the copy of the initial one. */
  method StartReverse(manager: AutomataManager, a: Automaton) returns (res: Automaton, hash: LocHash)
    requires a.Valid() && SinkOk(a.Graph())
    modifies manager
    ensures fresh(res) && Ready(manager, res, hash, a) && old(manager.nextLoc) <= manager.nextLoc
    ensures a.initial in hash && hash == map[a.initial := hash[a.initial]]
    ensures Reversing(a.Graph(), res.initial, hash[a.initial], manager.nextLoc, res.Graph(), hash, manager.nextLoc, Leaving(a.Graph(), {}))
  {
    hide *;
    ValidUnpack(a);
    res := NewResult(manager, a.loc[a.initial].final);
    ghost var r := res.initial;
    SingleLocs(r, a.loc[a.initial].final);
    ValidUnpack(res);
    var f := res.AddLoc(manager, true);
    hash := map[a.initial := f];
    StartIs(a.Graph(), r, f, a.loc[a.initial].final);
    ReversingStart(a.Graph(), r, f, manager.nextLoc);
    ValidUnpack(res);
    StartReady(a.Graph(), r, f);
    ReadyPack(manager, res, hash, a);
  }

  lemma StartIs(g: Nfa, r: Loc, f: Loc, final: bool)
    requires final <==> g.init in g.final
    ensures Start(g, r, f) == WithLoc(Single(r, final), f, true)
  {
  }

  lemma StartReady(g: Nfa, r: Loc, f: Loc)
    requires SinkOk(g)
    ensures ReadyOn(g, Start(g, r, f), map[g.init := f])
  {
  }

  lemma VisibleAbsent(g: Nfa, h: Nfa, m: LocHash, key: Loc)
    requires key !in m
    ensures Visible(g, h, m, key) == m
  {
    assert m - {key} == m;
  }

  lemma OneIs(g: Nfa, h: Nfa, m: LocHash, t: Trans)
    requires t.src in m && t.dst in m
    ensures var h' := WithTrans(h, Trans(m[t.dst], t.lab, m[t.src]));
            ReversedOne(g, h, m, t) ==
            if t.dst in g.final then WithFinal(WithTrans(h', Trans(h.init, t.lab, m[t.src])), m[t.dst], false) else h'
    ensures WithTrans(h, Trans(m[t.dst], t.lab, m[t.src])).init == h.init
  {
  }

  lemma SinkOkFacts(h: Nfa)
    requires h.sink.Some? ==> !Connected(h, h.init, h.sink.value)
    ensures SinkOk(h) || (h.sink.Some? && !Connected(h, h.init, h.sink.value))
  {
  }

  /** Reverse an automaton.  If its initial location is final and a reachable transition leads back to
      it, only the empty word is kept. */
  method Reverse(manager: AutomataManager, a: Automaton) returns (res: Automaton)
    requires a.Usable(manager)
    modifies manager
    ensures fresh(res) && res.Usable(manager) && old(manager.nextLoc) <= manager.nextLoc
    ensures forall l :: l in res.loc ==> old(manager.nextLoc) <= l
    ensures Lang(res.Graph()) == if ReturnsToFinalStart(a.Graph()) then iset{[]} else Mirror(Lang(a.Graph()))
    ensures LabelsSat(a.Graph()) ==> (Lang(res.Graph()) == Mirror(Lang(a.Graph())) <==> !ReturnsToFinalStart(a.Graph()))
    ensures NoReturn(res.Graph()) && (LabelsSat(a.Graph()) ==> LabelsSat(res.Graph()))
  {
    hide *;
    UsableUnpack(manager, a);
    ghost var g, start := a.Graph(), manager.nextLoc;
    var unpruned: Automaton, hash: LocHash := StartReverse(manager, a);
    ghost var r, f, lo, m0: LocHash := unpruned.initial, hash[a.initial], manager.nextLoc, hash;
    FrontierFrom(g, m0, a.initial);
    var stack := [a.initial];
    ghost var visited: set<Loc> := {};
    while stack != []
      invariant Ready(manager, unpruned, hash, a) && a.Graph() == g && a.initial == old(a.initial)
      invariant Reversing(g, r, f, lo, unpruned.Graph(), hash, manager.nextLoc, Leaving(g, visited))
      invariant Frontier(g, m0, hash, a.initial, visited, stack)
      decreases g.locs - visited
    {
      FrontierPop(g, m0, hash, a.initial, visited, stack);
      ReadyUnpack(manager, unpruned, hash, a);
      var s := stack[0];
      hash, stack := ReverseLocation(manager, unpruned, hash, stack[1..], a, s, r, f, lo, visited, m0);
      visited := visited + {s};
    }
    FrontierDone(g, m0, hash, a.initial, visited);
    ReadyUnpack(manager, unpruned, hash, a);
    ReversingFacts(g, r, f, lo, unpruned.Graph(), hash, manager.nextLoc, Leaving(g, visited));
    ReverseDonePack(g, r, f, lo, unpruned.Graph(), hash, manager.nextLoc, visited, m0);
    ReverseAll(g, r, f, lo, unpruned.Graph(), hash, manager.nextLoc);
    SinkOkFacts(unpruned.Graph());
    ReadySinks(g, unpruned.Graph(), hash);
    res := Prune(manager, unpruned);
    if ReturnsToFinalStart(g) && LabelsSat(g) {
      LossIsReal(g);
    }
  }

  lemma ReadySinks(g: Nfa, h: Nfa, m: LocHash)
    requires ReadyOn(g, h, m)
    ensures SinkNotFinal(h)
  {
  }

  /** Minimization: reverse, determinize, reverse, determinize.  The second reversal never loses a word,
      since the determinized automaton does not return to its initial location. */
  method Minimize(manager: AutomataManager, a: Automaton) returns (res: Automaton)
    requires a.Usable(manager)
    modifies manager
    ensures fresh(res) && res.Usable(manager) && old(manager.nextLoc) <= manager.nextLoc
    ensures forall l :: l in res.loc ==> old(manager.nextLoc) <= l
    ensures Lang(res.Graph()) == if ReturnsToFinalStart(a.Graph()) then iset{[]} else Lang(a.Graph())
    ensures LabelsSat(a.Graph()) ==> (Lang(res.Graph()) == Lang(a.Graph()) <==> !ReturnsToFinalStart(a.Graph()))
    ensures Deterministic(res.Graph()) && Total(res.Graph(), res.loc.Keys)
  {
    hide *;
    var reversed := Reverse(manager, a);
    UsableUnpack(manager, reversed);
    var determinized := Determinize(manager, reversed);
    UsableUnpack(manager, determinized);
    NoReturnNoLoss(determinized.Graph());
    reversed := Reverse(manager, determinized);
    UsableUnpack(manager, reversed);
    res := Determinize(manager, reversed);
    MirrorTwice(Lang(a.Graph()));
    MirrorEmptyWord();
    if ReturnsToFinalStart(a.Graph()) && LabelsSat(a.Graph()) {
      LossIsReal(a.Graph());
    }
  }
}
