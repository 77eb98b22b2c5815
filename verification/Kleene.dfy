/** Kleene plus and Kleene star. */
module KleeneLanguage {
  import opened BoolExpr
  import opened Alphabet
  import opened Nfas
  import opened Automata
  import opened CopyGraphs
  import opened Parts

  /** The transitions of c that enter a final location, led to r instead. */
  ghost function Loops(c: set<Trans>, m: LocHash, final: set<Loc>, r: Loc): set<Trans> {
    set t | t in c && t.src in m && t.dst in final :: Trans(m[t.src], t.lab, r)
  }

  ghost predicate CopiedPlus(g: Nfa, h0: Nfa, h: Nfa, m: LocHash, c: set<Trans>) {
    && c <= g.trans && EndsIn(c, m)
    && h.trans == h0.trans + Image(c, m) + Loops(c, m, g.final, h0.init)
  }

  lemma CopiedPlusStart(g: Nfa, h: Nfa, m: LocHash)
    ensures CopiedPlus(g, h, h, m, Leaving(g, {}))
  {
  }

  lemma CopiedPlusStep(g: Nfa, h0: Nfa, h1: Nfa, m1: LocHash, h: Nfa, m: LocHash, c: set<Trans>, t: Trans)
    requires CopiedPlus(g, h0, h1, m1, c)
    requires m1.Keys <= m.Keys && forall k :: k in m1 ==> m[k] == m1[k]
    requires t in g.trans && t.src in m && t.dst in m
    requires h.trans == h1.trans + {Trans(m[t.src], t.lab, m[t.dst])} +
                        if t.dst in g.final then {Trans(m[t.src], t.lab, h0.init)} else {}
    ensures CopiedPlus(g, h0, h, m, c + {t})
  {
    ImageKept(c, m1, m);
    ImageAdd(c, t, m);
    assert Loops(c, m, g.final, h0.init) == Loops(c, m1, g.final, h0.init);
    assert Loops(c + {t}, m, g.final, h0.init) == Loops(c, m, g.final, h0.init) +
           if t.dst in g.final then {Trans(m[t.src], t.lab, h0.init)} else {};
  }

  /** The finished automaton: a copy in which every transition into a final location also leads
      back to the initial location. */
  ghost predicate IsPlus(g: Nfa, h: Nfa, m: LocHash) {
    && g.init in m && m[g.init] == h.init
    && (forall k, l :: k in m && l in m && k != l ==> m[k] != m[l])
    && EndsIn(Leaving(g, m.Keys), m)
    && h.trans == Image(Leaving(g, m.Keys), m) + Loops(Leaving(g, m.Keys), m, g.final, h.init)
  }

  lemma PlusSteps(g: Nfa, h: Nfa, m: LocHash, p: Loc, a: Letter)
    requires IsPlus(g, h, m) && p in m
    ensures forall q :: Step(g, p, a, q) ==> q in m && Step(h, m[p], a, m[q])
    ensures forall q :: Step(g, p, a, q) && q in g.final ==> Step(h, m[p], a, h.init)
    ensures forall r :: Step(h, m[p], a, r) ==>
              exists q :: Step(g, p, a, q) && q in m && (m[q] == r || (r == h.init && q in g.final))
  {
    var c := Leaving(g, m.Keys);
    forall q | Step(g, p, a, q)
      ensures q in m && Step(h, m[p], a, m[q]) && (q in g.final ==> Step(h, m[p], a, h.init))
    {
      var t :| t in g.trans && t.src == p && t.dst == q && Holds(t.lab, a);
      assert t in c;
      assert Trans(m[p], t.lab, m[q]) in h.trans;
      if q in g.final {
        assert Trans(m[p], t.lab, h.init) in Loops(c, m, g.final, h.init);
      }
    }
    forall r | Step(h, m[p], a, r)
      ensures exists q :: Step(g, p, a, q) && q in m && (m[q] == r || (r == h.init && q in g.final))
    {
      var u :| u in h.trans && u.src == m[p] && u.dst == r && Holds(u.lab, a);
      var t :| t in c && t.src in m && t.dst in m && m[t.src] == u.src && t.lab == u.lab &&
               (u.dst == m[t.dst] || (u.dst == h.init && t.dst in g.final));
      assert t.src == p;
      assert Step(g, p, a, t.dst);
    }
  }

  /** What the automaton accepts when its final locations are the copies of `ends`: a word accepted
      by the original at one of the ends, possibly after words accepted by the original. */
  lemma {:induction false} PlusAccepts(g: Nfa, h: Nfa, m: LocHash, ends: set<Loc>, p: Loc, w: Word)
    requires IsPlus(g, h, m) && p in m
    requires forall k :: k in m ==> (m[k] in h.final <==> k in ends)
    ensures Accepts(h, m[p], w) <==> Repeats(g, h, ends, p, w)
    decreases |w|
  {
    if w != [] {
      PlusSteps(g, h, m, p, w[0]);
      hide IsPlus, Repeats;
      if r :| Step(h, m[p], w[0], r) && Accepts(h, r, w[1..]) {
        var q :| Step(g, p, w[0], q) && q in m && (m[q] == r || (r == h.init && q in g.final));
        if m[q] == r {
          PlusAccepts(g, h, m, ends, q, w[1..]);
          RepeatsStep(g, h, ends, p, w, q);
        } else {
          RepeatsJump(g, h, ends, p, w, q);
        }
      }
      if Repeats(g, h, ends, p, w) {
        var q := RepeatsFirst(g, h, ends, p, w);
        PlusAccepts(g, h, m, ends, q, w[1..]);
      }
    }
  }

  /** A word accepted at one of the ends, possibly after words accepted by the original. */
  ghost predicate Repeats(g: Nfa, h: Nfa, ends: set<Loc>, p: Loc, w: Word) {
    Accepts(g.(final := ends), p, w) ||
    exists i | 0 < i <= |w| :: Accepts(g, p, w[..i]) && Accepts(h, h.init, w[i..])
  }

  lemma RepeatsStep(g: Nfa, h: Nfa, ends: set<Loc>, p: Loc, w: Word, q: Loc)
    requires w != [] && Step(g, p, w[0], q) && Repeats(g, h, ends, q, w[1..])
    ensures Repeats(g, h, ends, p, w)
  {
    var v := w[1..];
    if Accepts(g.(final := ends), q, v) {
      assert Step(g.(final := ends), p, w[0], q);
    } else {
      var i :| 0 < i <= |v| && Accepts(g, q, v[..i]) && Accepts(h, h.init, v[i..]);
      assert w[..i + 1][1..] == v[..i] && w[i + 1..] == v[i..];
    }
  }

  lemma RepeatsJump(g: Nfa, h: Nfa, ends: set<Loc>, p: Loc, w: Word, q: Loc)
    requires w != [] && Step(g, p, w[0], q) && q in g.final && Accepts(h, h.init, w[1..])
    ensures Repeats(g, h, ends, p, w)
  {
    assert w[..1][1..] == [] && Accepts(g, p, w[..1]);
  }

  /** The first letter of such a word. */
  lemma RepeatsFirst(g: Nfa, h: Nfa, ends: set<Loc>, p: Loc, w: Word) returns (q: Loc)
    requires w != [] && Repeats(g, h, ends, p, w)
    ensures Step(g, p, w[0], q)
    ensures Repeats(g, h, ends, q, w[1..]) || (q in g.final && Accepts(h, h.init, w[1..]))
  {
    if Accepts(g.(final := ends), p, w) {
      q :| Step(g.(final := ends), p, w[0], q) && Accepts(g.(final := ends), q, w[1..]);
      assert Step(g, p, w[0], q);
    } else {
      var i :| 0 < i <= |w| && Accepts(g, p, w[..i]) && Accepts(h, h.init, w[i..]);
      q :| Step(g, p, w[..i][0], q) && Accepts(g, q, w[..i][1..]);
      if i > 1 {
        assert w[1..][..i - 1] == w[..i][1..] && w[1..][i - 1..] == w[i..];
      }
    }
  }

  lemma PlusLanguage(g: Nfa, h: Nfa, m: LocHash, ends: set<Loc>)
    requires IsPlus(g, h, m)
    requires forall k :: k in m ==> (m[k] in h.final <==> k in ends)
    ensures Lang(h) == Cat(Star(Lang(g)), Lang(g.(final := ends)))
  {
    var x, e, l := Lang(g), Lang(g.(final := ends)), Lang(h);
    forall v
      ensures v in l <==> v in e || exists i | 0 < i <= |v| :: v[..i] in x && v[i..] in l
    {
      PlusAccepts(g, h, m, ends, g.init, v);
    }
    forall w ensures w in l <==> w in Cat(Star(x), e) {
      FrontClosure(x, e, l, w);
    }
  }

  /** Kleene plus: the language repeated one or more times; what leads the initial location back
      to itself is any repetition followed by a cycle of the operand. */
  lemma PlusMeans(g: Nfa, h: Nfa, m: LocHash)
    requires IsPlus(g, h, m)
    requires forall k :: k in m ==> (m[k] in h.final <==> k in g.final)
    ensures Lang(h) == Plus(Lang(g))
    ensures Returns(h) == Cat(Star(Lang(g)), Returns(g))
  {
    PlusLanguage(g, h, m, g.final);
    PlusFromEnd(Lang(g));
    PlusLanguage(g, Rooted(h), m, {g.init});
  }

  /** Kleene star: the same automaton, accepting at its initial location too, accepts any
      repetition followed by a cycle of the operand. */
  lemma StarMeans(g: Nfa, h: Nfa, m: LocHash)
    requires IsPlus(g, h, m)
    requires forall k :: k in m ==> (m[k] in h.final <==> k in g.final + {g.init})
    ensures Lang(h) == Cat(Star(Lang(g)), Returns(g))
    ensures Returns(h) == Cat(Star(Lang(g)), Returns(g))
  {
    PlusLanguage(g, h, m, g.final + {g.init});
    forall w ensures w in Lang(g.(final := g.final + {g.init})) <==> w in Lang(g) + Returns(g) {
      AcceptsEither(g, g.final, {g.init}, g.init, w);
      assert g.(final := g.final) == g;
    }
    StarAbsorbs(Lang(g), Returns(g));
    PlusLanguage(g, Rooted(h), m, {g.init});
  }

  lemma StarAbsorbs(x: Language, y: Language)
    requires [] in y
    ensures Cat(Star(x), x + y) == Cat(Star(x), y)
  {
    forall w | w in Cat(Star(x), x + y) ensures w in Cat(Star(x), y) {
      var i :| 0 <= i <= |w| && w[..i] in Star(x) && w[i..] in x + y;
      if w[i..] in x {
        StarStep(x, w[i..], []);
        assert w[i..] + [] == w[i..];
        StarCat(x, w[..i], w[i..]);
        assert w[..i] + w[i..] == w;
        CatAt(Star(x), y, w, []);
        assert w + [] == w;
      }
    }
    forall w | w in Cat(Star(x), y) ensures w in Cat(Star(x), x + y) {
      var i :| 0 <= i <= |w| && w[..i] in Star(x) && w[i..] in y;
      assert w[i..] in x + y;
    }
  }

  lemma StarKeptAt(x: Language, y: Language, w: Word)
    requires y <= Star(x) && IsCat(Star(x), y, w)
    ensures InStar(x, w)
  {
    var i :| 0 <= i <= |w| && w[..i] in Star(x) && w[i..] in y;
    assert w[i..] in Star(x);
    hide InStar;
    StarCat(x, w[..i], w[i..]);
    assert w[..i] + w[i..] == w;
  }

  lemma StarKept(x: Language, y: Language)
    requires y <= Star(x)
    ensures Cat(Star(x), y) <= Star(x)
  {
    forall w | w in Cat(Star(x), y) ensures w in Star(x) {
      StarKeptAt(x, y, w);
    }
  }

  /** The exact condition under which star gives the Kleene star of the language: every word that
      leads the initial location of the operand back to itself is a repetition already. */
  lemma StarExact(x: Language, y: Language)
    requires [] in y
    ensures Cat(Star(x), y) == Star(x) <==> y <= Star(x)
  {
    hide Star, Cat;
    if Cat(Star(x), y) == Star(x) {
      forall w | w in y ensures w in Star(x) {
        StarNone(x, y, w);
      }
    }
    if y <= Star(x) {
      StarKept(x, y);
      CatWithEmpty(Star(x), y);
    }
  }

  lemma EmptyReturns(g: Nfa)
    ensures [] in Returns(g)
  {
  }

  /** What the loop leaves is a plus. */
  lemma CopiesMakePlus(g: Nfa, r: Loc, lo: nat, h: Nfa, m: LocHash, hi: nat)
    requires Closed(g) && SinkOk(g) && r < lo
    requires Extends(g, Single(r, g.init in g.final), map[g.init := r], lo, h, m, hi)
    requires CopiedPlus(g, Single(r, g.init in g.final), h, m, Leaving(g, m.Keys))
    ensures IsPlus(g, h, m) && (forall k :: k in m ==> (m[k] in h.final <==> k in g.final))
    ensures SinkOk(h)
    ensures LabelsSat(g) ==> LabelsSat(h)
    ensures h.init in h.locs && forall l :: l in h.locs ==> r <= l
  {
    var h0, m0: LocHash := Single(r, g.init in g.final), map[g.init := r];
    ExtendsKeys(g, h0, m0, lo, h, m, hi);
    PlusSink(g, r, lo, h, m, hi);
  }

  /** Making the initial location final changes nothing else. */
  lemma StarFinals(g: Nfa, h: Nfa, h': Nfa, m: LocHash)
    requires IsPlus(g, h, m) && (forall k :: k in m ==> (m[k] in h.final <==> k in g.final))
    requires SinkOk(h)
    requires h' == WithFinal(h, h.init, true)
    ensures IsPlus(g, h', m) && SinkOk(h') && h'.sink == h.sink && h'.init == h.init
    ensures forall k :: k in m ==> (m[k] in h'.final <==> k in g.final + {g.init})
    ensures LabelsSat(h) ==> LabelsSat(h')
  {
  }

  lemma PlusSink(g: Nfa, r: Loc, lo: nat, h: Nfa, m: LocHash, hi: nat)
    requires Closed(g) && SinkOk(g) && r < lo
    requires Extends(g, Single(r, g.init in g.final), map[g.init := r], lo, h, m, hi)
    requires CopiedPlus(g, Single(r, g.init in g.final), h, m, Leaving(g, m.Keys))
    ensures SinkOk(h)
  {
    var c := Leaving(g, m.Keys);
    forall u | u in h.trans && h.sink == Some(u.src) ensures u.dst == u.src {
      var t :| t in c && t.src in m && t.dst in m && m[t.src] == u.src && t.lab == u.lab &&
               (u.dst == m[t.dst] || (u.dst == r && t.dst in g.final));
      assert t.src == g.sink.value;
    }
  }
}

module Kleenes {
  import opened BoolExpr
  import opened Alphabet
  import opened Nfas
  import opened Automata
  import opened CopyGraphs
  import opened Copying
  import opened KleeneLanguage

  /** A transition that enters a final location also leads back to the initial location. */
  method LoopBack(manager: AutomataManager, res: Automaton, ghost hash: LocHash, a: Automaton, src: Loc, t: Transition,
                  ghost h0: Nfa, ghost m0: LocHash, ghost lo: nat)
    requires Ready(manager, res, hash, a) && src in res.loc && t.end in a.loc
    requires Extends(a.Graph(), h0, m0, lo, res.Graph(), hash, manager.nextLoc)
    modifies res
    ensures Ready(manager, res, hash, a) && res.Graph().init == h0.init
    ensures Extends(a.Graph(), h0, m0, lo, res.Graph(), hash, manager.nextLoc)
    ensures res.Graph().trans == old(res.Graph()).trans + if t.end in a.Graph().final then {Trans(src, t.lab, h0.init)} else {}
  {
    hide *;
    ReadyUnpack(manager, res, hash, a);
    ExtendsInit(a.Graph(), h0, m0, lo, res.Graph(), hash, manager.nextLoc);
    if a.loc[t.end].final {
      ExtendsWithTrans(a.Graph(), h0, m0, lo, res.Graph(), hash, manager.nextLoc, Trans(src, t.lab, res.initial));
      AddTransition(manager, res, hash, a, src, res.initial, t.lab);
      ExtendsInit(a.Graph(), h0, m0, lo, res.Graph(), hash, manager.nextLoc);
    }
  }

  /** The body of the loop of Kleene plus: the transitions that leave one location are copied, and
      those that enter a final location also lead back to the initial location. */
  method KleeneOutgoing(manager: AutomataManager, res: Automaton, hash: LocHash, a: Automaton, current: Loc, stack: seq<Loc>,
                        ghost h0: Nfa, ghost m0: LocHash, ghost lo: nat, ghost visited: set<Loc>)
    returns (hash': LocHash, stack': seq<Loc>)
    requires Ready(manager, res, hash, a)
    requires (forall l :: l in h0.locs ==> l < lo) && h0.sink.None? && res.Graph().init == h0.init
    requires current in a.loc && current in hash && current !in visited
    requires Extends(a.Graph(), h0, m0, lo, res.Graph(), hash, manager.nextLoc)
    requires Frontier(a.Graph(), m0, hash, a.initial, visited + {current}, stack)
    requires CopiedPlus(a.Graph(), h0, res.Graph(), hash, Leaving(a.Graph(), visited))
    modifies res, manager
    ensures Ready(manager, res, hash', a) && res.Graph().init == h0.init
    ensures Extends(a.Graph(), h0, m0, lo, res.Graph(), hash', manager.nextLoc)
    ensures Frontier(a.Graph(), m0, hash', a.initial, visited + {current}, stack')
    ensures CopiedPlus(a.Graph(), h0, res.Graph(), hash', Leaving(a.Graph(), visited + {current}))
  {
    hide *;
    ReadyUnpack(manager, res, hash, a);
    hash', stack' := hash, stack;
    var ts := a.loc[current].transitions;
    ghost var g, start := a.Graph(), a.initial;
    ExpandStart(manager, res, hash, a, current, visited);
    ghost var before := Leaving(g, visited);
    var i := 0;
    while i < |ts|
      invariant 0 <= i <= |ts|
      invariant Ready(manager, res, hash', a) && current in hash' && res.Graph().init == h0.init
      invariant a.Graph() == g && a.loc == old(a.loc) && a.initial == start
      invariant Extends(g, h0, m0, lo, res.Graph(), hash', manager.nextLoc)
      invariant Frontier(g, m0, hash', start, visited + {current}, stack')
      invariant CopiedPlus(g, h0, res.Graph(), hash', before + TransFrom(current, ts[..i]))
    {
      ghost var h1, m1, mid, stack1 := res.Graph(), hash', manager.nextLoc, stack';
      ExpandNext(manager, res, hash', a, current, i);
      assert current in m1 && m1[current] in res.loc;
      hash', stack' := CopyTransitionToLoc(manager, res, hash'[current], a, ts[i], hash', stack');
      ghost var t := Trans(current, ts[i].lab, ts[i].end);
      CopyStep(g, h0, m0, lo, h1, m1, mid, res.Graph(), hash', manager.nextLoc, m0, start, visited + {current}, stack1, stack', t);
      ReadyAt(manager, res, hash', a, current);
      LoopBack(manager, res, hash', a, hash'[current], ts[i], h0, m0, lo);
      CopiedPlusStep(g, h0, h1, m1, res.Graph(), hash', before + TransFrom(current, ts[..i]), t);
      assert before + TransFrom(current, ts[..i + 1]) == before + TransFrom(current, ts[..i]) + {t};
      i := i + 1;
    }
  }

  /** The depth-first loop of Kleene plus. */
  method KleeneCopy(manager: AutomataManager, a: Automaton) returns (res: Automaton, ghost m: LocHash)
    requires a.Usable(manager)
    modifies manager
    ensures fresh(res) && res.Usable(manager) && old(manager.nextLoc) <= manager.nextLoc
    ensures (forall l :: l in res.loc ==> old(manager.nextLoc) <= l) && res.initial in res.loc
    ensures IsPlus(a.Graph(), res.Graph(), m)
    ensures forall k :: k in m ==> (m[k] in res.Graph().final <==> k in a.Graph().final)
    ensures LabelsSat(a.Graph()) ==> LabelsSat(res.Graph())
  {
    hide *;
    UsableUnpack(manager, a);
    res := NewResult(manager, a.loc[a.initial].final);
    ghost var g, r, h0, lo, start := a.Graph(), res.initial, res.Graph(), manager.nextLoc, a.initial;
    SingleLocs(r, a.loc[a.initial].final);
    var hash: LocHash := map[a.initial := res.initial];
    ghost var m0 := hash;
    ReadyFromInitial(manager, res, a, a.loc[a.initial].final);
    ExtendsSame(g, h0, m0, lo);
    FrontierFrom(g, m0, a.initial);
    CopiedPlusStart(g, h0, m0);
    var stack := [a.initial];
    ghost var visited: set<Loc> := {};
    while stack != []
      invariant Ready(manager, res, hash, a) && a.Graph() == g && a.initial == start
      invariant res.Graph().init == h0.init
      invariant Extends(g, h0, m0, lo, res.Graph(), hash, manager.nextLoc)
      invariant Frontier(g, m0, hash, start, visited, stack)
      invariant CopiedPlus(g, h0, res.Graph(), hash, Leaving(g, visited))
      decreases g.locs - visited
    {
      FrontierPop(g, m0, hash, start, visited, stack);
      ReadyUnpack(manager, res, hash, a);
      var current := stack[0];
      hash, stack := KleeneOutgoing(manager, res, hash, a, current, stack[1..], h0, m0, lo, visited);
      visited := visited + {current};
    }
    FrontierDone(g, m0, hash, start, visited);
    ExtendsKeeps(g, h0, m0, lo, res.Graph(), hash, manager.nextLoc);
    assert visited == hash.Keys;
    ReadyUnpack(manager, res, hash, a);
    CopiesMakePlus(g, r, lo, res.Graph(), hash, manager.nextLoc);
    UsablePack(manager, res);
    m := hash;
  }

  method KleenePlus(manager: AutomataManager, a: Automaton) returns (res: Automaton)
    requires a.Usable(manager)
    modifies manager
    ensures fresh(res) && res.Usable(manager) && old(manager.nextLoc) <= manager.nextLoc
    ensures forall l :: l in res.loc ==> old(manager.nextLoc) <= l
    ensures Lang(res.Graph()) == Plus(Lang(a.Graph()))
    ensures Returns(res.Graph()) == Cat(Star(Lang(a.Graph())), Returns(a.Graph()))
    ensures LabelsSat(a.Graph()) ==> LabelsSat(res.Graph())
  {
    hide *;
    ghost var m;
    res, m := KleeneCopy(manager, a);
    PlusMeans(a.Graph(), res.Graph(), m);
  }

  method KleeneStar(manager: AutomataManager, a: Automaton) returns (res: Automaton)
    requires a.Usable(manager)
    modifies manager
    ensures fresh(res) && res.Usable(manager) && old(manager.nextLoc) <= manager.nextLoc
    ensures forall l :: l in res.loc ==> old(manager.nextLoc) <= l
    ensures Lang(res.Graph()) == Cat(Star(Lang(a.Graph())), Returns(a.Graph()))
    ensures Returns(res.Graph()) == Cat(Star(Lang(a.Graph())), Returns(a.Graph()))
    ensures Lang(res.Graph()) == Star(Lang(a.Graph())) <==> Returns(a.Graph()) <= Star(Lang(a.Graph()))
    ensures LabelsSat(a.Graph()) ==> LabelsSat(res.Graph())
  {
    hide *;
    ghost var m;
    res, m := KleeneCopy(manager, a);
    ghost var h := res.Graph();
    UsableUnpack(manager, res);
    res.SetLocationFinal(res.initial, true);
    StarFinals(a.Graph(), h, res.Graph(), m);
    StarMeans(a.Graph(), res.Graph(), m);
    EmptyReturns(a.Graph());
    StarExact(Lang(a.Graph()), Returns(a.Graph()));
    ValidUnpack(res);
    UsablePack(manager, res);
  }
}
