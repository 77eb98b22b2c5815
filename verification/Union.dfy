/** Union of two automata. */
module UnionLanguage {
  import opened BoolExpr
  import opened Alphabet
  import opened Nfas
  import opened Automata
  import opened CopyGraphs
  import opened Parts

  /** The initial location of h has the outgoing transitions of the initial locations of both
      operands, which are copied in h, and no incoming ones. */
  ghost predicate IsUnion(g1: Nfa, k1: set<Loc>, g2: Nfa, k2: set<Loc>, h: Nfa, m: LocHash) {
    && PartOf(g1, h, m, k1) && PartOf(g2, h, m, k2)
    && NoReturn(h)
    && (h.init in h.final <==> g1.init in g1.final || g2.init in g2.final)
    && (forall t :: t in Leaving(g1, {g1.init}) ==> t.dst in k1)
    && (forall t :: t in Leaving(g2, {g2.init}) ==> t.dst in k2)
    && Leaving(h, {h.init}) == Spokes(Leaving(g1, {g1.init}), m, h.init) + Spokes(Leaving(g2, {g2.init}), m, h.init)
  }

  lemma SpokeAccepts(g: Nfa, k: set<Loc>, h: Nfa, m: LocHash, w: Word)
    requires PartOf(g, h, m, k) && (forall t :: t in Leaving(g, {g.init}) ==> t.dst in k)
    requires Spokes(Leaving(g, {g.init}), m, h.init) <= h.trans
    requires w != [] && Accepts(g, g.init, w)
    ensures Accepts(h, h.init, w)
  {
    var q :| Step(g, g.init, w[0], q) && Accepts(g, q, w[1..]);
    var t :| t in g.trans && t.src == g.init && t.dst == q && Holds(t.lab, w[0]);
    assert t in Leaving(g, {g.init});
    assert Trans(h.init, t.lab, m[q]) in Spokes(Leaving(g, {g.init}), m, h.init);
    PartAccepts(g, h, m, k, q, w[1..]);
    assert Step(h, h.init, w[0], m[q]);
  }

  lemma SpokeOrigin(g: Nfa, k: set<Loc>, h: Nfa, m: LocHash, u: Trans, w: Word)
    requires PartOf(g, h, m, k) && (forall t :: t in Leaving(g, {g.init}) ==> t.dst in k)
    requires u in Spokes(Leaving(g, {g.init}), m, h.init)
    requires w != [] && Holds(u.lab, w[0]) && Accepts(h, u.dst, w[1..])
    ensures Accepts(g, g.init, w)
  {
    var t :| t in Leaving(g, {g.init}) && t.dst in m && u == Trans(h.init, t.lab, m[t.dst]);
    PartAccepts(g, h, m, k, t.dst, w[1..]);
    assert Step(g, g.init, w[0], t.dst);
  }

  /** The union accepts the words of either operand. */
  lemma UnionAccepts(g1: Nfa, k1: set<Loc>, g2: Nfa, k2: set<Loc>, h: Nfa, m: LocHash)
    requires IsUnion(g1, k1, g2, k2, h, m)
    ensures Lang(h) == Lang(g1) + Lang(g2)
  {
    forall w | w != []
      ensures w in Lang(h) <==> w in Lang(g1) + Lang(g2)
    {
      if w in Lang(g1) {
        SpokeAccepts(g1, k1, h, m, w);
      }
      if w in Lang(g2) {
        SpokeAccepts(g2, k2, h, m, w);
      }
      if w in Lang(h) {
        var r :| Step(h, h.init, w[0], r) && Accepts(h, r, w[1..]);
        var u :| u in h.trans && u.src == h.init && u.dst == r && Holds(u.lab, w[0]);
        assert u in Leaving(h, {h.init});
        if u in Spokes(Leaving(g1, {g1.init}), m, h.init) {
          SpokeOrigin(g1, k1, h, m, u, w);
        } else {
          SpokeOrigin(g2, k2, h, m, u, w);
        }
      }
    }
  }

  /** The two copies make a union. */
  lemma CopiesMakeUnion(g1: Nfa, g2: Nfa, l0: Loc, h0: Nfa, lo: nat, h1: Nfa, m1: LocHash, mid: nat, h: Nfa, m: LocHash, hi: nat)
    requires Closed(g1) && SinkOk(g1) && Closed(g2) && SinkOk(g2) && g1.locs !! g2.locs
    requires h0 == Single(l0, g1.init in g1.final || g2.init in g2.final) && l0 < lo
    requires Extends(g1, h0, map[], lo, h1, m1, mid)
    requires CopiedFromInitial(g1, h0, map[], h1, m1, Leaving(g1, {g1.init}), true)
    requires Extends(g2, h1, m1, mid, h, m, hi)
    requires CopiedFromInitial(g2, h1, m1, h, m, Leaving(g2, {g2.init}), true)
    ensures IsUnion(g1, m1.Keys, g2, m.Keys - m1.Keys, h, m) && SinkOk(h) && NoReturn(h)
    ensures LabelsSat(g1) && LabelsSat(g2) ==> LabelsSat(h)
  {
    hide PartOf, Extends, Leaving, Spokes, LabelsSat, NoReturn, CopiedFromInitial;
    SingleTarget(l0, g1.init in g1.final || g2.init in g2.final, lo);
    UnionFinal(g1, g2, l0, h0, lo, h1, m1, mid, h, m, hi);
    ExtendsKeys(g1, h0, map[], lo, h1, m1, mid);
    ExtendsKeys(g2, h1, m1, mid, h, m, hi);
    ExtendsKeeps(g2, h1, m1, mid, h, m, hi);
    CopyIsPart(g1, h0, map[], lo, h1, m1, mid, Leaving(g1, {g1.init}), true);
    assert m1.Keys - {} == m1.Keys;
    CopyIsPart(g2, h1, m1, mid, h, m, hi, Leaving(g2, {g2.init}), true);
    PartKept(g1, m1.Keys, g2, h1, m1, mid, h, m, hi, Leaving(g2, {g2.init}), true);
    assert forall k :: k in m ==> m[k] != l0;
    UnionSpokes(g1, g2, h0, h1, m1, h, m);
    SpokeEnds(g1, h0, map[], h1, m1, Leaving(g1, {g1.init}));
    SpokeEnds(g2, h1, m1, h, m, Leaving(g2, {g2.init}));
    if LabelsSat(g1) && LabelsSat(g2) {
      CopyLabels(g1, h0, map[], h1, m1, Leaving(g1, {g1.init}), true);
      CopyLabels(g2, h1, m1, h, m, Leaving(g2, {g2.init}), true);
    }
  }

  lemma SpokeEnds(g: Nfa, h0: Nfa, m0: LocHash, h: Nfa, m: LocHash, c: set<Trans>)
    requires CopiedFromInitial(g, h0, m0, h, m, c, true)
    ensures forall t :: t in c ==> t.dst in m && t.dst !in m0
  {
  }

  lemma SingleTarget(l: Loc, final: bool, lo: nat)
    requires l < lo
    ensures Target(Single(l, final), map[], lo)
  {
  }

  lemma UnionFinal(g1: Nfa, g2: Nfa, l0: Loc, h0: Nfa, lo: nat, h1: Nfa, m1: LocHash, mid: nat, h: Nfa, m: LocHash, hi: nat)
    requires h0 == Single(l0, g1.init in g1.final || g2.init in g2.final)
    requires Extends(g1, h0, map[], lo, h1, m1, mid) && Extends(g2, h1, m1, mid, h, m, hi)
    ensures h1.init == l0 && h.init == l0 && (h.init in h.final <==> g1.init in g1.final || g2.init in g2.final)
    ensures LabelsSat(h0) && h0.trans == {}
    ensures Leaving(g1, {g1.init}) <= g1.trans && Leaving(g2, {g2.init}) <= g2.trans
  {
  }

  lemma UnionSpokes(g1: Nfa, g2: Nfa, h0: Nfa, h1: Nfa, m1: LocHash, h: Nfa, m: LocHash)
    requires h0.trans == {} && h1.init == h0.init && h.init == h0.init
    requires m1.Keys <= m.Keys && (forall k :: k in m1 ==> m[k] == m1[k])
    requires forall k :: k in m ==> m[k] != h0.init
    requires CopiedFromInitial(g1, h0, map[], h1, m1, Leaving(g1, {g1.init}), true)
    requires CopiedFromInitial(g2, h1, m1, h, m, Leaving(g2, {g2.init}), true)
    ensures Leaving(h, {h.init}) == Spokes(Leaving(g1, {g1.init}), m, h.init) + Spokes(Leaving(g2, {g2.init}), m, h.init)
    ensures NoReturn(h)
  {
    SpokesKept(Leaving(g1, {g1.init}), m1, m, h.init);
    var s1, s2 := Spokes(Leaving(g1, {g1.init}), m, h.init), Spokes(Leaving(g2, {g2.init}), m, h.init);
    var i1, i2 := Image(Leaving(g1, m1.Keys), m1), Image(Leaving(g2, m.Keys - m1.Keys), m);
    assert m1.Keys - {} == m1.Keys;
    assert h.trans == (i1 + s1) + i2 + s2;
    NotInitial(Leaving(g1, m1.Keys), m1, h.init);
    NotInitial(Leaving(g2, m.Keys - m1.Keys), m, h.init);
    NotInitial(Leaving(g1, {g1.init}), m, h.init);
    NotInitial(Leaving(g2, {g2.init}), m, h.init);
    hide CopiedFromInitial, Spokes, Image, Leaving;
    LeavingSplit(h, i1, s1, i2, s2);
  }

  lemma LeavingSplit(h: Nfa, i1: set<Trans>, s1: set<Trans>, i2: set<Trans>, s2: set<Trans>)
    requires h.trans == i1 + s1 + i2 + s2
    requires forall t :: t in i1 || t in i2 ==> t.src != h.init && t.dst != h.init
    requires forall t :: t in s1 || t in s2 ==> t.src == h.init && t.dst != h.init
    ensures Leaving(h, {h.init}) == s1 + s2 && NoReturn(h)
  {
  }

  lemma NotInitial(c: set<Trans>, m: LocHash, r: Loc)
    requires forall k :: k in m ==> m[k] != r
    ensures forall t :: t in Image(c, m) ==> t.src != r && t.dst != r
    ensures forall t :: t in Spokes(c, m, r) ==> t.src == r && t.dst != r
  {
  }
}

module Unions {
  import opened BoolExpr
  import opened Alphabet
  import opened Nfas
  import opened Automata
  import opened CopyGraphs
  import opened Copying
  import opened UnionLanguage

  method Union(manager: AutomataManager, a1: Automaton, a2: Automaton) returns (res: Automaton)
    requires a1.Usable(manager) && a2.Usable(manager) && a1.loc.Keys !! a2.loc.Keys
    modifies manager
    ensures fresh(res) && res.Usable(manager) && old(manager.nextLoc) <= manager.nextLoc
    ensures forall l :: l in res.loc ==> old(manager.nextLoc) <= l
    ensures Lang(res.Graph()) == Lang(a1.Graph()) + Lang(a2.Graph())
    ensures NoReturn(res.Graph())
    ensures LabelsSat(a1.Graph()) && LabelsSat(a2.Graph()) ==> LabelsSat(res.Graph())
  {
    hide *;
    UsableUnpack(manager, a1);
    UsableUnpack(manager, a2);
    res := NewResult(manager, a1.loc[a1.initial].final || a2.loc[a2.initial].final);
    ghost var r, h0, lo := res.initial, res.Graph(), manager.nextLoc;
    ReadyStart(manager, res, a1, a1.loc[a1.initial].final || a2.loc[a2.initial].final);
    var hash: LocHash := map[];
    hash := CopyFromInitialLoc(manager, res, a1, hash, false);
    ghost var h1, m1, mid := res.Graph(), hash, manager.nextLoc;
    ExtendsKeys(a1.Graph(), h0, map[], lo, h1, m1, mid);
    ReadySwitch(manager, res, hash, a1, a2);
    hash := CopyFromInitialLoc(manager, res, a2, hash, false);
    ExtendsKeys(a2.Graph(), h1, m1, mid, res.Graph(), hash, manager.nextLoc);
    SingleLocs(r, a1.loc[a1.initial].final || a2.loc[a2.initial].final);
    CopiesMakeUnion(a1.Graph(), a2.Graph(), r, h0, lo, h1, m1, mid, res.Graph(), hash, manager.nextLoc);
    UnionAccepts(a1.Graph(), m1.Keys, a2.Graph(), hash.Keys - m1.Keys, res.Graph(), hash);
    ReadyUnpack(manager, res, hash, a2);
    UsablePack(manager, res);
  }
}
