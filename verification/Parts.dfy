/** A copied part of an automaton accepts what the original accepts. */
module Parts {
  import opened BoolExpr
  import opened Alphabet
  import opened Nfas
  import opened Automata
  import opened CopyGraphs

  /** The locations k of g live in h, where m maps them: with the same final flags and the same
      transitions.  Only a sink may have been merged with another sink. */
  ghost predicate PartOf(g: Nfa, h: Nfa, m: LocHash, k: set<Loc>) {
    && k <= m.Keys
    && SinkOk(g) && SinkOk(h)
    && (forall p :: p in k ==> (p in g.final <==> m[p] in h.final))
    && (forall t :: t in g.trans && t.src in k ==> t.dst in k && Trans(m[t.src], t.lab, m[t.dst]) in h.trans)
    && (forall p, u :: p in k && u in h.trans && u.src == m[p] ==> h.sink == Some(m[p]) || HasOrigin(g, m, p, u))
    && (forall p :: p in k && h.sink == Some(m[p]) ==> g.sink == Some(p))
  }

  ghost predicate HasOrigin(g: Nfa, m: LocHash, p: Loc, u: Trans) {
    exists t :: t in g.trans && t.src == p && t.lab == u.lab && t.dst in m && m[t.dst] == u.dst
  }

  ghost function Restricted(m: LocHash, k: set<Loc>): LocHash {
    map p | p in m && p in k :: m[p]
  }

  lemma PartSimulates(g: Nfa, h: Nfa, m: LocHash, k: set<Loc>)
    requires PartOf(g, h, m, k)
    ensures Simulates(g, h, Restricted(m, k))
  {
    var n := Restricted(m, k);
    forall p, a, q | p in n && Step(g, p, a, q)
      ensures q in n && Step(h, n[p], a, n[q])
    {
      var t :| t in g.trans && t.src == p && t.dst == q && Holds(t.lab, a);
      assert Trans(n[p], t.lab, n[q]) in h.trans;
    }
    forall p, a, r | p in n && Step(h, n[p], a, r)
      ensures Dead(h, r) || exists q :: q in n && n[q] == r && Step(g, p, a, q)
    {
      var u :| u in h.trans && u.src == n[p] && u.dst == r && Holds(u.lab, a);
      if h.sink == Some(n[p]) {
        SinkIsDead(h);
      } else {
        var t :| t in g.trans && t.src == p && t.lab == u.lab && t.dst in m && m[t.dst] == u.dst;
        assert Step(g, p, a, t.dst);
      }
    }
  }

  lemma PartAccepts(g: Nfa, h: Nfa, m: LocHash, k: set<Loc>, p: Loc, w: Word)
    requires PartOf(g, h, m, k) && p in k
    ensures Accepts(g, p, w) <==> Accepts(h, m[p], w)
  {
    PartSimulates(g, h, m, k);
    SimulationAccepts(g, h, Restricted(m, k), p, w);
  }

  /** A part without the initial location never leads there. */
  lemma {:induction false} PartNeverReturns(g: Nfa, h: Nfa, m: LocHash, k: set<Loc>, p: Loc, w: Word)
    requires PartOf(g, h, m, k) && p in k && forall l :: l in k ==> m[l] != h.init
    ensures !Accepts(Rooted(h), m[p], w)
    decreases |w|
  {
    if w != [] {
      forall r: Loc | Step(Rooted(h), m[p], w[0], r) ensures !Accepts(Rooted(h), r, w[1..]) {
        var u :| u in h.trans && u.src == m[p] && u.dst == r;
        if h.sink == Some(m[p]) {
          SinkIsDead(Rooted(h));
        } else {
          var t :| t in g.trans && t.src == p && t.lab == u.lab && t.dst in m && m[t.dst] == u.dst;
          PartNeverReturns(g, h, m, k, t.dst, w[1..]);
        }
      }
    }
  }

  /** The target of a copy: its locations were allocated before. */
  ghost predicate Target(h0: Nfa, m0: LocHash, lo: nat) {
    && Closed(h0) && SinkOk(h0)
    && (forall l :: l in h0.locs ==> l < lo)
    && (forall k :: k in m0 ==> m0[k] in h0.locs)
  }

  lemma CopyIsPart(g: Nfa, h0: Nfa, m0: LocHash, lo: nat, h: Nfa, m: LocHash, hi: nat, c: set<Trans>, spokes: bool)
    requires Target(h0, m0, lo) && SinkOk(g) && Closed(g) && m0.Keys !! g.locs
    requires Extends(g, h0, m0, lo, h, m, hi)
    requires CopiedFromInitial(g, h0, m0, h, m, c, spokes)
    ensures PartOf(g, h, m, m.Keys - m0.Keys)
    ensures Target(h, m, hi)
  {
    var k := m.Keys - m0.Keys;
    CopyOrigins(g, h0, m0, lo, h, m, hi, c, spokes);
    forall t | t in g.trans && t.src in k ensures t.dst in k && Trans(m[t.src], t.lab, m[t.dst]) in h.trans {
      assert t in Leaving(g, k);
      assert Trans(m[t.src], t.lab, m[t.dst]) in Image(Leaving(g, k), m);
    }
  }

  lemma CopyOrigins(g: Nfa, h0: Nfa, m0: LocHash, lo: nat, h: Nfa, m: LocHash, hi: nat, c: set<Trans>, spokes: bool)
    requires Target(h0, m0, lo) && SinkOk(g) && Closed(g) && m0.Keys !! g.locs
    requires Extends(g, h0, m0, lo, h, m, hi)
    requires CopiedFromInitial(g, h0, m0, h, m, c, spokes)
    ensures forall p, u :: p in m.Keys - m0.Keys && u in h.trans && u.src == m[p] ==> h.sink == Some(m[p]) || HasOrigin(g, m, p, u)
    ensures SinkOk(h) && Closed(h)
  {
    var k := m.Keys - m0.Keys;
    forall p, u | p in k && u in h.trans && u.src == m[p] && h.sink != Some(m[p])
      ensures HasOrigin(g, m, p, u)
    {
      assert lo <= m[p];
      var t :| t in Leaving(g, k) && t.src in m && t.dst in m && u == Trans(m[t.src], t.lab, m[t.dst]);
      assert t.src == p;
    }
    forall u | u in h.trans
      ensures u.src in h.locs && u.dst in h.locs && (h.sink == Some(u.src) ==> u.dst == u.src)
    {
      if u in Image(Leaving(g, k), m) {
        var t :| t in Leaving(g, k) && t.src in m && t.dst in m && u == Trans(m[t.src], t.lab, m[t.dst]);
        assert t.src in m && t.src !in m0 && t.dst !in m0;
      }
    }
  }

  /** A part stays a part while another automaton is copied into the same target. */
  lemma PartKept(g: Nfa, k: set<Loc>, g2: Nfa, h0: Nfa, m0: LocHash, lo: nat, h: Nfa, m: LocHash, hi: nat, c: set<Trans>, spokes: bool)
    requires PartOf(g, h0, m0, k) && Target(h0, m0, lo) && SinkOk(g2) && Closed(g2) && m0.Keys !! g2.locs
    requires Extends(g2, h0, m0, lo, h, m, hi)
    requires CopiedFromInitial(g2, h0, m0, h, m, c, spokes)
    requires spokes ==> forall p :: p in k ==> m0[p] != h0.init
    ensures PartOf(g, h, m, k)
  {
    CopyOrigins(g2, h0, m0, lo, h, m, hi, c, spokes);
    forall p, u | p in k && u in h.trans && u.src == m[p] && h.sink != Some(m[p])
      ensures HasOrigin(g, m, p, u)
    {
      assert u in h0.trans;
      assert HasOrigin(g, m0, p, u);
    }
  }

  /** Copying creates no unsatisfiable label. */
  lemma CopyLabels(g: Nfa, h0: Nfa, m0: LocHash, h: Nfa, m: LocHash, c: set<Trans>, spokes: bool)
    requires CopiedFromInitial(g, h0, m0, h, m, c, spokes) && LabelsSat(g) && LabelsSat(h0) && c <= g.trans
    ensures LabelsSat(h)
  {
  }

  /** An isomorphic copy of the part of g that m maps. */
  ghost predicate IsCopy(g: Nfa, h: Nfa, m: LocHash) {
    && g.init in m && m[g.init] == h.init
    && (forall k, l :: k in m && l in m && k != l ==> m[k] != m[l])
    && (forall k :: k in m ==> (k in g.final <==> m[k] in h.final))
    && EndsIn(Leaving(g, m.Keys), m)
    && h.trans == Image(Leaving(g, m.Keys), m)
  }

  lemma IsCopySimulates(g: Nfa, h: Nfa, m: LocHash)
    requires IsCopy(g, h, m)
    ensures Simulates(g, h, m)
  {
    forall p, a, q | p in m && Step(g, p, a, q)
      ensures q in m && Step(h, m[p], a, m[q])
    {
      var t :| t in g.trans && t.src == p && t.dst == q && Holds(t.lab, a);
      assert t in Leaving(g, m.Keys);
      assert Trans(m[p], t.lab, m[q]) in h.trans;
    }
    forall p, a, r | p in m && Step(h, m[p], a, r)
      ensures exists q :: q in m && m[q] == r && Step(g, p, a, q)
    {
      var u :| u in h.trans && u.src == m[p] && u.dst == r && Holds(u.lab, a);
      var t :| t in Leaving(g, m.Keys) && t.src in m && t.dst in m && u == Trans(m[t.src], t.lab, m[t.dst]);
      assert t.src == p;
      assert Step(g, p, a, t.dst);
    }
  }

  /** A copy accepts the same words and returns to its initial location on the same words. */
  lemma IsCopyMeans(g: Nfa, h: Nfa, m: LocHash)
    requires IsCopy(g, h, m)
    ensures Lang(h) == Lang(g) && Returns(h) == Returns(g)
    ensures NoReturn(g) ==> NoReturn(h)
    ensures LabelsSat(g) ==> LabelsSat(h)
  {
    IsCopySimulates(g, h, m);
    forall w ensures w in Lang(g) <==> w in Lang(h) {
      SimulationAccepts(g, h, m, g.init, w);
    }
    assert Leaving(Rooted(g), m.Keys) == Leaving(g, m.Keys);
    IsCopySimulates(Rooted(g), Rooted(h), m);
    forall w ensures w in Returns(g) <==> w in Returns(h) {
      SimulationAccepts(Rooted(g), Rooted(h), m, g.init, w);
    }
  }
}
