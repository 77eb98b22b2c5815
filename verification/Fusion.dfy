/** Fusion of two automata with disjoint locations: the words overlap by one letter. */
module FusionLanguage {
  import opened BoolExpr
  import opened Alphabet
  import opened Nfas
  import opened Automata
  import opened CopyGraphs
  import opened LabelSteps
  import opened Parts
  import opened AcceptingSearch
  import opened AcceptingLanguage
  import opened ConcatLanguage

  // ----- One transition of the first operand combined with the initial transitions of the second

  /** The transitions of the initial location of the second operand. */
  ghost predicate IsStart(g2: Nfa, m: LocHash, t2: Trans) {
    t2 in g2.trans && t2.src == g2.init && t2.dst in m
  }

  /** u leaves r on letters that t admits, for where the second operand goes on the same letters. */
  ghost predicate IsMix(g2: Nfa, m: LocHash, r: Loc, t: Trans, u: Trans) {
    && u.src == r && IsSat(u.lab)
    && exists t2 :: IsStart(g2, m, t2) && u.dst == m[t2.dst] && forall a :: Holds(u.lab, a) ==> Holds(t.lab, a) && Holds(t2.lab, a)
  }

  /** The graph gained mixes of t only. */
  ghost predicate Gained(g2: Nfa, m: LocHash, r: Loc, t: Trans, h0: Nfa, h: Nfa) {
    && h == h0.(trans := h.trans) && h0.trans <= h.trans
    && forall u :: u in h.trans ==> u in h0.trans || IsMix(g2, m, r, t, u)
  }

  /** On the letters that t, a transition of c2 and a symbol of ms admit, r leads where the second operand goes. */
  ghost predicate Mixes(h: Nfa, m: LocHash, r: Loc, t: Trans, c2: set<Trans>, ms: set<Label>) {
    forall t2: Trans, l: Label, a: Letter ::
      t2 in c2 && l in ms && Holds(l, a) && Holds(t.lab, a) && Holds(t2.lab, a) ==> t2.dst in m && Step(h, r, a, m[t2.dst])
  }

  lemma GainedNone(g2: Nfa, m: LocHash, r: Loc, t: Trans, h: Nfa)
    ensures Gained(g2, m, r, t, h, h)
  {
  }

  lemma GainedOne(g2: Nfa, m: LocHash, r: Loc, t: Trans, h0: Nfa, h: Nfa, t2: Trans, lab: Label)
    requires Gained(g2, m, r, t, h0, h) && IsStart(g2, m, t2)
    requires IsSat(lab) && forall a :: Holds(lab, a) ==> Holds(t.lab, a) && Holds(t2.lab, a)
    ensures Gained(g2, m, r, t, h0, WithTrans(h, Trans(r, lab, m[t2.dst])))
  {
    assert IsMix(g2, m, r, t, Trans(r, lab, m[t2.dst]));
  }

  lemma MixesKept(h: Nfa, h': Nfa, m: LocHash, r: Loc, t: Trans, c2: set<Trans>, ms: set<Label>)
    requires Mixes(h, m, r, t, c2, ms) && h.trans <= h'.trans
    ensures Mixes(h', m, r, t, c2, ms)
  {
    assert forall p: Loc, a: Letter, q: Loc :: Step(h, p, a, q) ==> Step(h', p, a, q);
  }

  lemma MixesNone(h: Nfa, m: LocHash, r: Loc, t: Trans, c2: set<Trans>, ms: set<Label>)
    requires c2 == {} || ms == {}
    ensures Mixes(h, m, r, t, c2, ms)
  {
  }

  lemma MixesUnsat(h: Nfa, m: LocHash, r: Loc, t: Trans, c2: set<Trans>, l: Label)
    requires forall t2, a :: t2 in c2 && Holds(l, a) && Holds(t.lab, a) ==> !Holds(t2.lab, a)
    ensures Mixes(h, m, r, t, c2, {l})
  {
  }

  lemma MixesOne(h: Nfa, m: LocHash, r: Loc, t: Trans, t2: Trans, l: Label, lab: Label)
    requires t2.dst in m && Trans(r, lab, m[t2.dst]) in h.trans
    requires forall a :: Holds(l, a) && Holds(t.lab, a) && Holds(t2.lab, a) ==> Holds(lab, a)
    ensures Mixes(h, m, r, t, {t2}, {l})
  {
    forall a | Holds(l, a) && Holds(t.lab, a) && Holds(t2.lab, a) ensures Step(h, r, a, m[t2.dst]) {
      assert Holds(lab, a);
    }
  }

  lemma MixesMore(h: Nfa, m: LocHash, r: Loc, t: Trans, c2: set<Trans>, ms: set<Label>, c2': set<Trans>, ms': set<Label>)
    requires Mixes(h, m, r, t, c2, ms) && Mixes(h, m, r, t, c2', ms')
    ensures c2 == c2' ==> Mixes(h, m, r, t, c2, ms + ms')
    ensures ms == ms' ==> Mixes(h, m, r, t, c2 + c2', ms)
  {
    hide Step;
  }

  lemma MixesForAll(h: Nfa, m: LocHash, r: Loc, t: Trans, c2: set<Trans>, ms: set<Label>)
    requires Mixes(h, m, r, t, c2, ms)
    requires forall a: Letter :: Admitted(ms, a)
    ensures Mixes(h, m, r, t, c2, {True})
  {
    hide Step, Holds;
    var all: set<Label> := {True};
    forall t2: Trans, l: Label, a: Letter | t2 in c2 && l in all && Holds(l, a) && Holds(t.lab, a) && Holds(t2.lab, a)
      ensures t2.dst in m && Step(h, r, a, m[t2.dst])
    {
      assert Admitted(ms, a);
      var n :| n in ms && Holds(n, a);
    }
  }

  lemma InStart(a2: Automaton, m: LocHash, i: nat)
    requires a2.Valid() && a2.initial in a2.loc && i < |a2.loc[a2.initial].transitions|
    requires forall t2 :: t2 in Leaving(a2.Graph(), {a2.initial}) ==> t2.dst in m
    ensures var t := a2.loc[a2.initial].transitions[i];
            IsStart(a2.Graph(), m, Trans(a2.initial, t.lab, t.end)) && t.end in m && a2.Graph().init == a2.initial
  {
    InGraph(a2, a2.initial, i);
  }

  lemma StillThere(manager: AutomataManager, res: Automaton, m: LocHash, a1: Automaton, r: Loc, g2: Nfa, t: Trans, h0: Nfa, h1: Nfa)
    requires Ready(manager, res, m, a1) && r in h1.locs
    requires Gained(g2, m, r, t, h0, h1) && Gained(g2, m, r, t, h0, res.Graph())
    ensures r in res.loc
  {
  }

  lemma GainedGraph(g2: Nfa, m: LocHash, r: Loc, t: Trans, h0: Nfa, h: Nfa)
    requires Gained(g2, m, r, t, h0, h)
    ensures h == h0.(trans := h.trans)
  {
  }

  // ----- The loop

  /** The transitions c of the first operand are copied, and those that enter a final location are
      also combined with the initial transitions of the second operand. */
  ghost predicate Fused(g1: Nfa, g2: Nfa, h2: Nfa, h: Nfa, m: LocHash, c: set<Trans>) {
    && c <= g1.trans && EndsIn(c, m)
    && (forall t2 :: t2 in Leaving(g2, {g2.init}) ==> t2.dst in m)
    && h2.trans <= h.trans && Image(c, m) <= h.trans
    && (forall u :: u in h.trans ==> u in h2.trans || u in Image(c, m) || FromFinal(g1, g2, m, c, u))
    && (forall t :: t in c && t.dst in g1.final ==> Mixes(h, m, m[t.src], t, Leaving(g2, {g2.init}), {True}))
  }

  ghost predicate FromFinal(g1: Nfa, g2: Nfa, m: LocHash, c: set<Trans>, u: Trans) {
    exists t :: t in c && t.dst in g1.final && t.src in m && IsMix(g2, m, m[t.src], t, u)
  }

  lemma FusedStart(g1: Nfa, g2: Nfa, h2: Nfa, m2: LocHash, lo: nat)
    requires ConcatTarget(g1, h2, m2, lo) && (h2.init in h2.final <==> g1.init in g1.final)
    requires forall t :: t in Leaving(g2, {g2.init}) ==> t.dst in m2
    ensures Fused(g1, g2, h2, h2, m2, Leaving(g1, {}))
    ensures Flags(g1, NoFinal(g2), h2, m2, h2, m2, {})
    ensures Shape(g1, h2, m2, lo, h2, m2, lo)
  {
  }

  /** With no final location in the second operand, the flags of the first operand are all cleared. */
  ghost function NoFinal(g: Nfa): Nfa {
    g.(final := {})
  }

  lemma FlagsSink(g1: Nfa, g2: Nfa, h2: Nfa, m2: LocHash, h: Nfa, m: LocHash, visited: set<Loc>, s: Loc)
    requires Flags(g1, NoFinal(g2), h2, m2, h, m, visited) && SinkOk(g1) && SinkNotFinal(h)
    requires g1.sink == Some(s) && s in m && h.sink == Some(m[s])
    ensures Flags(g1, NoFinal(g2), h2, m2, WithFinal(h, m[s], false), m, visited + {s})
    ensures WithFinal(h, m[s], false) == h
  {
    assert h.final - {m[s]} == h.final;
  }

  lemma FlagsCleared(g1: Nfa, g2: Nfa, h2: Nfa, m2: LocHash, lo: nat, h: Nfa, m: LocHash, hi: nat, visited: set<Loc>, s: Loc)
    requires ConcatTarget(g1, h2, m2, lo) && SinkOk(g1) && ReadyOn(g1, h, m)
    requires Shape(g1, h2, m2, lo, h, m, hi) && Flags(g1, NoFinal(g2), h2, m2, h, m, visited)
    requires s in m && s in g1.locs
    ensures Flags(g1, NoFinal(g2), h2, m2, WithFinal(h, m[s], false), m, visited + {s})
    ensures Shape(g1, h2, m2, lo, WithFinal(h, m[s], false), m, hi)
  {
    SinkIsMapped(g1, h2, m2, lo, h, m, hi, s);
    hide Shape, Flags, ConcatTarget;
    if g1.sink == Some(s) {
      FlagsSink(g1, g2, h2, m2, h, m, visited, s);
    } else {
      FlagsSet(g1, NoFinal(g2), h2, m2, lo, h, m, hi, visited, s, false);
    }
  }

  lemma FusedIgnoresFlags(g1: Nfa, g2: Nfa, h2: Nfa, h: Nfa, m: LocHash, c: set<Trans>, l: Loc, f: bool)
    requires Fused(g1, g2, h2, h, m, c)
    ensures Fused(g1, g2, h2, WithFinal(h, l, f), m, c)
  {
    var h' := WithFinal(h, l, f);
    hide Image, FromFinal;
    forall t | t in c && t.dst in g1.final ensures Mixes(h', m, m[t.src], t, Leaving(g2, {g2.init}), {True}) {
      MixesKept(h, h', m, m[t.src], t, Leaving(g2, {g2.init}), {True});
    }
  }

  lemma FusedFacts(g1: Nfa, g2: Nfa, h2: Nfa, h: Nfa, m: LocHash, c: set<Trans>)
    requires Fused(g1, g2, h2, h, m, c)
    ensures forall t2 :: t2 in Leaving(g2, {g2.init}) ==> t2.dst in m
  {
  }

  lemma MixKept(g2: Nfa, m1: LocHash, m: LocHash, r: Loc, t: Trans, u: Trans)
    requires m1.Keys <= m.Keys && (forall k :: k in m1 ==> m[k] == m1[k]) && IsMix(g2, m1, r, t, u)
    ensures IsMix(g2, m, r, t, u)
  {
    var t2 :| IsStart(g2, m1, t2) && u.dst == m1[t2.dst] && forall a :: Holds(u.lab, a) ==> Holds(t.lab, a) && Holds(t2.lab, a);
    assert IsStart(g2, m, t2);
  }

  lemma FromFinalKept(g1: Nfa, g2: Nfa, m1: LocHash, m: LocHash, c: set<Trans>, t0: Trans, u: Trans)
    requires m1.Keys <= m.Keys && (forall k :: k in m1 ==> m[k] == m1[k]) && FromFinal(g1, g2, m1, c, u)
    ensures FromFinal(g1, g2, m, c + {t0}, u)
  {
    var t :| t in c && t.dst in g1.final && t.src in m1 && IsMix(g2, m1, m1[t.src], t, u);
    MixKept(g2, m1, m, m1[t.src], t, u);
  }

  lemma MixesMoved(h1: Nfa, h: Nfa, m1: LocHash, m: LocHash, r: Loc, t: Trans, c2: set<Trans>, ms: set<Label>)
    requires Mixes(h1, m1, r, t, c2, ms) && h1.trans <= h.trans
    requires m1.Keys <= m.Keys && (forall k :: k in m1 ==> m[k] == m1[k])
    ensures Mixes(h, m, r, t, c2, ms)
  {
    MixesKept(h1, h, m1, r, t, c2, ms);
    hide Step;
  }

  /** One more transition: it is copied (from h1 to hc) and then, if it enters a final location, combined. */
  lemma FusedStep(g1: Nfa, g2: Nfa, h2: Nfa, h1: Nfa, m1: LocHash, hc: Nfa, h: Nfa, m: LocHash, c: set<Trans>, t: Trans)
    requires Fused(g1, g2, h2, h1, m1, c) && t in g1.trans && t.src in m && t.dst in m
    requires m1.Keys <= m.Keys && forall k :: k in m1 ==> m[k] == m1[k]
    requires hc.trans == h1.trans + {Trans(m[t.src], t.lab, m[t.dst])}
    requires if t.dst in g1.final then Gained(g2, m, m[t.src], t, hc, h) && Mixes(h, m, m[t.src], t, Leaving(g2, {g2.init}), {True}) else h == hc
    ensures Fused(g1, g2, h2, h, m, c + {t})
  {
    ImageKept(c, m1, m);
    ImageAdd(c, t, m);
    assert h1.trans <= h.trans;
    hide Image, Mixes, IsMix, EndsIn, Leaving;
    forall u | u in h.trans
      ensures u in h2.trans || u in Image(c + {t}, m) || FromFinal(g1, g2, m, c + {t}, u)
    {
      if u in hc.trans {
        if u in h1.trans && u !in h2.trans && u !in Image(c, m1) {
          FromFinalKept(g1, g2, m1, m, c, t, u);
        }
      } else {
        assert IsMix(g2, m, m[t.src], t, u);
      }
    }
    FusedMixes(g1, g2, h2, h1, m1, h, m, c);
    FusedEnds(c, m1, m, t);
  }

  lemma FusedEnds(c: set<Trans>, m1: LocHash, m: LocHash, t: Trans)
    requires EndsIn(c, m1) && m1.Keys <= m.Keys && t.src in m && t.dst in m
    ensures EndsIn(c + {t}, m)
  {
  }

  lemma FusedMixes(g1: Nfa, g2: Nfa, h2: Nfa, h1: Nfa, m1: LocHash, h: Nfa, m: LocHash, c: set<Trans>)
    requires Fused(g1, g2, h2, h1, m1, c) && h1.trans <= h.trans
    requires m1.Keys <= m.Keys && forall k :: k in m1 ==> m[k] == m1[k]
    ensures forall t :: t in c && t.dst in g1.final ==> t.src in m && Mixes(h, m, m[t.src], t, Leaving(g2, {g2.init}), {True})
    ensures c <= g1.trans && EndsIn(c, m1) && forall t2 :: t2 in Leaving(g2, {g2.init}) ==> t2.dst in m
  {
    forall t | t in c && t.dst in g1.final
      ensures t.src in m && Mixes(h, m, m[t.src], t, Leaving(g2, {g2.init}), {True})
    {
      assert t.src in m1;
      MixesMoved(h1, h, m1, m, m1[t.src], t, Leaving(g2, {g2.init}), {True});
    }
  }

  // ----- The language of the result

  ghost predicate IsFusionOf(g1: Nfa, k1: set<Loc>, g2: Nfa, k2: set<Loc>, h: Nfa, m: LocHash) {
    && PartOf(g2, h, m, k2) && SinkOk(g1) && SinkOk(h)
    && k1 <= m.Keys && g1.init in k1 && m[g1.init] == h.init
    && (forall p :: p in k1 ==> m[p] !in h.final)
    && (forall p :: p in k1 ==> (m[p] == h.init <==> p == g1.init))
    && (forall p :: p in k2 ==> m[p] != h.init)
    && (forall p :: p in k1 ==> (h.sink == Some(m[p]) <==> g1.sink == Some(p)))
    && (forall p: Loc, a: Letter, q: Loc :: p in k1 && Step(g1, p, a, q) ==> q in k1 && Step(h, m[p], a, m[q]))
    && (forall p: Loc, a: Letter, q: Loc :: p in k1 && StepsFinal(g1, p, a) && Step(g2, g2.init, a, q) ==> q in k2 && Step(h, m[p], a, m[q]))
    && (forall p: Loc, a: Letter, r: Loc :: p in k1 && g1.sink != Some(p) && Step(h, m[p], a, r) ==> StepsHere(g1, k1, m, p, a, r) || StepsOver(g1, g2, k2, m, p, a, r))
  }

  /** The first operand moves to a final location. */
  ghost predicate StepsFinal(g1: Nfa, p: Loc, a: Letter) {
    exists q :: Step(g1, p, a, q) && q in g1.final
  }

  ghost predicate StepsHere(g1: Nfa, k1: set<Loc>, m: LocHash, p: Loc, a: Letter, r: Loc) {
    exists q :: q in k1 && q in m && m[q] == r && Step(g1, p, a, q)
  }

  ghost predicate StepsOver(g1: Nfa, g2: Nfa, k2: set<Loc>, m: LocHash, p: Loc, a: Letter, r: Loc) {
    StepsFinal(g1, p, a) && exists q :: q in k2 && q in m && m[q] == r && Step(g2, g2.init, a, q)
  }

  /** A word accepted from p by the first operand overlaps with a word of the second by one letter. */
  ghost predicate Overlaps(g1: Nfa, g2: Nfa, p: Loc, w: Word) {
    exists i | 0 <= i < |w| :: Accepts(g1, p, w[..i + 1]) && Accepts(g2, g2.init, w[i..])
  }

  lemma OverlapsStep(g1: Nfa, g2: Nfa, p: Loc, w: Word, q: Loc)
    requires w != [] && Step(g1, p, w[0], q) && Overlaps(g1, g2, q, w[1..])
    ensures Overlaps(g1, g2, p, w)
  {
    var v := w[1..];
    var i :| 0 <= i < |v| && Accepts(g1, q, v[..i + 1]) && Accepts(g2, g2.init, v[i..]);
    assert w[..i + 2][1..] == v[..i + 1] && w[i + 1..] == v[i..];
    assert Accepts(g1, p, w[..i + 2]);
  }

  lemma OverlapsNow(g1: Nfa, g2: Nfa, p: Loc, w: Word)
    requires w != [] && StepsFinal(g1, p, w[0]) && Accepts(g2, g2.init, w)
    ensures Overlaps(g1, g2, p, w)
  {
    var q :| Step(g1, p, w[0], q) && q in g1.final;
    assert w[..1][1..] == [] && Accepts(g1, p, w[..1]);
    assert w[0..] == w;
  }

  lemma OverlapsFirst(g1: Nfa, g2: Nfa, p: Loc, w: Word) returns (q: Loc)
    requires w != [] && Overlaps(g1, g2, p, w)
    ensures (StepsFinal(g1, p, w[0]) && Accepts(g2, g2.init, w)) || (Step(g1, p, w[0], q) && Overlaps(g1, g2, q, w[1..]))
  {
    var i :| 0 <= i < |w| && Accepts(g1, p, w[..i + 1]) && Accepts(g2, g2.init, w[i..]);
    var v := w[..i + 1];
    q :| Step(g1, p, v[0], q) && Accepts(g1, q, v[1..]);
    if i == 0 {
      assert v[1..] == [] && w[0..] == w;
    } else {
      assert w[1..][..i] == v[1..] && w[1..][i - 1..] == w[i..];
    }
  }

  lemma {:induction false} FusionAccepts(g1: Nfa, k1: set<Loc>, g2: Nfa, k2: set<Loc>, h: Nfa, m: LocHash, p: Loc, w: Word)
    requires IsFusionOf(g1, k1, g2, k2, h, m) && p in k1
    ensures Accepts(h, m[p], w) <==> Overlaps(g1, g2, p, w)
    decreases |w|
  {
    if w != [] {
      if g1.sink == Some(p) {
        SinkIsDead(g1);
        SinkIsDead(h);
      } else {
        FusionSteps(g1, k1, g2, k2, h, m, p, w[0]);
        assert PartOf(g2, h, m, k2);
        hide Overlaps, PartOf, IsFusionOf;
        if r: Loc :| Step(h, m[p], w[0], r) && Accepts(h, r, w[1..]) {
          if StepsHere(g1, k1, m, p, w[0], r) {
            var q :| q in k1 && q in m && m[q] == r && Step(g1, p, w[0], q);
            FusionAccepts(g1, k1, g2, k2, h, m, q, w[1..]);
            OverlapsStep(g1, g2, p, w, q);
          } else {
            var q :| q in k2 && q in m && m[q] == r && Step(g2, g2.init, w[0], q);
            PartAccepts(g2, h, m, k2, q, w[1..]);
            OverlapsNow(g1, g2, p, w);
          }
        }
        if Overlaps(g1, g2, p, w) {
          var q := OverlapsFirst(g1, g2, p, w);
          if StepsFinal(g1, p, w[0]) && Accepts(g2, g2.init, w) {
            var q2 :| Step(g2, g2.init, w[0], q2) && Accepts(g2, q2, w[1..]);
            PartAccepts(g2, h, m, k2, q2, w[1..]);
          } else {
            FusionAccepts(g1, k1, g2, k2, h, m, q, w[1..]);
          }
        }
      }
    }
  }

  lemma FusionSteps(g1: Nfa, k1: set<Loc>, g2: Nfa, k2: set<Loc>, h: Nfa, m: LocHash, p: Loc, a: Letter)
    requires IsFusionOf(g1, k1, g2, k2, h, m) && p in k1 && g1.sink != Some(p)
    ensures k1 <= m.Keys && k2 <= m.Keys
    ensures forall q: Loc :: Step(g1, p, a, q) ==> q in k1 && Step(h, m[p], a, m[q])
    ensures forall q: Loc :: StepsFinal(g1, p, a) && Step(g2, g2.init, a, q) ==> q in k2 && Step(h, m[p], a, m[q])
    ensures forall r: Loc :: Step(h, m[p], a, r) ==> StepsHere(g1, k1, m, p, a, r) || StepsOver(g1, g2, k2, m, p, a, r)
  {
  }

  lemma FusionReturns(g1: Nfa, k1: set<Loc>, g2: Nfa, k2: set<Loc>, h: Nfa, m: LocHash)
    requires IsFusionOf(g1, k1, g2, k2, h, m)
    ensures Simulates(Rooted(g1), Rooted(h), Restricted(m, k1))
  {
    var g', h', n := Rooted(g1), Rooted(h), Restricted(m, k1);
    assert forall p: Loc, a: Letter, q: Loc :: Step(g', p, a, q) <==> Step(g1, p, a, q);
    assert forall p: Loc, a: Letter, q: Loc :: Step(h', p, a, q) <==> Step(h, p, a, q);
    forall p: Loc, a: Letter, r: Loc | p in n && Step(h', n[p], a, r)
      ensures Dead(h', r) || exists q :: q in n && n[q] == r && Step(g', p, a, q)
    {
      if g1.sink == Some(p) {
        SinkIsDead(h');
      } else if StepsOver(g1, g2, k2, m, p, a, r) {
        var q :| q in k2 && q in m && m[q] == r && Step(g2, g2.init, a, q);
        forall w ensures !Accepts(h', r, w) {
          PartNeverReturns(g2, h, m, k2, q, w);
        }
      } else {
        var q :| q in k1 && q in m && m[q] == r && Step(g1, p, a, q);
        assert q in n && n[q] == r;
      }
    }
  }

  /** Fusion: the words that overlap by one letter. */
  lemma FusionMeans(g1: Nfa, k1: set<Loc>, g2: Nfa, k2: set<Loc>, h: Nfa, m: LocHash)
    requires IsFusionOf(g1, k1, g2, k2, h, m)
    ensures Lang(h) == Fuse(Lang(g1), Lang(g2)) && Returns(h) == Returns(g1)
  {
    forall w ensures w in Lang(h) <==> w in Fuse(Lang(g1), Lang(g2)) {
      FusionAccepts(g1, k1, g2, k2, h, m, g1.init, w);
    }
    FusionReturns(g1, k1, g2, k2, h, m);
    forall w ensures w in Returns(h) <==> w in Returns(g1) {
      SimulationAccepts(Rooted(g1), Rooted(h), Restricted(m, k1), g1.init, w);
    }
  }

  // ----- The finished loop

  ghost predicate FusionDone(g1: Nfa, g2: Nfa, h2: Nfa, m2: LocHash, lo: nat, h: Nfa, m: LocHash, hi: nat, k1: set<Loc>) {
    && ConcatTarget(g1, h2, m2, lo) && SinkOk(g1) && Closed(g1)
    && Shape(g1, h2, m2, lo, h, m, hi) && SinkMapped(g1, h, m) && SinkNotFinal(h)
    && k1 == (m.Keys - m2.Keys) + {g1.init}
    && Fused(g1, g2, h2, h, m, Leaving(g1, k1)) && Flags(g1, NoFinal(g2), h2, m2, h, m, k1)
    && (forall t :: t in h2.trans ==> t.src != h2.init)
    && (forall k :: k in m2 && k != g1.init ==> m2[k] != h2.init)
    && (forall t :: t in Leaving(g2, {g2.init}) ==> t.dst in m2.Keys - {g1.init})
  }

  lemma FusionDonePack(g1: Nfa, g2: Nfa, h2: Nfa, m2: LocHash, lo: nat, h: Nfa, m: LocHash, hi: nat, k1: set<Loc>)
    requires ConcatTarget(g1, h2, m2, lo) && Shape(g1, h2, m2, lo, h, m, hi) && ReadyOn(g1, h, m) && SinkOk(g1) && Closed(g1)
    requires k1 == (m.Keys - m2.Keys) + {g1.init}
    requires Fused(g1, g2, h2, h, m, Leaving(g1, k1)) && Flags(g1, NoFinal(g2), h2, m2, h, m, k1)
    requires forall t :: t in h2.trans ==> t.src != h2.init
    requires forall k :: k in m2 && k != g1.init ==> m2[k] != h2.init
    requires forall t :: t in Leaving(g2, {g2.init}) ==> t.dst in m2.Keys - {g1.init}
    ensures FusionDone(g1, g2, h2, m2, lo, h, m, hi, k1) && lo <= hi
  {
  }

  /** Where the transitions added by the loop start. */
  lemma FusionSources(g1: Nfa, g2: Nfa, h2: Nfa, m2: LocHash, lo: nat, h: Nfa, m: LocHash, hi: nat, k1: set<Loc>, u: Trans)
    requires FusionDone(g1, g2, h2, m2, lo, h, m, hi, k1)
    requires u in h.trans && u !in h2.trans
    ensures exists t :: t in Leaving(g1, k1) && t.src in m && m[t.src] == u.src &&
              ((t.dst in m && t.lab == u.lab && m[t.dst] == u.dst) || (t.dst in g1.final && IsMix(g2, m, m[t.src], t, u)))
  {
    var c := Leaving(g1, k1);
    if u in Image(c, m) {
      var t :| t in c && t.src in m && t.dst in m && u == Trans(m[t.src], t.lab, m[t.dst]);
    } else {
      var t :| t in c && t.dst in g1.final && t.src in m && IsMix(g2, m, m[t.src], t, u);
    }
  }

  lemma LocationOf(g1: Nfa, g2: Nfa, h2: Nfa, m2: LocHash, lo: nat, h: Nfa, m: LocHash, hi: nat, k1: set<Loc>, p: Loc)
    requires FusionDone(g1, g2, h2, m2, lo, h, m, hi, k1) && p in k1
    ensures p in m && (g1.sink == Some(p) <==> h.sink == Some(m[p]))
    ensures g1.sink != Some(p) ==> m[p] == h.init || m[p] !in h2.locs
    ensures m[p] == h.init <==> p == g1.init
    ensures forall q :: q in k1 && m[q] == m[p] ==> q == p
    ensures m[p] !in h.final
  {
  }

  lemma FusionSinkOk(g1: Nfa, g2: Nfa, h2: Nfa, m2: LocHash, lo: nat, h: Nfa, m: LocHash, hi: nat, k1: set<Loc>)
    requires FusionDone(g1, g2, h2, m2, lo, h, m, hi, k1)
    ensures SinkOk(h)
  {
    forall u | u in h.trans && h.sink == Some(u.src) ensures u.dst == u.src {
      if u !in h2.trans {
        FusionSources(g1, g2, h2, m2, lo, h, m, hi, k1, u);
        var t :| t in Leaving(g1, k1) && t.src in m && m[t.src] == u.src &&
              ((t.dst in m && t.lab == u.lab && m[t.dst] == u.dst) || (t.dst in g1.final && IsMix(g2, m, m[t.src], t, u)));
        LocationOf(g1, g2, h2, m2, lo, h, m, hi, k1, t.src);
        assert g1.sink == Some(t.src);
      }
    }
  }

  lemma FusionPart(g1: Nfa, g2: Nfa, h2: Nfa, m2: LocHash, lo: nat, h: Nfa, m: LocHash, hi: nat, k1: set<Loc>)
    requires FusionDone(g1, g2, h2, m2, lo, h, m, hi, k1)
    requires PartOf(g2, h2, m2, m2.Keys - {g1.init})
    ensures PartOf(g2, h, m, m2.Keys - {g1.init})
  {
    var k2 := m2.Keys - {g1.init};
    FusionSinkOk(g1, g2, h2, m2, lo, h, m, hi, k1);
    forall p: Loc, u: Trans | p in k2 && u in h.trans && u.src == m[p] && h.sink != Some(m[p])
      ensures HasOrigin(g2, m, p, u)
    {
      if u !in h2.trans {
        FusionSources(g1, g2, h2, m2, lo, h, m, hi, k1, u);
        var t :| t in Leaving(g1, k1) && t.src in m && m[t.src] == u.src;
        LocationOf(g1, g2, h2, m2, lo, h, m, hi, k1, t.src);
        assert false;
      }
      assert HasOrigin(g2, m2, p, u);
    }
  }

  lemma FusionForward(g1: Nfa, g2: Nfa, h2: Nfa, m2: LocHash, lo: nat, h: Nfa, m: LocHash, hi: nat, k1: set<Loc>, p: Loc, a: Letter, q: Loc)
    requires FusionDone(g1, g2, h2, m2, lo, h, m, hi, k1) && p in k1 && p in m
    ensures Step(g1, p, a, q) ==> q in k1 && q in m && Step(h, m[p], a, m[q])
    ensures StepsFinal(g1, p, a) && Step(g2, g2.init, a, q) ==> q in m2.Keys - {g1.init} && q in m && Step(h, m[p], a, m[q])
  {
    var c := Leaving(g1, k1);
    if Step(g1, p, a, q) {
      var t :| t in g1.trans && t.src == p && t.dst == q && Holds(t.lab, a);
      assert t in c;
      assert Trans(m[p], t.lab, m[q]) in Image(c, m);
    }
    if StepsFinal(g1, p, a) && Step(g2, g2.init, a, q) {
      var f :| Step(g1, p, a, f) && f in g1.final;
      var t :| t in g1.trans && t.src == p && t.dst == f && Holds(t.lab, a);
      var t2 :| t2 in g2.trans && t2.src == g2.init && t2.dst == q && Holds(t2.lab, a);
      assert t in c && t2 in Leaving(g2, {g2.init}) && Holds(True, a);
      assert Mixes(h, m, m[t.src], t, Leaving(g2, {g2.init}), {True});
    }
  }

  lemma Here(g1: Nfa, k1: set<Loc>, m: LocHash, p: Loc, a: Letter, r: Loc, q: Loc)
    requires q in k1 && q in m && m[q] == r && Step(g1, p, a, q)
    ensures StepsHere(g1, k1, m, p, a, r)
  {
  }

  lemma OverFrom(g1: Nfa, p: Loc, a: Letter, q: Loc)
    requires Step(g1, p, a, q) && q in g1.final
    ensures StepsFinal(g1, p, a)
  {
  }

  lemma OverTo(g1: Nfa, g2: Nfa, k2: set<Loc>, m: LocHash, p: Loc, a: Letter, r: Loc, q: Loc)
    requires StepsFinal(g1, p, a) && q in k2 && q in m && m[q] == r && Step(g2, g2.init, a, q)
    ensures StepsOver(g1, g2, k2, m, p, a, r)
  {
  }

  lemma NotBefore(g1: Nfa, g2: Nfa, h2: Nfa, m2: LocHash, lo: nat, h: Nfa, m: LocHash, hi: nat, k1: set<Loc>, p: Loc, u: Trans)
    requires FusionDone(g1, g2, h2, m2, lo, h, m, hi, k1) && p in k1 && p in m && g1.sink != Some(p) && u.src == m[p]
    ensures u !in h2.trans
  {
    LocationOf(g1, g2, h2, m2, lo, h, m, hi, k1, p);
  }

  lemma FusionBackward(g1: Nfa, g2: Nfa, h2: Nfa, m2: LocHash, lo: nat, h: Nfa, m: LocHash, hi: nat, k1: set<Loc>, p: Loc, a: Letter, r: Loc)
    requires FusionDone(g1, g2, h2, m2, lo, h, m, hi, k1) && p in k1 && p in m && g1.sink != Some(p)
    requires Step(h, m[p], a, r)
    ensures StepsHere(g1, k1, m, p, a, r) || StepsOver(g1, g2, m2.Keys - {g1.init}, m, p, a, r)
  {
    hide FusionDone, Mixes, StepsHere, StepsOver, StepsFinal;
    var u :| u in h.trans && u.src == m[p] && u.dst == r && Holds(u.lab, a);
    LocationOf(g1, g2, h2, m2, lo, h, m, hi, k1, p);
    NotBefore(g1, g2, h2, m2, lo, h, m, hi, k1, p, u);
    FusionSources(g1, g2, h2, m2, lo, h, m, hi, k1, u);
    var t :| t in Leaving(g1, k1) && t.src in m && m[t.src] == u.src &&
          ((t.dst in m && t.lab == u.lab && m[t.dst] == u.dst) || (t.dst in g1.final && IsMix(g2, m, m[t.src], t, u)));
    assert t.src == p;
    if t.dst in m && t.lab == u.lab && m[t.dst] == u.dst {
      assert Step(g1, p, a, t.dst);
      FusionForward(g1, g2, h2, m2, lo, h, m, hi, k1, p, a, t.dst);
      Here(g1, k1, m, p, a, r, t.dst);
    } else {
      var t2 :| IsStart(g2, m, t2) && u.dst == m[t2.dst] && forall a :: Holds(u.lab, a) ==> Holds(t.lab, a) && Holds(t2.lab, a);
      assert Step(g1, p, a, t.dst) && Step(g2, g2.init, a, t2.dst);
      OverFrom(g1, p, a, t.dst);
      FusionForward(g1, g2, h2, m2, lo, h, m, hi, k1, p, a, t2.dst);
      OverTo(g1, g2, m2.Keys - {g1.init}, m, p, a, r, t2.dst);
    }
  }

  lemma CopiesMakeFusion(g1: Nfa, g2: Nfa, h2: Nfa, m2: LocHash, lo: nat, h: Nfa, m: LocHash, hi: nat, k1: set<Loc>)
    requires FusionDone(g1, g2, h2, m2, lo, h, m, hi, k1)
    requires PartOf(g2, h2, m2, m2.Keys - {g1.init})
    ensures IsFusionOf(g1, k1, g2, m2.Keys - {g1.init}, h, m) && SinkOk(h)
  {
    hide FusionDone, PartOf, Step, StepsFinal, StepsHere, StepsOver, SinkOk;
    var k2 := m2.Keys - {g1.init};
    FusionSinkOk(g1, g2, h2, m2, lo, h, m, hi, k1);
    FusionPart(g1, g2, h2, m2, lo, h, m, hi, k1);
    FusionNames(g1, g2, h2, m2, lo, h, m, hi, k1);
    forall p | p in k1
      ensures m[p] !in h.final && (m[p] == h.init <==> p == g1.init) && (h.sink == Some(m[p]) <==> g1.sink == Some(p))
    {
      LocationOf(g1, g2, h2, m2, lo, h, m, hi, k1, p);
    }
    forall p: Loc, a: Letter, q: Loc | p in k1 && Step(g1, p, a, q) ensures q in k1 && Step(h, m[p], a, m[q]) {
      FusionForward(g1, g2, h2, m2, lo, h, m, hi, k1, p, a, q);
    }
    forall p: Loc, a: Letter, q: Loc | p in k1 && StepsFinal(g1, p, a) && Step(g2, g2.init, a, q) ensures q in k2 && Step(h, m[p], a, m[q]) {
      FusionForward(g1, g2, h2, m2, lo, h, m, hi, k1, p, a, q);
    }
    forall p: Loc, a: Letter, r: Loc | p in k1 && g1.sink != Some(p) && Step(h, m[p], a, r)
      ensures StepsHere(g1, k1, m, p, a, r) || StepsOver(g1, g2, k2, m, p, a, r)
    {
      FusionBackward(g1, g2, h2, m2, lo, h, m, hi, k1, p, a, r);
    }
  }

  lemma FusionNames(g1: Nfa, g2: Nfa, h2: Nfa, m2: LocHash, lo: nat, h: Nfa, m: LocHash, hi: nat, k1: set<Loc>)
    requires FusionDone(g1, g2, h2, m2, lo, h, m, hi, k1)
    ensures SinkOk(g1) && k1 <= m.Keys && m2.Keys - {g1.init} <= m.Keys && g1.init in k1 && m[g1.init] == h.init
    ensures forall p :: p in m2.Keys - {g1.init} ==> m[p] != h.init
  {
  }

  /** Fusion creates no unsatisfiable label. */
  lemma FusionLabels(g1: Nfa, g2: Nfa, h2: Nfa, m2: LocHash, lo: nat, h: Nfa, m: LocHash, hi: nat, k1: set<Loc>)
    requires FusionDone(g1, g2, h2, m2, lo, h, m, hi, k1) && LabelsSat(g1) && LabelsSat(h2)
    ensures LabelsSat(h)
  {
    forall u | u in h.trans ensures IsSat(u.lab) {
      if u !in h2.trans {
        FusionSources(g1, g2, h2, m2, lo, h, m, hi, k1, u);
      }
    }
  }
}

module Fusions {
  import opened BoolExpr
  import opened Alphabet
  import opened Nfas
  import opened Automata
  import opened AlgoChooser
  import opened CopyGraphs
  import opened Copying
  import opened LabelSteps
  import opened Parts
  import opened AcceptingSearch
  import opened AcceptingLanguage
  import opened Accepting
  import opened ConcatLanguage
  import opened FusionLanguage

  /** A transition that mixes t with an initial transition of the second operand. */
  method AddMix(manager: AutomataManager, res: Automaton, hash: LocHash, a1: Automaton, r: Loc, t2: Transition, lab: Label,
                ghost t: Trans, ghost g2: Nfa, ghost h0: Nfa)
    requires Ready(manager, res, hash, a1) && r in res.loc && t2.end in hash
    requires Gained(g2, hash, r, t, h0, res.Graph()) && IsStart(g2, hash, Trans(g2.init, t2.lab, t2.end))
    requires IsSat(lab) && forall a :: Holds(lab, a) ==> Holds(t.lab, a) && Holds(t2.lab, a)
    modifies res
    ensures Ready(manager, res, hash, a1)
    ensures Gained(g2, hash, r, t, h0, res.Graph())
    ensures old(res.Graph()).trans <= res.Graph().trans && Trans(r, lab, hash[t2.end]) in res.Graph().trans
  {
    hide *;
    ReadyAt(manager, res, hash, a1, t2.end);
    GainedOne(g2, hash, r, t, h0, res.Graph(), Trans(g2.init, t2.lab, t2.end), lab);
    AddTransition(manager, res, hash, a1, r, hash[t2.end], lab);
  }

  /** The inner loop of the alphabet step: one symbol that is a model of the label of t. */
  method FusionSymbol(manager: AutomataManager, res: Automaton, hash: LocHash, a1: Automaton, a2: Automaton, r: Loc, t: Transition,
                      symbol: Label, ghost u: Trans, ghost h0: Nfa, ghost alphabet: set<Label>, ghost support: set<Prop>)
    requires Ready(manager, res, hash, a1) && a2.Valid() && a2 != res && r in res.loc && a2.initial in a2.loc
    requires forall t2 :: t2 in Leaving(a2.Graph(), {a2.initial}) ==> t2.dst in hash
    requires IsAlphabet(alphabet, support) && symbol in alphabet && IsModel(t.lab, symbol)
    requires u.lab == t.lab && Support(t.lab) <= support && ListSupport(a2.loc[a2.initial].transitions) <= support
    requires Gained(a2.Graph(), hash, r, u, h0, res.Graph())
    modifies res
    ensures Ready(manager, res, hash, a1) && r in res.loc
    ensures Gained(a2.Graph(), hash, r, u, h0, res.Graph())
    ensures old(res.Graph()).trans <= res.Graph().trans
    ensures Mixes(res.Graph(), hash, r, u, Leaving(a2.Graph(), {a2.initial}), {symbol})
  {
    hide *;
    ghost var g2, h := a2.Graph(), res.Graph();
    ValidUnpack(a2);
    ListStart(a2, a2.initial);
    var ts := a2.loc[a2.initial].transitions;
    MixesNone(h, hash, r, u, {}, {symbol});
    var i := 0;
    while i < |ts|
      invariant 0 <= i <= |ts|
      invariant Ready(manager, res, hash, a1) && r in res.loc
      invariant Gained(g2, hash, r, u, h0, res.Graph())
      invariant h.trans <= res.Graph().trans
      invariant Mixes(res.Graph(), hash, r, u, TransFrom(a2.initial, ts[..i]), {symbol})
    {
      ghost var h1, u2 := res.Graph(), Trans(a2.initial, ts[i].lab, ts[i].end);
      ReadyUnpack(manager, res, hash, a1);
      ListNext(a2, a2.initial, i);
      InStart(a2, hash, i);
      if IsModel(ts[i].lab, symbol) {
        SupportCovers(ts, i, support);
        SymbolImplies(alphabet, support, symbol, t.lab, ts[i].lab);
        AddMix(manager, res, hash, a1, r, ts[i], symbol, u, g2, h0);
        MixesKept(h1, res.Graph(), hash, r, u, TransFrom(a2.initial, ts[..i]), {symbol});
        MixesOne(res.Graph(), hash, r, u, u2, symbol, symbol);
        StillThere(manager, res, hash, a1, r, g2, u, h0, h1);
      } else {
        NotModel(ts[i].lab, symbol);
        MixesUnsat(h1, hash, r, u, {u2}, symbol);
      }
      MixesMore(res.Graph(), hash, r, u, TransFrom(a2.initial, ts[..i]), {symbol}, {u2}, {symbol});
      i := i + 1;
    }
  }

  method FusionAlphabetStep(manager: AutomataManager, res: Automaton, hash: LocHash, a1: Automaton, a2: Automaton, r: Loc, t: Transition,
                            support: set<Prop>, ghost u: Trans)
    requires Ready(manager, res, hash, a1) && a2.Valid() && a2 != res && r in res.loc && a2.initial in a2.loc
    requires forall t2 :: t2 in Leaving(a2.Graph(), {a2.initial}) ==> t2.dst in hash
    requires u.lab == t.lab && Support(t.lab) <= support && ListSupport(a2.loc[a2.initial].transitions) <= support
    modifies res
    ensures Ready(manager, res, hash, a1)
    ensures Gained(a2.Graph(), hash, r, u, old(res.Graph()), res.Graph())
    ensures Mixes(res.Graph(), hash, r, u, Leaving(a2.Graph(), {a2.initial}), {True})
  {
    hide *;
    ghost var g2, h0, c2 := a2.Graph(), res.Graph(), Leaving(a2.Graph(), {a2.initial});
    var alphabet := GetAlphabet(support);
    GainedNone(g2, hash, r, u, h0);
    MixesNone(h0, hash, r, u, c2, {});
    var rest := alphabet;
    assert alphabet - rest == {};
    while rest != {}
      invariant rest <= alphabet
      invariant Ready(manager, res, hash, a1) && r in res.loc
      invariant Gained(g2, hash, r, u, h0, res.Graph())
      invariant Mixes(res.Graph(), hash, r, u, c2, alphabet - rest)
      decreases rest
    {
      var symbol :| symbol in rest;
      ghost var h1 := res.Graph();
      if IsModel(t.lab, symbol) {
        FusionSymbol(manager, res, hash, a1, a2, r, t, symbol, u, h0, alphabet, support);
        MixesKept(h1, res.Graph(), hash, r, u, c2, alphabet - rest);
      } else {
        NotModel(t.lab, symbol);
        MixesUnsat(h1, hash, r, u, c2, symbol);
      }
      MixesMore(res.Graph(), hash, r, u, c2, alphabet - rest, c2, {symbol});
      assert alphabet - (rest - {symbol}) == (alphabet - rest) + {symbol};
      rest := rest - {symbol};
    }
    assert alphabet - rest == alphabet;
    AlphabetAdmits(alphabet, support);
    MixesForAll(res.Graph(), hash, r, u, c2, alphabet);
  }

  method FusionTransitionsStep(manager: AutomataManager, res: Automaton, hash: LocHash, a1: Automaton, a2: Automaton, r: Loc, t: Transition,
                               ghost u: Trans)
    requires Ready(manager, res, hash, a1) && a2.Valid() && a2 != res && r in res.loc && a2.initial in a2.loc
    requires forall t2 :: t2 in Leaving(a2.Graph(), {a2.initial}) ==> t2.dst in hash
    requires u.lab == t.lab
    modifies res
    ensures Ready(manager, res, hash, a1)
    ensures Gained(a2.Graph(), hash, r, u, old(res.Graph()), res.Graph())
    ensures Mixes(res.Graph(), hash, r, u, Leaving(a2.Graph(), {a2.initial}), {True})
  {
    hide *;
    ghost var g2, h0 := a2.Graph(), res.Graph();
    ValidUnpack(a2);
    ListStart(a2, a2.initial);
    GainedNone(g2, hash, r, u, h0);
    var ts := a2.loc[a2.initial].transitions;
    MixesNone(h0, hash, r, u, {}, {True});
    var i := 0;
    while i < |ts|
      invariant 0 <= i <= |ts|
      invariant Ready(manager, res, hash, a1) && r in res.loc
      invariant Gained(g2, hash, r, u, h0, res.Graph())
      invariant Mixes(res.Graph(), hash, r, u, TransFrom(a2.initial, ts[..i]), {True})
    {
      ghost var h1, u2 := res.Graph(), Trans(a2.initial, ts[i].lab, ts[i].end);
      ReadyUnpack(manager, res, hash, a1);
      ListNext(a2, a2.initial, i);
      InStart(a2, hash, i);
      var newLabel := And(t.lab, ts[i].lab);
      if IsSat(newLabel) {
        AndHolds(t.lab, ts[i].lab);
        AddMix(manager, res, hash, a1, r, ts[i], newLabel, u, g2, h0);
        MixesKept(h1, res.Graph(), hash, r, u, TransFrom(a2.initial, ts[..i]), {True});
        MixesOne(res.Graph(), hash, r, u, u2, True, newLabel);
        StillThere(manager, res, hash, a1, r, g2, u, h0, h1);
      } else {
        NotSat(t.lab, ts[i].lab);
        MixesUnsat(h1, hash, r, u, {u2}, True);
      }
      MixesMore(res.Graph(), hash, r, u, TransFrom(a2.initial, ts[..i]), {True}, {u2}, {True});
      i := i + 1;
    }
  }

  /** Combine a transition that enters a final location with the initial transitions of the second
      operand, by either step. */
  method FusionStep(manager: AutomataManager, res: Automaton, hash: LocHash, a1: Automaton, a2: Automaton, r: Loc, t: Transition,
                    chooser: AutomataAlgoChooser, ghost u: Trans)
    requires Ready(manager, res, hash, a1) && a2.Valid() && a2 != res && r in res.loc && a2.initial in a2.loc
    requires forall t2 :: t2 in Leaving(a2.Graph(), {a2.initial}) ==> t2.dst in hash
    requires u.lab == t.lab
    requires AutomataAlgoChooser.NeedsSupport(manager) ==> chooser.permanentSupport == ListSupport(a2.loc[a2.initial].transitions)
    modifies res, chooser
    ensures Ready(manager, res, hash, a1) && chooser.permanentSupport == old(chooser.permanentSupport)
    ensures Gained(a2.Graph(), hash, r, u, old(res.Graph()), res.Graph())
    ensures Mixes(res.Graph(), hash, r, u, Leaving(a2.Graph(), {a2.initial}), {True})
  {
    hide *;
    var methodType := chooser.ChooseFromTrans(manager, t);
    if methodType == AlphabetBased {
      FusionAlphabetStep(manager, res, hash, a1, a2, r, t, chooser.lastSupport, u);
    } else {
      FusionTransitionsStep(manager, res, hash, a1, a2, r, t, u);
    }
  }

  /** One transition of the first operand: it is copied, and combined if it enters a final location. */
  method FusionTransition(manager: AutomataManager, res: Automaton, hash: LocHash, stack: seq<Loc>, a1: Automaton, a2: Automaton, s: Loc, i: nat,
                          chooser: AutomataAlgoChooser, ghost h2: Nfa, ghost m2: LocHash, ghost lo: nat, ghost visited: set<Loc>, ghost c: set<Trans>)
    returns (hash': LocHash, stack': seq<Loc>)
    requires Ready(manager, res, hash, a1) && a2.Valid() && a2 != res && a2.initial in a2.loc
    requires ConcatTarget(a1.Graph(), h2, m2, lo)
    requires AutomataAlgoChooser.NeedsSupport(manager) ==> chooser.permanentSupport == ListSupport(a2.loc[a2.initial].transitions)
    requires s in a1.loc && s in hash && s in visited && i < |a1.loc[s].transitions|
    requires Shape(a1.Graph(), h2, m2, lo, res.Graph(), hash, manager.nextLoc)
    requires Frontier(a1.Graph(), m2, hash, a1.initial, visited, stack)
    requires Flags(a1.Graph(), NoFinal(a2.Graph()), h2, m2, res.Graph(), hash, visited)
    requires Fused(a1.Graph(), a2.Graph(), h2, res.Graph(), hash, c)
    modifies res, manager, chooser
    ensures Ready(manager, res, hash', a1) && chooser.permanentSupport == old(chooser.permanentSupport) && s in hash'
    ensures Shape(a1.Graph(), h2, m2, lo, res.Graph(), hash', manager.nextLoc)
    ensures Frontier(a1.Graph(), m2, hash', a1.initial, visited, stack')
    ensures Flags(a1.Graph(), NoFinal(a2.Graph()), h2, m2, res.Graph(), hash', visited)
    ensures Fused(a1.Graph(), a2.Graph(), h2, res.Graph(), hash', c + {TransAt(a1, s, i)})
  {
    hide *;
    ghost var g1, g2, n2 := a1.Graph(), a2.Graph(), NoFinal(a2.Graph());
    ghost var h1, mid, u := res.Graph(), manager.nextLoc, TransAt(a1, s, i);
    ReadyUnpack(manager, res, hash, a1);
    ValidUnpack(a2);
    ListNext(a1, s, i);
    var t := a1.loc[s].transitions[i];
    FrontierVisited(g1, m2, hash, a1.initial, visited, stack);
    hash', stack' := CopyTransitionToLoc(manager, res, hash[s], a1, t, hash, stack);
    ghost var hc, hi := res.Graph(), manager.nextLoc;
    ExtendsKeeps(g1, h1, hash, mid, hc, hash', hi);
    FlagsKept(g1, n2, h2, m2, lo, h1, hash, mid, hc, hash', hi, visited);
    FrontierStep(g1, m2, hash, hash', a1.initial, visited, stack, stack', u);
    ReadyUnpack(manager, res, hash', a1);
    FusedFacts(g1, g2, h2, h1, hash, c);
    if a1.loc[t.end].final {
      FusionStep(manager, res, hash', a1, a2, hash'[s], t, chooser, u);
      GainedGraph(g2, hash', hash'[s], u, hc, res.Graph());
      FlagsIgnoreTrans(g1, n2, h2, m2, lo, hc, hash', hi, visited, res.Graph());
    }
    FusedStep(g1, g2, h2, h1, hash, hc, res.Graph(), hash', c, u);
  }

  /** The body of the loop: one location of the first operand. */
  method FusionLocation(manager: AutomataManager, res: Automaton, hash: LocHash, stack: seq<Loc>, a1: Automaton, a2: Automaton, s: Loc,
                        chooser: AutomataAlgoChooser, ghost h2: Nfa, ghost m2: LocHash, ghost lo: nat, ghost visited: set<Loc>)
    returns (hash': LocHash, stack': seq<Loc>)
    requires Ready(manager, res, hash, a1) && a2.Valid() && a2 != res && a2.initial in a2.loc && SinkOk(a1.Graph())
    requires ConcatTarget(a1.Graph(), h2, m2, lo)
    requires AutomataAlgoChooser.NeedsSupport(manager) ==> chooser.permanentSupport == ListSupport(a2.loc[a2.initial].transitions)
    requires s in a1.loc && s in hash && s !in visited
    requires Shape(a1.Graph(), h2, m2, lo, res.Graph(), hash, manager.nextLoc)
    requires Frontier(a1.Graph(), m2, hash, a1.initial, visited + {s}, stack)
    requires Flags(a1.Graph(), NoFinal(a2.Graph()), h2, m2, res.Graph(), hash, visited)
    requires Fused(a1.Graph(), a2.Graph(), h2, res.Graph(), hash, Leaving(a1.Graph(), visited))
    modifies res, manager, chooser
    ensures Ready(manager, res, hash', a1) && chooser.permanentSupport == old(chooser.permanentSupport)
    ensures Shape(a1.Graph(), h2, m2, lo, res.Graph(), hash', manager.nextLoc)
    ensures Frontier(a1.Graph(), m2, hash', a1.initial, visited + {s}, stack')
    ensures Flags(a1.Graph(), NoFinal(a2.Graph()), h2, m2, res.Graph(), hash', visited + {s})
    ensures Fused(a1.Graph(), a2.Graph(), h2, res.Graph(), hash', Leaving(a1.Graph(), visited + {s}))
  {
    hide *;
    ghost var g1, g2, n2, c := a1.Graph(), a2.Graph(), NoFinal(a2.Graph()), Leaving(a1.Graph(), visited);
    ReadyUnpack(manager, res, hash, a1);
    FlagsCleared(g1, g2, h2, m2, lo, res.Graph(), hash, manager.nextLoc, visited, s);
    FusedIgnoresFlags(g1, g2, h2, res.Graph(), hash, c, hash[s], false);
    FlagLocation(manager, res, hash, a1, hash[s], false);
    hash', stack' := hash, stack;
    var ts := a1.loc[s].transitions;
    ListStart(a1, s);
    LeavingMore(a1, visited, s);
    assert c + {} == c;
    var i := 0;
    while i < |ts|
      invariant 0 <= i <= |ts|
      invariant Ready(manager, res, hash', a1) && chooser.permanentSupport == old(chooser.permanentSupport) && s in hash'
      invariant a1.Graph() == g1 && a1.loc == old(a1.loc) && a1.initial == old(a1.initial)
      invariant Shape(g1, h2, m2, lo, res.Graph(), hash', manager.nextLoc)
      invariant Frontier(g1, m2, hash', a1.initial, visited + {s}, stack')
      invariant Flags(g1, n2, h2, m2, res.Graph(), hash', visited + {s})
      invariant Fused(g1, g2, h2, res.Graph(), hash', c + TransFrom(s, ts[..i]))
    {
      ReadyUnpack(manager, res, hash', a1);
      ListNext(a1, s, i);
      hash', stack' := FusionTransition(manager, res, hash', stack', a1, a2, s, i, chooser, h2, m2, lo, visited + {s}, c + TransFrom(s, ts[..i]));
      assert c + TransFrom(s, ts[..i + 1]) == c + TransFrom(s, ts[..i]) + {TransAt(a1, s, i)};
      i := i + 1;
    }
  }

  /** The fusion before it is pruned. */
  method BuildFusion(manager: AutomataManager, a1: Automaton, a2: Automaton) returns (res: Automaton)
    requires a1.Usable(manager) && a2.Usable(manager) && a1.loc.Keys !! a2.loc.Keys
    modifies manager
    ensures fresh(res) && res.Usable(manager) && old(manager.nextLoc) <= manager.nextLoc
    ensures Lang(res.Graph()) == Fuse(Lang(a1.Graph()), Lang(a2.Graph())) && Returns(res.Graph()) == Returns(a1.Graph())
    ensures LabelsSat(a1.Graph()) && LabelsSat(a2.Graph()) ==> LabelsSat(res.Graph())
  {
    hide *;
    UsableUnpack(manager, a1);
    UsableUnpack(manager, a2);
    ghost var g1, g2 := a1.Graph(), a2.Graph();
    res := NewResult(manager, a1.loc[a1.initial].final);
    ghost var r, lo0 := res.initial, manager.nextLoc;
    var hash: LocHash := map[a1.initial := res.initial];
    ReadyForSecond(manager, res, a2, a1.initial, a1.loc[a1.initial].final);
    hash := CopyFromInitialLoc(manager, res, a2, hash, true);
    ghost var h2, m2, lo := res.Graph(), hash, manager.nextLoc;
    ReadyUnpack(manager, res, hash, a2);
    SecondCopied(g1, g2, r, lo0, h2, m2, lo);
    ReadyForFirst(manager, res, hash, a1, a2);
    FusedStart(g1, g2, h2, m2, lo);
    FrontierFrom(g1, m2, a1.initial);
    var chooser := new AutomataAlgoChooser();
    chooser.SetPermanentLocation(manager, a2.loc[a2.initial]);
    var stack := [a1.initial];
    ghost var visited: set<Loc> := {};
    while stack != []
      invariant Ready(manager, res, hash, a1) && fresh(chooser)
      invariant a1.Graph() == g1 && a2.Graph() == g2 && a2.Valid() && a2.loc == old(a2.loc) && a2.initial == old(a2.initial)
      invariant AutomataAlgoChooser.NeedsSupport(manager) ==> chooser.permanentSupport == ListSupport(a2.loc[a2.initial].transitions)
      invariant Shape(g1, h2, m2, lo, res.Graph(), hash, manager.nextLoc)
      invariant Frontier(g1, m2, hash, a1.initial, visited, stack)
      invariant Flags(g1, NoFinal(g2), h2, m2, res.Graph(), hash, visited)
      invariant Fused(g1, g2, h2, res.Graph(), hash, Leaving(g1, visited))
      decreases g1.locs - visited
    {
      FrontierPop(g1, m2, hash, a1.initial, visited, stack);
      ReadyUnpack(manager, res, hash, a1);
      var s := stack[0];
      hash, stack := FusionLocation(manager, res, hash, stack[1..], a1, a2, s, chooser, h2, m2, lo, visited);
      visited := visited + {s};
    }
    FrontierDone(g1, m2, hash, a1.initial, visited);
    ReadyUnpack(manager, res, hash, a1);
    FusionDonePack(g1, g2, h2, m2, lo, res.Graph(), hash, manager.nextLoc, visited);
    CopiesMakeFusion(g1, g2, h2, m2, lo, res.Graph(), hash, manager.nextLoc, visited);
    FusionMeans(g1, visited, g2, m2.Keys - {g1.init}, res.Graph(), hash);
    if LabelsSat(g1) && LabelsSat(g2) {
      FusionLabels(g1, g2, h2, m2, lo, res.Graph(), hash, manager.nextLoc, visited);
    }
    UsablePack(manager, res);
  }

  method Fusion(manager: AutomataManager, a1: Automaton, a2: Automaton) returns (res: Automaton)
    requires a1.Usable(manager) && a2.Usable(manager) && a1.loc.Keys !! a2.loc.Keys
    modifies manager
    ensures fresh(res) && res.Usable(manager) && old(manager.nextLoc) <= manager.nextLoc
    ensures forall l :: l in res.loc ==> old(manager.nextLoc) <= l
    ensures Lang(res.Graph()) == Fuse(Lang(a1.Graph()), Lang(a2.Graph()))
    ensures LabelsSat(a1.Graph()) && LabelsSat(a2.Graph()) ==>
              && LabelsSat(res.Graph())
              && Returns(res.Graph()) == if Lang(res.Graph()) == iset{} then iset{[]} else Returns(a1.Graph())
    ensures Returns(res.Graph()) == Returns(a1.Graph()) || Returns(res.Graph()) == iset{[]}
    ensures Lang(res.Graph()) != iset{} ==> Returns(res.Graph()) == Returns(a1.Graph())
    ensures Trim(res.Graph()) && res.sink.None?
  {
    hide *;
    var fused := BuildFusion(manager, a1, a2);
    UsableUnpack(manager, fused);
    CannotAcceptEmpty(fused.Graph());
    if LabelsSat(fused.Graph()) {
      EmptyIffCannotAccept(fused.Graph());
    }
    res := PruneNonAcceptingPaths(manager, fused);
  }
}
