/** Concatenation of two automata with disjoint locations. */
module ConcatLanguage {
  import opened BoolExpr
  import opened Alphabet
  import opened Nfas
  import opened Automata
  import opened CopyGraphs
  import opened Parts

  /** From the copies of the locations x, the transitions of c. */
  ghost function Bridges(x: set<Loc>, c: set<Trans>, m: LocHash): set<Trans> {
    set p, t | p in x && t in c && p in m && t.dst in m :: Trans(m[p], t.lab, m[t.dst])
  }

  /** The visited locations that are expanded: the sink is not. */
  ghost function Live(g: Nfa, visited: set<Loc>): set<Loc> {
    set l | l in visited && g.sink != Some(l)
  }

  /** The transitions of h: those of h2 (the second operand), the copies of those of the first
      operand, and bridges from its final locations into the second. */
  ghost predicate Joined(g1: Nfa, g2: Nfa, h2: Nfa, h: Nfa, m: LocHash, visited: set<Loc>) {
    && visited <= m.Keys
    && EndsIn(Leaving(g1, Live(g1, visited)), m)
    && (forall t :: t in Leaving(g2, {g2.init}) ==> t.dst in m)
    && h.trans == h2.trans + Image(Leaving(g1, Live(g1, visited)), m) +
                  Bridges(Live(g1, visited) * g1.final, Leaving(g2, {g2.init}), m)
  }

  /** A location of the first operand is final in the result if it is final and either it is not
      visited yet or the second operand accepts the empty word. */
  ghost predicate Flags(g1: Nfa, g2: Nfa, h2: Nfa, m2: LocHash, h: Nfa, m: LocHash, visited: set<Loc>) {
    && g1.init in m
    && (forall k :: k == g1.init || (k in m && k !in m2) ==>
          (m[k] in h.final <==> k in g1.final && (k in visited ==> g2.init in g2.final)))
    && (forall l :: l in h2.locs && l != h2.init ==> (l in h.final <==> l in h2.final))
  }

  /** The target before the first operand is copied: the second operand is in it, and the initial
      location of the first is mapped to the initial location. */
  ghost predicate ConcatTarget(g1: Nfa, h2: Nfa, m2: LocHash, lo: nat) {
    && Closed(h2) && SinkOk(h2) && (forall l :: l in h2.locs ==> l < lo)
    && g1.init in m2 && m2[g1.init] == h2.init
    && (forall k :: k in m2 ==> m2[k] in h2.locs)
    && (forall k :: k in m2 && k in g1.locs ==> k == g1.init)
  }

  /** The hash starts with the initial location of the first operand only, and the second operand
      is copied into the target without its initial location. */
  lemma SecondCopied(g1: Nfa, g2: Nfa, r: Loc, lo: nat, h2: Nfa, m2: LocHash, hi: nat)
    requires Closed(g1) && SinkOk(g1) && Closed(g2) && SinkOk(g2) && g1.locs !! g2.locs && r < lo
    requires Extends(g2, Single(r, g1.init in g1.final), map[g1.init := r], lo, h2, m2, hi)
    requires CopiedFromInitial(g2, Single(r, g1.init in g1.final), map[g1.init := r], h2, m2, Leaving(g2, {g2.init}), false)
    requires forall k :: k in m2 ==> m2[k] in h2.locs
    ensures ConcatTarget(g1, h2, m2, hi) && (h2.init in h2.final <==> g1.init in g1.final)
    ensures PartOf(g2, h2, m2, m2.Keys - {g1.init})
    ensures forall t :: t in h2.trans ==> t.src != h2.init
    ensures forall k :: k in m2 && k != g1.init ==> m2[k] != h2.init
    ensures forall t :: t in Leaving(g2, {g2.init}) ==> t.dst in m2 && t.dst in m2.Keys - {g1.init}
    ensures LabelsSat(g2) ==> LabelsSat(h2)
    ensures m2.Keys <= {g1.init} + g2.locs && forall l :: l in h2.locs ==> r <= l
  {
    var h0, m0: LocHash, c := Single(r, g1.init in g1.final), map[g1.init := r], Leaving(g2, {g2.init});
    CopyIsPart(g2, h0, m0, lo, h2, m2, hi, c, false);
    ExtendsKeys(g2, h0, m0, lo, h2, m2, hi);
    if LabelsSat(g2) {
      CopyLabels(g2, h0, m0, h2, m2, c, false);
    }
    NotInitialSource(Leaving(g2, m2.Keys - m0.Keys), m2, r);
  }

  lemma NotInitialSource(c: set<Trans>, m: LocHash, r: Loc)
    requires forall t :: t in c && t.src in m ==> m[t.src] != r
    ensures forall t :: t in Image(c, m) ==> t.src != r
  {
  }

  // ----- One location of the first operand

  lemma JoinedStart(g1: Nfa, g2: Nfa, h2: Nfa, m2: LocHash, lo: nat)
    requires ConcatTarget(g1, h2, m2, lo) && (h2.init in h2.final <==> g1.init in g1.final)
    requires forall t :: t in Leaving(g2, {g2.init}) ==> t.dst in m2
    ensures Joined(g1, g2, h2, h2, m2, {}) && Flags(g1, g2, h2, m2, h2, m2, {})
    ensures Shape(g1, h2, m2, lo, h2, m2, lo)
  {
    assert Live(g1, {}) == {};
  }

  /** A location of the first operand is mapped to the sink of the target exactly when it is the sink. */
  lemma SinkIsMapped(g1: Nfa, h2: Nfa, m2: LocHash, lo: nat, h: Nfa, m: LocHash, hi: nat, s: Loc)
    requires ConcatTarget(g1, h2, m2, lo) && SinkOk(g1) && ReadyOn(g1, h, m)
    requires Shape(g1, h2, m2, lo, h, m, hi) && s in m && s in g1.locs
    ensures h.sink == Some(m[s]) <==> g1.sink == Some(s)
  {
  }

  lemma JoinedIgnoresFlags(g1: Nfa, g2: Nfa, h2: Nfa, h: Nfa, m: LocHash, visited: set<Loc>, l: Loc, f: bool)
    requires Joined(g1, g2, h2, h, m, visited)
    ensures Joined(g1, g2, h2, WithFinal(h, l, f), m, visited)
  {
  }

  lemma JoinedFacts(g1: Nfa, g2: Nfa, h2: Nfa, h: Nfa, m: LocHash, visited: set<Loc>)
    requires Joined(g1, g2, h2, h, m, visited)
    ensures visited <= m.Keys && forall t :: t in Leaving(g2, {g2.init}) ==> t.dst in m
  {
  }

  lemma JoinedSink(g1: Nfa, g2: Nfa, h2: Nfa, m2: LocHash, h: Nfa, m: LocHash, visited: set<Loc>, s: Loc)
    requires Joined(g1, g2, h2, h, m, visited) && Flags(g1, g2, h2, m2, h, m, visited)
    requires g1.sink == Some(s) && SinkOk(g1) && s in m
    ensures Joined(g1, g2, h2, h, m, visited + {s}) && Flags(g1, g2, h2, m2, h, m, visited + {s})
  {
    assert Live(g1, visited + {s}) == Live(g1, visited);
  }

  lemma FlagsSet(g1: Nfa, g2: Nfa, h2: Nfa, m2: LocHash, lo: nat, h: Nfa, m: LocHash, hi: nat, visited: set<Loc>, s: Loc, f: bool)
    requires ConcatTarget(g1, h2, m2, lo)
    requires Shape(g1, h2, m2, lo, h, m, hi) && Flags(g1, g2, h2, m2, h, m, visited)
    requires g1.sink != Some(s) && s in m && s in g1.locs
    requires f == (s in g1.final && g2.init in g2.final)
    ensures Flags(g1, g2, h2, m2, WithFinal(h, m[s], f), m, visited + {s})
    ensures Shape(g1, h2, m2, lo, WithFinal(h, m[s], f), m, hi)
  {
  }

  lemma FlagsKept(g1: Nfa, g2: Nfa, h2: Nfa, m2: LocHash, lo: nat, h1: Nfa, m1: LocHash, mid: nat, h: Nfa, m: LocHash, hi: nat, visited: set<Loc>)
    requires ConcatTarget(g1, h2, m2, lo) && visited <= m1.Keys
    requires Shape(g1, h2, m2, lo, h1, m1, mid) && Flags(g1, g2, h2, m2, h1, m1, visited)
    requires Extends(g1, h1, m1, mid, h, m, hi)
    ensures Flags(g1, g2, h2, m2, h, m, visited)
    ensures Shape(g1, h2, m2, lo, h, m, hi)
  {
    ShapeTransitive(g1, h2, m2, lo, h1, m1, mid, h, m, hi);
  }

  lemma FlagsIgnoreTrans(g1: Nfa, g2: Nfa, h2: Nfa, m2: LocHash, lo: nat, h: Nfa, m: LocHash, hi: nat, visited: set<Loc>, h': Nfa)
    requires Flags(g1, g2, h2, m2, h, m, visited) && Shape(g1, h2, m2, lo, h, m, hi)
    requires h' == h.(trans := h'.trans)
    ensures Flags(g1, g2, h2, m2, h', m, visited) && Shape(g1, h2, m2, lo, h', m, hi)
  {
  }

  /** Expanding a location: its transitions are copied (from h1 to hc) and its bridges are built. */
  lemma JoinedStep(g1: Nfa, g2: Nfa, h2: Nfa, h1: Nfa, m1: LocHash, hc: Nfa, h: Nfa, m: LocHash, visited: set<Loc>, s: Loc)
    requires Joined(g1, g2, h2, h1, m1, visited) && g1.sink != Some(s)
    requires m1.Keys <= m.Keys && (forall k :: k in m1 ==> m[k] == m1[k]) && s in m1
    requires Copied(g1, h1, hc, m, Leaving(g1, {s}))
    requires h.trans == hc.trans + if s in g1.final then Bridges({s}, Leaving(g2, {g2.init}), m) else {}
    ensures Joined(g1, g2, h2, h, m, visited + {s})
  {
    var x, c2 := Live(g1, visited), Leaving(g2, {g2.init});
    assert Live(g1, visited + {s}) == x + {s};
    assert Leaving(g1, x + {s}) == Leaving(g1, x) + Leaving(g1, {s});
    JoinedTrans(g1, c2, h2, h1, m1, hc, h, m, x, s);
  }

  lemma JoinedTrans(g1: Nfa, c2: set<Trans>, h2: Nfa, h1: Nfa, m1: LocHash, hc: Nfa, h: Nfa, m: LocHash, x: set<Loc>, s: Loc)
    requires m1.Keys <= m.Keys && (forall k :: k in m1 ==> m[k] == m1[k])
    requires EndsIn(Leaving(g1, x), m1) && (forall t :: t in c2 ==> t.dst in m1) && x <= m1.Keys
    requires h1.trans == h2.trans + Image(Leaving(g1, x), m1) + Bridges(x * g1.final, c2, m1)
    requires hc.trans == h1.trans + Image(Leaving(g1, {s}), m)
    requires h.trans == hc.trans + if s in g1.final then Bridges({s}, c2, m) else {}
    ensures h.trans == h2.trans + Image(Leaving(g1, x + {s}), m) + Bridges((x + {s}) * g1.final, c2, m)
  {
    hide Image, Bridges, Leaving, EndsIn;
    ImageKept(Leaving(g1, x), m1, m);
    LeavingPlus(g1, x, {s});
    ImageSplit(Leaving(g1, x), Leaving(g1, {s}), m);
    BridgesKept(x * g1.final, c2, m1, m);
    BridgesMore(x * g1.final, s, c2, m);
    assert (x + {s}) * g1.final == x * g1.final + if s in g1.final then {s} else {};
    if s in g1.final {
      assert h.trans == h2.trans + (Image(Leaving(g1, x), m) + Image(Leaving(g1, {s}), m)) +
                        (Bridges(x * g1.final, c2, m) + Bridges({s}, c2, m));
    } else {
      assert x * g1.final + {} == x * g1.final;
      assert h.trans == h2.trans + (Image(Leaving(g1, x), m) + Image(Leaving(g1, {s}), m)) + Bridges(x * g1.final, c2, m);
    }
  }

  lemma ImageSplit(c: set<Trans>, d: set<Trans>, m: LocHash)
    ensures Image(c + d, m) == Image(c, m) + Image(d, m)
  {
  }

  lemma BridgesKept(x: set<Loc>, c: set<Trans>, m0: LocHash, m: LocHash)
    requires m0.Keys <= m.Keys && (forall k :: k in m0 ==> m[k] == m0[k])
    requires x <= m0.Keys && forall t :: t in c ==> t.dst in m0
    ensures Bridges(x, c, m) == Bridges(x, c, m0)
  {
  }

  lemma BridgesMore(x: set<Loc>, s: Loc, c: set<Trans>, m: LocHash)
    ensures Bridges(x + {s}, c, m) == Bridges(x, c, m) + Bridges({s}, c, m)
  {
  }

  lemma BridgesNext(s: Loc, c: set<Trans>, t: Trans, m: LocHash)
    requires s in m && t.dst in m
    ensures Bridges({s}, c + {t}, m) == Bridges({s}, c, m) + {Trans(m[s], t.lab, m[t.dst])}
  {
  }

  lemma BridgesNone(s: Loc, m: LocHash)
    ensures Bridges({s}, {}, m) == {}
  {
  }

  // ----- The language of the result

  ghost predicate IsConcat(g1: Nfa, k1: set<Loc>, g2: Nfa, k2: set<Loc>, h: Nfa, m: LocHash) {
    && PartOf(g2, h, m, k2) && SinkOk(g1) && SinkOk(h)
    && k1 <= m.Keys && g1.init in k1 && m[g1.init] == h.init
    && (forall p :: p in k1 ==> (m[p] in h.final <==> p in g1.final && g2.init in g2.final))
    && (forall p :: p in k1 ==> (m[p] == h.init <==> p == g1.init))
    && (forall p :: p in k2 ==> m[p] != h.init)
    && (forall p :: p in k1 ==> (h.sink == Some(m[p]) <==> g1.sink == Some(p)))
    && (forall t :: t in Leaving(g1, Live(g1, k1)) ==> t.dst in k1 && Trans(m[t.src], t.lab, m[t.dst]) in h.trans)
    && (forall p, t :: p in k1 && p in g1.final && t in g2.trans && t.src == g2.init ==>
          t.dst in k2 && Trans(m[p], t.lab, m[t.dst]) in h.trans)
    && (forall p, u :: p in Live(g1, k1) && u in h.trans && u.src == m[p] ==> HasOrigin(g1, Restricted(m, k1), p, u) || IsBridge(g1, g2, k2, m, p, u))
  }

  ghost predicate IsBridge(g1: Nfa, g2: Nfa, k2: set<Loc>, m: LocHash, p: Loc, u: Trans) {
    p in g1.final && exists t :: t in g2.trans && t.src == g2.init && t.lab == u.lab && t.dst in k2 && t.dst in m && m[t.dst] == u.dst
  }

  /** A word accepted from p by the first operand followed by a word of the second. */
  ghost predicate Follows(g1: Nfa, g2: Nfa, p: Loc, w: Word) {
    exists i | 0 <= i <= |w| :: Accepts(g1, p, w[..i]) && Accepts(g2, g2.init, w[i..])
  }

  lemma FollowsStep(g1: Nfa, g2: Nfa, p: Loc, w: Word, q: Loc)
    requires w != [] && Step(g1, p, w[0], q) && Follows(g1, g2, q, w[1..])
    ensures Follows(g1, g2, p, w)
  {
    var v := w[1..];
    var i :| 0 <= i <= |v| && Accepts(g1, q, v[..i]) && Accepts(g2, g2.init, v[i..]);
    assert w[..i + 1][1..] == v[..i] && w[i + 1..] == v[i..];
    assert Accepts(g1, p, w[..i + 1]);
  }

  lemma FollowsNow(g1: Nfa, g2: Nfa, p: Loc, w: Word)
    requires p in g1.final && Accepts(g2, g2.init, w)
    ensures Follows(g1, g2, p, w)
  {
    assert w[..0] == [] && w[0..] == w;
  }

  lemma FollowsFirst(g1: Nfa, g2: Nfa, p: Loc, w: Word) returns (q: Loc)
    requires w != [] && Follows(g1, g2, p, w)
    ensures (p in g1.final && Accepts(g2, g2.init, w)) || (Step(g1, p, w[0], q) && Follows(g1, g2, q, w[1..]))
  {
    var i :| 0 <= i <= |w| && Accepts(g1, p, w[..i]) && Accepts(g2, g2.init, w[i..]);
    q := p;
    if i == 0 {
      assert w[0..] == w;
    } else {
      q :| Step(g1, p, w[..i][0], q) && Accepts(g1, q, w[..i][1..]);
      assert w[1..][..i - 1] == w[..i][1..] && w[1..][i - 1..] == w[i..];
    }
  }

  /** The steps of a location of the first operand: its own, and those of the initial location of
      the second operand if it is final. */
  lemma ConcatSteps(g1: Nfa, k1: set<Loc>, g2: Nfa, k2: set<Loc>, h: Nfa, m: LocHash, p: Loc, a: Letter)
    requires IsConcat(g1, k1, g2, k2, h, m) && p in Live(g1, k1)
    ensures forall q :: Step(g1, p, a, q) ==> q in k1 && Step(h, m[p], a, m[q])
    ensures forall q :: p in g1.final && Step(g2, g2.init, a, q) ==> q in k2 && Step(h, m[p], a, m[q])
    ensures forall r :: Step(h, m[p], a, r) ==>
              (exists q :: q in k1 && m[q] == r && Step(g1, p, a, q)) ||
              (p in g1.final && exists q :: q in k2 && m[q] == r && Step(g2, g2.init, a, q))
  {
    forall q | Step(g1, p, a, q) ensures q in k1 && Step(h, m[p], a, m[q]) {
      var t :| t in g1.trans && t.src == p && t.dst == q && Holds(t.lab, a);
      assert t in Leaving(g1, Live(g1, k1));
      assert Trans(m[p], t.lab, m[q]) in h.trans;
    }
    forall q | p in g1.final && Step(g2, g2.init, a, q) ensures q in k2 && Step(h, m[p], a, m[q]) {
      var t :| t in g2.trans && t.src == g2.init && t.dst == q && Holds(t.lab, a);
      assert Trans(m[p], t.lab, m[q]) in h.trans;
    }
    forall r | Step(h, m[p], a, r)
      ensures (exists q :: q in k1 && m[q] == r && Step(g1, p, a, q)) ||
              (p in g1.final && exists q :: q in k2 && m[q] == r && Step(g2, g2.init, a, q))
    {
      var u :| u in h.trans && u.src == m[p] && u.dst == r && Holds(u.lab, a);
      if HasOrigin(g1, Restricted(m, k1), p, u) {
        var t :| t in g1.trans && t.src == p && t.lab == u.lab && t.dst in Restricted(m, k1) && Restricted(m, k1)[t.dst] == u.dst;
        assert Step(g1, p, a, t.dst);
      } else {
        var t :| t in g2.trans && t.src == g2.init && t.lab == u.lab && t.dst in k2 && t.dst in m && m[t.dst] == u.dst;
        assert Step(g2, g2.init, a, t.dst);
      }
    }
  }

  lemma {:induction false} ConcatAccepts(g1: Nfa, k1: set<Loc>, g2: Nfa, k2: set<Loc>, h: Nfa, m: LocHash, p: Loc, w: Word)
    requires IsConcat(g1, k1, g2, k2, h, m) && p in k1
    ensures Accepts(h, m[p], w) <==> Follows(g1, g2, p, w)
    decreases |w|
  {
    if g1.sink == Some(p) {
      SinkIsDead(g1);
      SinkIsDead(h);
    } else if w == [] {
      assert w[..0] == [] && w[0..] == [];
    } else {
      ConcatSteps(g1, k1, g2, k2, h, m, p, w[0]);
      assert PartOf(g2, h, m, k2);
      hide Follows, PartOf, IsConcat;
      if r :| Step(h, m[p], w[0], r) && Accepts(h, r, w[1..]) {
        if q :| q in k1 && m[q] == r && Step(g1, p, w[0], q) {
          ConcatAccepts(g1, k1, g2, k2, h, m, q, w[1..]);
          FollowsStep(g1, g2, p, w, q);
        } else {
          var q :| q in k2 && m[q] == r && Step(g2, g2.init, w[0], q);
          PartAccepts(g2, h, m, k2, q, w[1..]);
          FollowsNow(g1, g2, p, w);
        }
      }
      if Follows(g1, g2, p, w) {
        var q := FollowsFirst(g1, g2, p, w);
        if p in g1.final && Accepts(g2, g2.init, w) {
          var q2 :| Step(g2, g2.init, w[0], q2) && Accepts(g2, q2, w[1..]);
          PartAccepts(g2, h, m, k2, q2, w[1..]);
        } else {
          ConcatAccepts(g1, k1, g2, k2, h, m, q, w[1..]);
        }
      }
    }
  }

  lemma ConcatReturnSteps(g1: Nfa, k1: set<Loc>, g2: Nfa, k2: set<Loc>, h: Nfa, m: LocHash, p: Loc, a: Letter)
    requires IsConcat(g1, k1, g2, k2, h, m) && p in k1
    ensures forall q :: Step(Rooted(g1), p, a, q) ==> Dead(Rooted(g1), q) || (q in k1 && Step(Rooted(h), m[p], a, m[q]))
    ensures forall r :: Step(Rooted(h), m[p], a, r) ==>
              Dead(Rooted(h), r) || exists q :: q in k1 && m[q] == r && Step(Rooted(g1), p, a, q)
  {
    var g', h' := Rooted(g1), Rooted(h);
    assert forall q :: Step(g', p, a, q) <==> Step(g1, p, a, q);
    assert forall r :: Step(h', m[p], a, r) <==> Step(h, m[p], a, r);
    if g1.sink == Some(p) {
      SinkIsDead(g');
      SinkIsDead(h');
    } else {
      ConcatSteps(g1, k1, g2, k2, h, m, p, a);
      forall r | Step(h', m[p], a, r) && !exists q :: q in k1 && m[q] == r && Step(g', p, a, q)
        ensures Dead(h', r)
      {
        var q :| q in k2 && m[q] == r;
        forall w ensures !Accepts(h', r, w) {
          PartNeverReturns(g2, h, m, k2, q, w);
        }
      }
    }
  }

  lemma ConcatReturns(g1: Nfa, k1: set<Loc>, g2: Nfa, k2: set<Loc>, h: Nfa, m: LocHash)
    requires IsConcat(g1, k1, g2, k2, h, m)
    ensures Simulates(Rooted(g1), Rooted(h), Restricted(m, k1))
  {
    var g', h', n := Rooted(g1), Rooted(h), Restricted(m, k1);
    assert forall p :: p in n ==> (p in g'.final <==> n[p] in h'.final);
    forall p, a, q | p in n && Step(g', p, a, q)
      ensures Dead(g', q) || (q in n && Step(h', n[p], a, n[q]))
    {
      ConcatReturnSteps(g1, k1, g2, k2, h, m, p, a);
    }
    forall p, a, r | p in n && Step(h', n[p], a, r)
      ensures Dead(h', r) || exists q :: q in n && n[q] == r && Step(g', p, a, q)
    {
      ConcatReturnSteps(g1, k1, g2, k2, h, m, p, a);
      if !Dead(h', r) {
        var q :| q in k1 && m[q] == r && Step(g', p, a, q);
        assert q in n && n[q] == r;
      }
    }
  }

  /** Concatenation: the words of the first operand followed by the words of the second. */
  lemma ConcatMeans(g1: Nfa, k1: set<Loc>, g2: Nfa, k2: set<Loc>, h: Nfa, m: LocHash)
    requires IsConcat(g1, k1, g2, k2, h, m)
    ensures Lang(h) == Cat(Lang(g1), Lang(g2)) && Returns(h) == Returns(g1)
  {
    forall w ensures w in Lang(h) <==> w in Cat(Lang(g1), Lang(g2)) {
      ConcatAccepts(g1, k1, g2, k2, h, m, g1.init, w);
    }
    ConcatReturns(g1, k1, g2, k2, h, m);
    forall w ensures w in Returns(h) <==> w in Returns(g1) {
      SimulationAccepts(Rooted(g1), Rooted(h), Restricted(m, k1), g1.init, w);
    }
  }

  // ----- The finished loop

  /** The state of the loop when nothing is left to visit. */
  ghost predicate ConcatDone(g1: Nfa, g2: Nfa, h2: Nfa, m2: LocHash, lo: nat, h: Nfa, m: LocHash, hi: nat, k1: set<Loc>) {
    && ConcatTarget(g1, h2, m2, lo)
    && Shape(g1, h2, m2, lo, h, m, hi) && SinkMapped(g1, h, m)
    && k1 == (m.Keys - m2.Keys) + {g1.init}
    && Joined(g1, g2, h2, h, m, k1) && Flags(g1, g2, h2, m2, h, m, k1)
  }

  lemma ConcatDonePack(g1: Nfa, g2: Nfa, h2: Nfa, m2: LocHash, lo: nat, h: Nfa, m: LocHash, hi: nat, k1: set<Loc>)
    requires ConcatTarget(g1, h2, m2, lo) && Shape(g1, h2, m2, lo, h, m, hi) && ReadyOn(g1, h, m)
    requires k1 == (m.Keys - m2.Keys) + {g1.init}
    requires Joined(g1, g2, h2, h, m, k1) && Flags(g1, g2, h2, m2, h, m, k1)
    ensures ConcatDone(g1, g2, h2, m2, lo, h, m, hi, k1)
    ensures lo <= hi && forall l :: l in h.locs ==> l in h2.locs || lo <= l
  {
  }

  lemma LiveLocation(g1: Nfa, g2: Nfa, h2: Nfa, m2: LocHash, lo: nat, h: Nfa, m: LocHash, hi: nat, k1: set<Loc>, p: Loc)
    requires ConcatDone(g1, g2, h2, m2, lo, h, m, hi, k1) && SinkOk(g1) && p in Live(g1, k1)
    ensures p in m && p in k1 && (p == g1.init || lo <= m[p]) && h.sink != Some(m[p])
    ensures forall q :: q in Live(g1, k1) && q in m && m[q] == m[p] ==> q == p
  {
  }

  lemma AddedTrans(g1: Nfa, g2: Nfa, h2: Nfa, m2: LocHash, lo: nat, h: Nfa, m: LocHash, hi: nat, k1: set<Loc>, u: Trans)
    requires ConcatDone(g1, g2, h2, m2, lo, h, m, hi, k1)
    requires u in h.trans && u !in h2.trans
    ensures u in Image(Leaving(g1, Live(g1, k1)), m) || u in Bridges(Live(g1, k1) * g1.final, Leaving(g2, {g2.init}), m)
  {
  }

  /** Where the transitions added by the loop start. */
  lemma AddedSources(g1: Nfa, g2: Nfa, h2: Nfa, m2: LocHash, lo: nat, h: Nfa, m: LocHash, hi: nat, k1: set<Loc>, u: Trans)
    requires ConcatDone(g1, g2, h2, m2, lo, h, m, hi, k1) && SinkOk(g1)
    requires u in h.trans && u !in h2.trans
    ensures exists p :: p in Live(g1, k1) && p in m && m[p] == u.src && (p == g1.init || lo <= m[p]) && h.sink != Some(m[p])
  {
    hide ConcatDone, Live;
    AddedTrans(g1, g2, h2, m2, lo, h, m, hi, k1, u);
    var x := Live(g1, k1);
    if u in Image(Leaving(g1, x), m) {
      var t :| t in Leaving(g1, x) && t.src in m && t.dst in m && u == Trans(m[t.src], t.lab, m[t.dst]);
      LiveLocation(g1, g2, h2, m2, lo, h, m, hi, k1, t.src);
    } else {
      var p, t :| p in x && t in Leaving(g2, {g2.init}) && p in m && t.dst in m && u == Trans(m[p], t.lab, m[t.dst]);
      LiveLocation(g1, g2, h2, m2, lo, h, m, hi, k1, p);
    }
  }

  lemma ConcatSinkOk(g1: Nfa, g2: Nfa, h2: Nfa, m2: LocHash, lo: nat, h: Nfa, m: LocHash, hi: nat, k1: set<Loc>)
    requires ConcatDone(g1, g2, h2, m2, lo, h, m, hi, k1) && SinkOk(g1)
    ensures SinkOk(h)
  {
    forall u | u in h.trans && h.sink == Some(u.src) ensures u.dst == u.src {
      if u !in h2.trans {
        AddedSources(g1, g2, h2, m2, lo, h, m, hi, k1, u);
      }
    }
  }

  lemma SecondIsPart(g1: Nfa, g2: Nfa, h2: Nfa, m2: LocHash, lo: nat, h: Nfa, m: LocHash, hi: nat, k1: set<Loc>)
    requires ConcatDone(g1, g2, h2, m2, lo, h, m, hi, k1) && SinkOk(g1)
    requires PartOf(g2, h2, m2, m2.Keys - {g1.init})
    requires forall k :: k in m2 && k != g1.init ==> m2[k] != h2.init
    ensures PartOf(g2, h, m, m2.Keys - {g1.init})
  {
    var k2 := m2.Keys - {g1.init};
    ConcatSinkOk(g1, g2, h2, m2, lo, h, m, hi, k1);
    forall p, u | p in k2 && u in h.trans && u.src == m[p] && h.sink != Some(m[p])
      ensures HasOrigin(g2, m, p, u)
    {
      if u !in h2.trans {
        AddedSources(g1, g2, h2, m2, lo, h, m, hi, k1, u);
      }
      assert HasOrigin(g2, m2, p, u);
    }
  }

  lemma LiveIsNew(g1: Nfa, g2: Nfa, h2: Nfa, m2: LocHash, lo: nat, h: Nfa, m: LocHash, hi: nat, k1: set<Loc>, p: Loc, u: Trans)
    requires ConcatDone(g1, g2, h2, m2, lo, h, m, hi, k1) && SinkOk(g1) && p in Live(g1, k1)
    requires (forall t :: t in h2.trans ==> t.src != h2.init) && p in m && u.src == m[p]
    ensures u !in h2.trans
  {
    LiveLocation(g1, g2, h2, m2, lo, h, m, hi, k1, p);
  }

  lemma ConcatOrigins(g1: Nfa, g2: Nfa, h2: Nfa, m2: LocHash, lo: nat, h: Nfa, m: LocHash, hi: nat, k1: set<Loc>, p: Loc, u: Trans)
    requires ConcatDone(g1, g2, h2, m2, lo, h, m, hi, k1) && SinkOk(g1)
    requires forall t :: t in h2.trans ==> t.src != h2.init
    requires forall t :: t in Leaving(g2, {g2.init}) ==> t.dst in m2.Keys - {g1.init}
    requires p in Live(g1, k1) && u in h.trans && u.src == m[p]
    requires forall t :: t in g1.trans && t.src in Live(g1, k1) ==> t.dst in k1
    ensures HasOrigin(g1, Restricted(m, k1), p, u) || IsBridge(g1, g2, m2.Keys - {g1.init}, m, p, u)
  {
    LiveIsNew(g1, g2, h2, m2, lo, h, m, hi, k1, p, u);
    LiveLocation(g1, g2, h2, m2, lo, h, m, hi, k1, p);
    hide ConcatDone, Live;
    AddedTrans(g1, g2, h2, m2, lo, h, m, hi, k1, u);
    var x := Live(g1, k1);
    if u in Image(Leaving(g1, x), m) {
      var t :| t in Leaving(g1, x) && t.src in m && t.dst in m && u == Trans(m[t.src], t.lab, m[t.dst]);
      assert t.src == p && t.dst in Restricted(m, k1);
    } else {
      var p', t :| p' in x * g1.final && t in Leaving(g2, {g2.init}) && p' in m && t.dst in m && u == Trans(m[p'], t.lab, m[t.dst]);
      assert p' == p;
    }
  }

  lemma CopiesMakeConcat(g1: Nfa, g2: Nfa, h2: Nfa, m2: LocHash, lo: nat, h: Nfa, m: LocHash, hi: nat, k1: set<Loc>)
    requires ConcatDone(g1, g2, h2, m2, lo, h, m, hi, k1) && SinkOk(g1) && Closed(g1)
    requires PartOf(g2, h2, m2, m2.Keys - {g1.init})
    requires forall t :: t in h2.trans ==> t.src != h2.init
    requires forall k :: k in m2 && k != g1.init ==> m2[k] != h2.init
    requires forall t :: t in Leaving(g2, {g2.init}) ==> t.dst in m2.Keys - {g1.init}
    ensures IsConcat(g1, k1, g2, m2.Keys - {g1.init}, h, m) && SinkOk(h)
    ensures LabelsSat(g1) && LabelsSat(g2) && LabelsSat(h2) ==> LabelsSat(h)
  {
    var k2 := m2.Keys - {g1.init};
    SecondIsPart(g1, g2, h2, m2, lo, h, m, hi, k1);
    forall t | t in Leaving(g1, Live(g1, k1)) ensures t.dst in k1 && Trans(m[t.src], t.lab, m[t.dst]) in h.trans {
      assert Trans(m[t.src], t.lab, m[t.dst]) in Image(Leaving(g1, Live(g1, k1)), m);
    }
    forall p, t | p in k1 && p in g1.final && t in g2.trans && t.src == g2.init
      ensures t.dst in k2 && Trans(m[p], t.lab, m[t.dst]) in h.trans
    {
      assert t in Leaving(g2, {g2.init}) && p in Live(g1, k1);
      assert Trans(m[p], t.lab, m[t.dst]) in Bridges(Live(g1, k1) * g1.final, Leaving(g2, {g2.init}), m);
    }
    forall p, u | p in Live(g1, k1) && u in h.trans && u.src == m[p]
      ensures HasOrigin(g1, Restricted(m, k1), p, u) || IsBridge(g1, g2, k2, m, p, u)
    {
      ConcatOrigins(g1, g2, h2, m2, lo, h, m, hi, k1, p, u);
    }
  }
}

module Concats {
  import opened BoolExpr
  import opened Alphabet
  import opened Nfas
  import opened Automata
  import opened CopyGraphs
  import opened Copying
  import opened Parts
  import opened ConcatLanguage

  /** The transitions of the initial location of the second operand leave a final location of the first. */
  method BuildBridges(manager: AutomataManager, res: Automaton, hash: LocHash, a1: Automaton, a2: Automaton, s: Loc)
    requires Ready(manager, res, hash, a1) && s in hash && a2.Valid() && a2 != res
    requires forall t :: t in Leaving(a2.Graph(), {a2.initial}) ==> t.dst in hash
    modifies res
    ensures Ready(manager, res, hash, a1)
    ensures res.Graph() == old(res.Graph()).(trans := res.Graph().trans)
    ensures res.Graph().trans == old(res.Graph()).trans + Bridges({s}, Leaving(a2.Graph(), {a2.initial}), hash)
  {
    hide Ready, Bridges, TransOf, SetOf, FinalOf, Closed;
    ghost var h, c := res.Graph(), Leaving(a2.Graph(), {a2.initial});
    InitialOf(a2);
    BridgesNone(s, hash);
    var ts := a2.loc[a2.initial].transitions;
    var i := 0;
    while i < |ts|
      invariant 0 <= i <= |ts|
      invariant Ready(manager, res, hash, a1)
      invariant res.Graph() == h.(trans := res.Graph().trans)
      invariant res.Graph().trans == h.trans + Bridges({s}, TransFrom(a2.initial, ts[..i]), hash)
    {
      NextOf(a2, i);
      ReadyAt(manager, res, hash, a1, s);
      ReadyAt(manager, res, hash, a1, ts[i].end);
      BridgesNext(s, TransFrom(a2.initial, ts[..i]), Trans(a2.initial, ts[i].lab, ts[i].end), hash);
      AddTransition(manager, res, hash, a1, hash[s], hash[ts[i].end], ts[i].lab);
      i := i + 1;
    }
  }

  /** The body of the concatenation loop: one location of the first operand. */
  method ConcatLocation(manager: AutomataManager, res: Automaton, hash: LocHash, a1: Automaton, a2: Automaton, s: Loc, stack: seq<Loc>,
                        ghost h2: Nfa, ghost m2: LocHash, ghost lo: nat, ghost visited: set<Loc>)
    returns (hash': LocHash, stack': seq<Loc>)
    requires Ready(manager, res, hash, a1) && a2.Valid() && a2 != res && SinkOk(a1.Graph())
    requires ConcatTarget(a1.Graph(), h2, m2, lo)
    requires s in a1.loc && s in hash && s !in visited
    requires Shape(a1.Graph(), h2, m2, lo, res.Graph(), hash, manager.nextLoc)
    requires Frontier(a1.Graph(), m2, hash, a1.initial, visited + {s}, stack)
    requires Joined(a1.Graph(), a2.Graph(), h2, res.Graph(), hash, visited)
    requires Flags(a1.Graph(), a2.Graph(), h2, m2, res.Graph(), hash, visited)
    modifies res, manager
    ensures Ready(manager, res, hash', a1)
    ensures Shape(a1.Graph(), h2, m2, lo, res.Graph(), hash', manager.nextLoc)
    ensures Frontier(a1.Graph(), m2, hash', a1.initial, visited + {s}, stack')
    ensures Joined(a1.Graph(), a2.Graph(), h2, res.Graph(), hash', visited + {s})
    ensures Flags(a1.Graph(), a2.Graph(), h2, m2, res.Graph(), hash', visited + {s})
  {
    hide *;
    ghost var g1, g2 := a1.Graph(), a2.Graph();
    hash', stack' := hash, stack;
    ReadyUnpack(manager, res, hash, a1);
    ValidUnpack(a2);
    SinkIsMapped(g1, h2, m2, lo, res.Graph(), hash, manager.nextLoc, s);
    if res.sink != Some(hash[s]) {
      var f := a1.loc[s].final && a2.loc[a2.initial].final;
      FlagsSet(g1, g2, h2, m2, lo, res.Graph(), hash, manager.nextLoc, visited, s, f);
      JoinedIgnoresFlags(g1, g2, h2, res.Graph(), hash, visited, hash[s], f);
      FlagLocation(manager, res, hash, a1, hash[s], f);
      ghost var h1, mid := res.Graph(), manager.nextLoc;
      hash', stack' := CopyOutgoing(manager, res, hash, a1, s, stack, m2, a1.initial, visited);
      ExtendsKeeps(g1, h1, hash, mid, res.Graph(), hash', manager.nextLoc);
      JoinedFacts(g1, g2, h2, h1, hash, visited);
      FlagsKept(g1, g2, h2, m2, lo, h1, hash, mid, res.Graph(), hash', manager.nextLoc, visited + {s});
      ghost var hc := res.Graph();
      if a1.loc[s].final {
        BuildBridges(manager, res, hash', a1, a2, s);
      }
      FlagsIgnoreTrans(g1, g2, h2, m2, lo, hc, hash', manager.nextLoc, visited + {s}, res.Graph());
      assert s !in g1.final ==> hc.trans + {} == hc.trans;
      JoinedStep(g1, g2, h2, h1, hash, hc, res.Graph(), hash', visited, s);
    } else {
      JoinedSink(g1, g2, h2, m2, res.Graph(), hash, visited, s);
    }
  }

  method Concat(manager: AutomataManager, a1: Automaton, a2: Automaton) returns (res: Automaton)
    requires a1.Usable(manager) && a2.Usable(manager) && a1.loc.Keys !! a2.loc.Keys
    modifies manager
    ensures fresh(res) && res.Usable(manager) && old(manager.nextLoc) <= manager.nextLoc
    ensures forall l :: l in res.loc ==> old(manager.nextLoc) <= l
    ensures Lang(res.Graph()) == Cat(Lang(a1.Graph()), Lang(a2.Graph()))
    ensures Returns(res.Graph()) == Returns(a1.Graph())
    ensures LabelsSat(a1.Graph()) && LabelsSat(a2.Graph()) ==> LabelsSat(res.Graph())
  {
    hide *;
    UsableUnpack(manager, a1);
    UsableUnpack(manager, a2);
    ghost var g1, g2 := a1.Graph(), a2.Graph();
    res := NewResult(manager, a1.loc[a1.initial].final);
    ghost var r, lo0 := res.initial, manager.nextLoc;
    var hash: LocHash := map[a1.initial := res.initial];
    ghost var m0 := hash;
    ReadyForSecond(manager, res, a2, a1.initial, a1.loc[a1.initial].final);
    hash := CopyFromInitialLoc(manager, res, a2, hash, true);
    ghost var h2, m2, lo := res.Graph(), hash, manager.nextLoc;
    ReadyUnpack(manager, res, hash, a2);
    SecondCopied(g1, g2, r, lo0, h2, m2, lo);
    ReadyForFirst(manager, res, hash, a1, a2);
    JoinedStart(g1, g2, h2, m2, lo);
    FrontierFrom(g1, m2, a1.initial);
    var stack := [a1.initial];
    ghost var visited: set<Loc> := {};
    while stack != []
      invariant Ready(manager, res, hash, a1)
      invariant Shape(g1, h2, m2, lo, res.Graph(), hash, manager.nextLoc)
      invariant Frontier(g1, m2, hash, a1.initial, visited, stack)
      invariant Joined(g1, g2, h2, res.Graph(), hash, visited)
      invariant Flags(g1, g2, h2, m2, res.Graph(), hash, visited)
      decreases g1.locs - visited
    {
      FrontierPop(g1, m2, hash, a1.initial, visited, stack);
      var s := stack[0];
      hash, stack := ConcatLocation(manager, res, hash, a1, a2, s, stack[1..], h2, m2, lo, visited);
      visited := visited + {s};
    }
    FrontierDone(g1, m2, hash, a1.initial, visited);
    ReadyUnpack(manager, res, hash, a1);
    ConcatDonePack(g1, g2, h2, m2, lo, res.Graph(), hash, manager.nextLoc, visited);
    CopiesMakeConcat(g1, g2, h2, m2, lo, res.Graph(), hash, manager.nextLoc, visited);
    ConcatMeans(g1, visited, g2, m2.Keys - {g1.init}, res.Graph(), hash);
    UsablePack(manager, res);
  }
}
