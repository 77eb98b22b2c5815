/** Pruning the locations that cannot reach a final location: the copy. */
module AcceptingLanguage {
  import opened BoolExpr
  import opened Alphabet
  import opened Nfas
  import opened Automata
  import opened CopyGraphs
  import opened Parts
  import opened AcceptingSearch

  /** The marks tell exactly the locations that lie on a path from the initial location to a final one. */
  ghost predicate Exact(g: Nfa, marks: set<Loc>) {
    forall l :: l in marks <==> Connected(g, g.init, l) && CanAccept(g, l)
  }

  /** The automaton without the transitions into unmarked locations. */
  ghost function Kept(g: Nfa, marks: set<Loc>): Nfa {
    g.(trans := Into(g.trans, marks))
  }

  ghost function Into(c: set<Trans>, marks: set<Loc>): set<Trans> {
    set t | t in c && t.dst in marks
  }

  lemma IntoNext(c: set<Trans>, t: Trans, marks: set<Loc>)
    ensures Into(c + {t}, marks) == Into(c, marks) + if t.dst in marks then {t} else {}
    ensures Into({}, marks) == {}
  {
  }

  lemma KeptLeaving(a: Automaton, marks: set<Loc>, visited: set<Loc>, l: Loc)
    requires a.Valid() && l in a.loc
    ensures var gk, ts := Kept(a.Graph(), marks), a.loc[l].transitions;
            && Leaving(gk, visited + {l}) == Leaving(gk, visited) + Into(TransFrom(l, ts), marks)
            && Leaving(gk, visited) + Into(TransFrom(l, ts[..0]), marks) == Leaving(gk, visited)
            && ts[..|ts|] == ts
  {
    var g, gk, ts := a.Graph(), Kept(a.Graph(), marks), a.loc[l].transitions;
    LeavingOne(a, l);
    LeavingKept(g, marks, {l});
    LeavingPlus(gk, visited, {l});
    assert TransFrom(l, ts[..0]) == {};
    IntoNext({}, Trans(l, True, l), marks);
  }

  lemma LeavingKept(g: Nfa, marks: set<Loc>, x: set<Loc>)
    ensures Leaving(Kept(g, marks), x) == Into(Leaving(g, x), marks)
  {
  }

  lemma KeptNext(a: Automaton, marks: set<Loc>, l: Loc, i: nat, c: set<Trans>)
    requires a.Valid() && l in a.loc && i < |a.loc[l].transitions|
    ensures var ts := a.loc[l].transitions;
            var t := Trans(l, ts[i].lab, ts[i].end);
            && t.dst in a.loc && t.dst in a.Graph().locs
            && (t.dst in marks ==> t in Kept(a.Graph(), marks).trans)
            && c + Into(TransFrom(l, ts[..i + 1]), marks) ==
               c + Into(TransFrom(l, ts[..i]), marks) + if t.dst in marks then {t} else {}
  {
    var ts := a.loc[l].transitions;
    var t := Trans(l, ts[i].lab, ts[i].end);
    InGraph(a, l, i);
    TransFromNext(l, ts, i);
    IntoNext(TransFrom(l, ts[..i]), t, marks);
  }

  /** Copying does not look at the transitions of the source. */
  lemma ExtendsKept(g: Nfa, marks: set<Loc>, h0: Nfa, m0: LocHash, lo: nat, h: Nfa, m: LocHash, hi: nat)
    ensures Extends(Kept(g, marks), h0, m0, lo, h, m, hi) <==> Extends(g, h0, m0, lo, h, m, hi)
  {
  }

  // ----- What the pruned automaton accepts

  lemma {:induction false} AcceptsConnects(g: Nfa, p: Loc, w: Word)
    requires Accepts(g, p, w)
    ensures CanAccept(g, p)
    decreases |w|
  {
    if w == [] {
      ConnectedSelf(g, p);
    } else {
      var q :| Step(g, p, w[0], q) && Accepts(g, q, w[1..]);
      AcceptsConnects(g, q, w[1..]);
      var t :| t in g.trans && t.src == p && t.dst == q && Holds(t.lab, w[0]);
      CanAcceptBack(g, t);
    }
  }

  lemma {:induction false} PathAccepts(g: Nfa, p: Loc, n: nat, q: Loc) returns (w: Word)
    requires LabelsSat(g) && PathN(g, p, n, q)
    ensures Run(g, p, w, q)
    decreases n
  {
    w := [];
    if n > 0 {
      var t :| t in g.trans && t.dst == q && PathN(g, p, n - 1, t.src);
      var v := PathAccepts(g, p, n - 1, t.src);
      var a: Letter :| Holds(t.lab, a);
      RunStep(g, p, v, t.src, a, q);
      w := v + [a];
    }
  }

  /** When every label is satisfiable, the graph alone tells whether anything is accepted. */
  lemma EmptyIffCannotAccept(g: Nfa)
    requires LabelsSat(g)
    ensures Lang(g) == iset{} <==> !CanAccept(g, g.init)
  {
    if CanAccept(g, g.init) {
      var f :| f in g.final && Connected(g, g.init, f);
      var n: nat :| PathN(g, g.init, n, f);
      var w := PathAccepts(g, g.init, n, f);
      AcceptsIsRun(g, g.init, w);
      assert w in Lang(g);
    } else {
      forall w ensures w !in Lang(g) {
        if w in Lang(g) {
          AcceptsConnects(g, g.init, w);
        }
      }
    }
  }

  /** Whatever the labels, nothing is accepted if no final location can be reached. */
  lemma CannotAcceptEmpty(g: Nfa)
    ensures !CanAccept(g, g.init) ==> Lang(g) == iset{}
  {
    forall w ensures w in Lang(g) ==> CanAccept(g, g.init) {
      if w in Lang(g) {
        AcceptsConnects(g, g.init, w);
      }
    }
  }

  // ----- Unsatisfiable labels

  /** The automaton without the transitions that no letter admits. */
  ghost function SatPart(g: Nfa): Nfa {
    g.(trans := set t | t in g.trans && IsSat(t.lab))
  }

  lemma SatPartStep(g: Nfa, p: Loc, a: Letter, q: Loc)
    ensures Step(SatPart(g), p, a, q) <==> Step(g, p, a, q)
  {
    if Step(g, p, a, q) {
      var t :| t in g.trans && t.src == p && t.dst == q && Holds(t.lab, a);
      HoldsIsSat(t.lab, a);
      assert t in SatPart(g).trans;
    }
  }

  lemma {:induction false} SatPartAccepts(g: Nfa, p: Loc, w: Word)
    ensures Accepts(SatPart(g), p, w) <==> Accepts(g, p, w)
    decreases |w|
  {
    hide SatPart, Step;
    assert SatPart(g).final == g.final by { SatPartFinal(g); }
    if w != [] {
      forall q ensures Step(SatPart(g), p, w[0], q) <==> Step(g, p, w[0], q) {
        SatPartStep(g, p, w[0], q);
      }
      forall q ensures Accepts(SatPart(g), q, w[1..]) <==> Accepts(g, q, w[1..]) {
        SatPartAccepts(g, q, w[1..]);
      }
    }
  }

  lemma SatPartFinal(g: Nfa)
    ensures SatPart(g).final == g.final && SatPart(g).init == g.init && LabelsSat(SatPart(g))
  {
  }

  /** Looking at the graph alone is exact exactly if a final location that can be reached can also be
      reached without the unsatisfiable labels. */
  lemma GraphEmptinessExact(g: Nfa)
    ensures (Lang(g) == iset{} <==> !CanAccept(g, g.init)) <==> (CanAccept(g, g.init) ==> CanAccept(SatPart(g), g.init))
  {
    SatPartFinal(g);
    hide SatPart;
    forall w ensures w in Lang(SatPart(g)) <==> w in Lang(g) {
      SatPartAccepts(g, g.init, w);
    }
    assert Lang(SatPart(g)) == Lang(g);
    EmptyIffCannotAccept(SatPart(g));
    if Lang(g) != iset{} {
      var w :| w in Lang(g);
      AcceptsConnects(g, g.init, w);
    }
  }

  /** The complement of what accepts every word, as the transitions step builds it: the label of the edge
      to the accepting location 2 is the negation of "true".  It accepts nothing, and still a final
      location is found. */
  lemma ComplementOfEverything()
    ensures var edges := {Trans(0, True, 1), Trans(0, Not(True), 2), Trans(1, True, 1), Trans(1, Not(True), 2), Trans(2, True, 2)};
            var g := Nfa(0, {0, 1, 2}, {2}, edges, None);
            Closed(g) && Lang(g) == iset{} && CanAccept(g, g.init)
  {
    var edges := {Trans(0, True, 1), Trans(0, Not(True), 2), Trans(1, True, 1), Trans(1, Not(True), 2), Trans(2, True, 2)};
    var g := Nfa(0, {0, 1, 2}, {2}, edges, None);
    ConnectedSelf(g, 0);
    ConnectedStep(g, 0, Trans(0, Not(True), 2));
    forall p, w | p in {0, 1} ensures !Accepts(g, p, w) {
      RejectsOutside(g, {0, 1}, p, w);
    }
  }

  /** Locations that are not final and that no letter leaves for another one accept nothing. */
  lemma {:induction false} RejectsOutside(g: Nfa, s: set<Loc>, p: Loc, w: Word)
    requires p in s && s !! g.final
    requires forall t: Trans, a: Letter :: t in g.trans && t.src in s && Holds(t.lab, a) ==> t.dst in s
    ensures !Accepts(g, p, w)
    decreases |w|
  {
    if w != [] {
      forall q | Step(g, p, w[0], q) ensures !Accepts(g, q, w[1..]) {
        RejectsOutside(g, s, q, w[1..]);
      }
    }
  }

  /** A sink cannot reach a final location. */
  lemma SinkCannotAccept(g: Nfa)
    requires SinkOk(g) && g.sink.Some?
    ensures !CanAccept(g, g.sink.value)
  {
    if CanAccept(g, g.sink.value) {
      var f :| f in g.final && Connected(g, g.sink.value, f);
      var n: nat :| PathN(g, g.sink.value, n, f);
      SinkPath(g, n, f);
    }
  }

  lemma {:induction false} SinkPath(g: Nfa, n: nat, q: Loc)
    requires SinkOk(g) && g.sink.Some? && PathN(g, g.sink.value, n, q)
    ensures q == g.sink.value
    decreases n
  {
    if n > 0 {
      var t :| t in g.trans && t.dst == q && PathN(g, g.sink.value, n - 1, t.src);
      SinkPath(g, n - 1, t.src);
    }
  }

  /** Transitions into unmarked locations lead nowhere. */
  lemma KeptSimulates(g: Nfa, marks: set<Loc>, final: set<Loc>)
    requires Exact(g, marks)
    requires forall f :: f in final ==> CanAccept(g, f)
    ensures var h := g.(final := final);
            Simulates(h, Kept(g, marks).(final := final), map l | l in marks :: l)
  {
    var h, k, m := g.(final := final), Kept(g, marks).(final := final), map l | l in marks :: l;
    forall p, a, q | p in m && Step(h, p, a, q)
      ensures Dead(h, q) || (q in m && Step(k, p, a, q))
    {
      var t :| t in g.trans && t.src == p && t.dst == q && Holds(t.lab, a);
      if q in marks {
        assert t in k.trans;
      } else {
        ConnectedStep(g, g.init, t);
        forall w ensures !Accepts(h, q, w) {
          if Accepts(h, q, w) {
            AcceptsThrough(g, final, q, w);
          }
        }
      }
    }
    forall p, a, r | p in m && Step(k, p, a, r)
      ensures exists q :: q in m && m[q] == r && Step(h, p, a, q)
    {
      var t :| t in k.trans && t.src == p && t.dst == r && Holds(t.lab, a);
      assert r in m && Step(h, p, a, r);
    }
  }

  lemma {:induction false} AcceptsThrough(g: Nfa, final: set<Loc>, p: Loc, w: Word)
    requires forall f :: f in final ==> CanAccept(g, f)
    requires Accepts(g.(final := final), p, w)
    ensures CanAccept(g, p)
    decreases |w|
  {
    var h := g.(final := final);
    if w != [] {
      var q :| Step(h, p, w[0], q) && Accepts(h, q, w[1..]);
      AcceptsThrough(g, final, q, w[1..]);
      var t :| t in g.trans && t.src == p && t.dst == q && Holds(t.lab, w[0]);
      CanAcceptBack(g, t);
    }
  }

  /** If the initial location is marked, removing the transitions into unmarked locations keeps the
      language and the words that return to the initial location. */
  lemma KeptMeans(g: Nfa, marks: set<Loc>)
    requires Exact(g, marks) && g.init in marks
    ensures Lang(Kept(g, marks)) == Lang(g) && Returns(Kept(g, marks)) == Returns(g)
  {
    hide Accepts, Simulates, Into, Connected, Exact;
    var m := map l | l in marks :: l;
    assert g.(final := g.final) == g && Kept(g, marks).(final := g.final) == Kept(g, marks);
    forall f | f in g.final ensures CanAccept(g, f) {
      ConnectedSelf(g, f);
    }
    ExactInitial(g, marks);
    KeptSimulates(g, marks, g.final);
    forall w ensures w in Lang(g) <==> w in Lang(Kept(g, marks)) {
      SimulationAccepts(g, Kept(g, marks), m, g.init, w);
    }
    KeptSimulates(g, marks, {g.init});
    forall w ensures w in Returns(g) <==> w in Returns(Kept(g, marks)) {
      SimulationAccepts(Rooted(g), Rooted(Kept(g, marks)), m, g.init, w);
    }
  }

  /** The state of the copying loop when nothing is left to copy. */
  ghost predicate AcceptingCopied(g: Nfa, marks: set<Loc>, r: Loc, lo: nat, h: Nfa, m: LocHash, hi: nat) {
    var gk, h0, m0: LocHash := Kept(g, marks), Single(r, g.init in g.final), map[g.init := r];
    && r < lo && g.init in marks
    && Extends(gk, h0, m0, lo, h, m, hi)
    && Copied(gk, h0, h, m, Leaving(gk, m.Keys))
    && forall l :: l in m ==> Connected(gk, g.init, l)
  }

  lemma AcceptingCopiedPack(g: Nfa, marks: set<Loc>, r: Loc, lo: nat, h0: Nfa, m0: LocHash, h: Nfa, m: LocHash, hi: nat, visited: set<Loc>)
    requires r < lo && g.init in marks && h0 == Single(r, g.init in g.final) && m0 == map[g.init := r]
    requires Extends(Kept(g, marks), h0, m0, lo, h, m, hi)
    requires Copied(Kept(g, marks), h0, h, m, Leaving(Kept(g, marks), visited))
    requires visited == (m.Keys - m0.Keys) + {g.init} && g.init in m
    requires forall l :: l in visited ==> Connected(Kept(g, marks), g.init, l)
    ensures AcceptingCopied(g, marks, r, lo, h, m, hi)
    ensures forall l :: l in h.locs ==> r <= l
  {
    assert visited == m.Keys;
  }

  lemma ConnectedMarked(g: Nfa, marks: set<Loc>, l: Loc)
    requires g.init in marks && Connected(Kept(g, marks), g.init, l)
    ensures l in marks
  {
    var n: nat :| PathN(Kept(g, marks), g.init, n, l);
    if n > 0 {
      var t :| t in Kept(g, marks).trans && t.dst == l && PathN(Kept(g, marks), g.init, n - 1, t.src);
    }
  }

  lemma AcceptingIsCopy(g: Nfa, marks: set<Loc>, r: Loc, lo: nat, h: Nfa, m: LocHash, hi: nat)
    requires Closed(g) && SinkOk(g) && Exact(g, marks) && AcceptingCopied(g, marks, r, lo, h, m, hi)
    ensures IsCopy(Kept(g, marks), h, m) && h.sink.None?
  {
    if g.sink.Some? {
      SinkCannotAccept(g);
      if g.sink.value in m {
        ConnectedMarked(g, marks, g.sink.value);
      }
    }
  }

  /** In the copy, the path to a final location is copied as well. */
  lemma {:induction false} PathCopied(g: Nfa, marks: set<Loc>, h: Nfa, m: LocHash, p: Loc, n: nat, q: Loc)
    requires Exact(g, marks) && IsCopy(Kept(g, marks), h, m)
    requires p in m && p in marks && PathN(g, p, n, q) && CanAccept(g, q)
    ensures q in m && q in marks && PathN(h, m[p], n, m[q])
    decreases n
  {
    if n > 0 {
      var t :| t in g.trans && t.dst == q && PathN(g, p, n - 1, t.src);
      CanAcceptBack(g, t);
      PathCopied(g, marks, h, m, p, n - 1, t.src);
      ConnectedStep(g, g.init, t);
      assert t in Leaving(Kept(g, marks), m.Keys);
      assert Trans(m[t.src], t.lab, m[q]) in h.trans;
    }
  }

  /** Every transition of the result leads to a location that can reach a final one. */
  ghost predicate Trim(h: Nfa) {
    forall t :: t in h.trans ==> CanAccept(h, t.dst)
  }

  lemma CopyIsTrim(g: Nfa, marks: set<Loc>, h: Nfa, m: LocHash)
    requires Exact(g, marks) && IsCopy(Kept(g, marks), h, m)
    ensures Trim(h)
  {
    var gk := Kept(g, marks);
    forall u | u in h.trans ensures CanAccept(h, u.dst) {
      var t :| t in Leaving(gk, m.Keys) && t.src in m && t.dst in m && u == Trans(m[t.src], t.lab, m[t.dst]);
      var f :| f in g.final && Connected(g, t.dst, f);
      var n: nat :| PathN(g, t.dst, n, f);
      ConnectedSelf(g, f);
      PathCopied(g, marks, h, m, t.dst, n, f);
      assert Connected(h, u.dst, m[f]);
    }
  }

  /** Pruning keeps the language.  It keeps what returns to the initial location unless nothing is accepted. */
  lemma AcceptingMeans(g: Nfa, marks: set<Loc>, r: Loc, lo: nat, h: Nfa, m: LocHash, hi: nat)
    requires Closed(g) && SinkOk(g) && Exact(g, marks) && AcceptingCopied(g, marks, r, lo, h, m, hi)
    ensures Lang(h) == Lang(g) && Returns(h) == Returns(g)
    ensures h.sink.None? && Trim(h)
    ensures NoReturn(g) ==> NoReturn(h)
    ensures LabelsSat(g) ==> LabelsSat(h)
  {
    AcceptingIsCopy(g, marks, r, lo, h, m, hi);
    IsCopyMeans(Kept(g, marks), h, m);
    KeptMeans(g, marks);
    CopyIsTrim(g, marks, h, m);
  }

  /** If nothing can be accepted, a single location is enough. */
  lemma NothingAccepted(g: Nfa, marks: set<Loc>, h: Nfa)
    requires Exact(g, marks) && g.init !in marks && h == Single(h.init, g.init in g.final)
    ensures Lang(h) == Lang(g) && Returns(h) == iset{[]} && !CanAccept(g, g.init)
    ensures h.sink.None? && Trim(h) && NoReturn(h) && LabelsSat(h) && SinkOk(h)
  {
    ConnectedSelf(g, g.init);
    forall w ensures w !in Lang(g) && w !in Lang(h) {
      if w in Lang(g) {
        AcceptsConnects(g, g.init, w);
      }
    }
    NoReturnReturns(h);
  }

  lemma MarksOf(a: Automaton, reach: array<bool>)
    requires a.Valid() && reach.Length == a.locationCount && Ids(a.loc, a.locationCount)
    requires forall l :: l in a.loc ==>
               (reach[a.loc[l].id - 1] <==> Connected(a.Graph(), a.initial, l) && CanAccept(a.Graph(), l))
    ensures Exact(a.Graph(), SetIn(a.loc, reach[..]))
  {
    var g := a.Graph();
    forall l | Connected(g, g.init, l) ensures l in a.loc {
      var n: nat :| PathN(g, g.init, n, l);
    }
  }

  lemma MarkAt(a: Automaton, reach: array<bool>, l: Loc)
    requires l in a.loc && reach.Length == a.locationCount && Ids(a.loc, a.locationCount)
    ensures 0 <= a.loc[l].id - 1 < reach.Length
    ensures reach[a.loc[l].id - 1] <==> l in SetIn(a.loc, reach[..])
  {
  }

  lemma KeptFields(g: Nfa, marks: set<Loc>)
    ensures Kept(g, marks).init == g.init && Kept(g, marks).locs == g.locs && Kept(g, marks).sink == g.sink
  {
  }

  lemma SinkOkNotFinal(g: Nfa)
    requires SinkOk(g)
    ensures SinkNotFinal(g)
  {
  }

  lemma CopiedNothing(g: Nfa, h: Nfa, m: LocHash)
    ensures Copied(g, h, h, m, Leaving(g, {}))
  {
  }

  lemma ExactInitial(g: Nfa, marks: set<Loc>)
    requires Exact(g, marks)
    ensures g.init in marks <==> CanAccept(g, g.init)
  {
    ConnectedSelf(g, g.init);
  }

  lemma SinkNone(h: Nfa)
    requires h.sink.None?
    ensures SinkOk(h)
  {
  }
}

module Accepting {
  import opened BoolExpr
  import opened Alphabet
  import opened Nfas
  import opened Automata
  import opened CopyGraphs
  import opened Copying
  import opened AcceptingSearch
  import opened AcceptingMarks
  import opened AcceptingLanguage

  /** The body of the copying loop: the transitions of one location that lead to marked locations. */
  method CopyAcceptingOutgoing(manager: AutomataManager, res: Automaton, hash: LocHash, a: Automaton, reach: array<bool>,
                               s1: Loc, stack: seq<Loc>, ghost marks: set<Loc>,
                               ghost h0: Nfa, ghost m0: LocHash, ghost lo: nat, ghost visited: set<Loc>)
    returns (hash': LocHash, stack': seq<Loc>)
    requires Ready(manager, res, hash, a) && reach.Length == a.locationCount && Ids(a.loc, a.locationCount)
    requires marks == SetIn(a.loc, reach[..])
    requires s1 in a.loc && s1 in hash && s1 !in visited
    requires (forall l :: l in h0.locs ==> l < lo) && h0.sink.None?
    requires Extends(Kept(a.Graph(), marks), h0, m0, lo, res.Graph(), hash, manager.nextLoc)
    requires Frontier(Kept(a.Graph(), marks), m0, hash, a.initial, visited + {s1}, stack)
    requires Copied(Kept(a.Graph(), marks), h0, res.Graph(), hash, Leaving(Kept(a.Graph(), marks), visited))
    modifies res, manager
    ensures Ready(manager, res, hash', a)
    ensures Extends(Kept(a.Graph(), marks), h0, m0, lo, res.Graph(), hash', manager.nextLoc)
    ensures Frontier(Kept(a.Graph(), marks), m0, hash', a.initial, visited + {s1}, stack')
    ensures Copied(Kept(a.Graph(), marks), h0, res.Graph(), hash', Leaving(Kept(a.Graph(), marks), visited + {s1}))
  {
    hide *;
    ReadyUnpack(manager, res, hash, a);
    hash', stack' := hash, stack;
    var ts := a.loc[s1].transitions;
    ghost var g, gk, start := a.Graph(), Kept(a.Graph(), marks), a.initial;
    ghost var before := Leaving(gk, visited);
    KeptLeaving(a, marks, visited, s1);
    KeptFields(g, marks);
    var i := 0;
    while i < |ts|
      invariant 0 <= i <= |ts|
      invariant Ready(manager, res, hash', a) && s1 in hash'
      invariant a.Graph() == g && a.loc == old(a.loc) && a.initial == start && a.locationCount == old(a.locationCount)
      invariant Extends(gk, h0, m0, lo, res.Graph(), hash', manager.nextLoc)
      invariant Frontier(gk, m0, hash', start, visited + {s1}, stack')
      invariant Copied(gk, h0, res.Graph(), hash', before + Into(TransFrom(s1, ts[..i]), marks))
    {
      ghost var h1, m1, mid, stack1 := res.Graph(), hash', manager.nextLoc, stack';
      ghost var t, c := Trans(s1, ts[i].lab, ts[i].end), before + Into(TransFrom(s1, ts[..i]), marks);
      ReadyUnpack(manager, res, hash', a);
      KeptNext(a, marks, s1, i, before);
      MarkAt(a, reach, ts[i].end);
      if reach[a.loc[ts[i].end].id - 1] {
        hash', stack' := CopyTransitionToLoc(manager, res, hash'[s1], a, ts[i], hash', stack');
        ExtendsKept(g, marks, h1, m1, mid, res.Graph(), hash', manager.nextLoc);
        CopyStep(gk, h0, m0, lo, h1, m1, mid, res.Graph(), hash', manager.nextLoc, m0, start, visited + {s1}, stack1, stack', t);
        CopiedStep(gk, h0, h1, m1, res.Graph(), hash', c, t);
      } else {
        assert c + {} == c;
      }
      i := i + 1;
    }
  }

  method CopyAcceptingLoc(manager: AutomataManager, a: Automaton, reach: array<bool>, ghost marks: set<Loc>) returns (res: Automaton)
    requires a.Valid() && SinkOk(a.Graph()) && reach.Length == a.locationCount && Ids(a.loc, a.locationCount)
    requires marks == SetIn(a.loc, reach[..]) && Exact(a.Graph(), marks)
    modifies manager
    ensures fresh(res) && res.Usable(manager) && old(manager.nextLoc) <= manager.nextLoc
    ensures forall l :: l in res.loc ==> old(manager.nextLoc) <= l
    ensures Lang(res.Graph()) == Lang(a.Graph())
    ensures Returns(res.Graph()) == if a.initial in marks then Returns(a.Graph()) else iset{[]}
    ensures res.sink.None? && Trim(res.Graph())
    ensures NoReturn(a.Graph()) ==> NoReturn(res.Graph())
    ensures LabelsSat(a.Graph()) ==> LabelsSat(res.Graph())
  {
    hide *;
    ValidUnpack(a);
    res := NewResult(manager, a.loc[a.initial].final);
    ghost var g, gk, start := a.Graph(), Kept(a.Graph(), marks), a.initial;
    ghost var r, h0, lo := res.initial, res.Graph(), manager.nextLoc;
    SingleLocs(r, a.loc[a.initial].final);
    ValidUnpack(res);
    MarkAt(a, reach, a.initial);
    if !reach[a.loc[a.initial].id - 1] {
      NothingAccepted(g, marks, res.Graph());
      UsablePack(manager, res);
    } else {
      var hash: LocHash := map[a.initial := res.initial];
      ghost var m0 := hash;
      SinkOkNotFinal(g);
      ReadyFromInitial(manager, res, a, a.loc[a.initial].final);
      ExtendsSame(gk, h0, m0, lo);
      KeptFields(g, marks);
      FrontierFrom(gk, m0, a.initial);
      CopiedNothing(gk, h0, m0);
      var stack := [a.initial];
      ghost var visited: set<Loc> := {};
      while stack != []
        invariant Ready(manager, res, hash, a) && a.Graph() == g && a.initial == start && a.loc == old(a.loc)
        invariant a.locationCount == old(a.locationCount)
        invariant Extends(gk, h0, m0, lo, res.Graph(), hash, manager.nextLoc)
        invariant Frontier(gk, m0, hash, start, visited, stack)
        invariant Copied(gk, h0, res.Graph(), hash, Leaving(gk, visited))
        decreases g.locs - visited
      {
        FrontierPop(gk, m0, hash, start, visited, stack);
        ReadyUnpack(manager, res, hash, a);
        var s1 := stack[0];
        hash, stack := CopyAcceptingOutgoing(manager, res, hash, a, reach, s1, stack[1..], marks, h0, m0, lo, visited);
        visited := visited + {s1};
      }
      FrontierDone(gk, m0, hash, start, visited);
      ReadyUnpack(manager, res, hash, a);
      ExtendsKeys(gk, h0, m0, lo, res.Graph(), hash, manager.nextLoc);
      AcceptingCopiedPack(g, marks, r, lo, h0, m0, res.Graph(), hash, manager.nextLoc, visited);
      AcceptingMeans(g, marks, r, lo, res.Graph(), hash, manager.nextLoc);
      SinkNone(res.Graph());
      UsablePack(manager, res);
    }
  }

  /** Remove the paths that do not lead to a final location. */
  method PruneNonAcceptingPaths(manager: AutomataManager, a: Automaton) returns (res: Automaton)
    requires a.Usable(manager)
    modifies manager
    ensures fresh(res) && res.Usable(manager) && old(manager.nextLoc) <= manager.nextLoc
    ensures forall l :: l in res.loc ==> old(manager.nextLoc) <= l
    ensures Lang(res.Graph()) == Lang(a.Graph())
    ensures Returns(res.Graph()) == if CanAccept(a.Graph(), a.initial) then Returns(a.Graph()) else iset{[]}
    ensures res.sink.None? && Trim(res.Graph())
    ensures NoReturn(a.Graph()) ==> NoReturn(res.Graph())
    ensures LabelsSat(a.Graph()) ==> LabelsSat(res.Graph())
  {
    hide *;
    UsableUnpack(manager, a);
    var reach := MarkAccepting(a);
    MarksOf(a, reach);
    ExactInitial(a.Graph(), SetIn(a.loc, reach[..]));
    res := CopyAcceptingLoc(manager, a, reach, SetIn(a.loc, reach[..]));
  }
}
