/** Copying the reachable part of an automaton into another one: what a copy is, on graphs.

  A location hash maps the copied locations to their copies.  The copy of a sink is the sink
  of the target when it already has one, so the hash need not be injective on sinks. */
module CopyGraphs {
  import opened BoolExpr
  import opened Alphabet
  import opened Nfas
  import opened Automata

  type LocHash = map<Loc, Loc>

  // ----- What a copy is, on graphs

  ghost function Leaving(g: Nfa, done: set<Loc>): set<Trans> {
    set t | t in g.trans && t.src in done
  }

  ghost predicate EndsIn(c: set<Trans>, m: LocHash) {
    forall t :: t in c ==> t.src in m && t.dst in m
  }

  /** The copies of the transitions of c. */
  ghost function Image(c: set<Trans>, m: LocHash): set<Trans> {
    set t | t in c && t.src in m && t.dst in m :: Trans(m[t.src], t.lab, m[t.dst])
  }

  /** From graph h0 and hash m0 to graph h and hash m: the new keys are locations of g and their
      copies are pairwise different and freshly allocated in lo..hi, except that the sink of g is
      identified with the sink of h0 if there is one. */
  ghost predicate Shape(g: Nfa, h0: Nfa, m0: LocHash, lo: nat, h: Nfa, m: LocHash, hi: nat) {
    && lo <= hi
    && m0.Keys <= m.Keys
    && (forall k :: k in m0 ==> m[k] == m0[k])
    && (forall k :: k in m && k !in m0 ==>
          k in g.locs && m[k] in h.locs && (lo <= m[k] < hi || (g.sink == Some(k) && h0.sink == Some(m[k]))))
    && (forall k, l :: k in m && k !in m0 && l in m && l !in m0 && k != l ==> m[k] != m[l])
    && h.init == h0.init
    && h0.locs <= h.locs
    && (forall l :: l in h.locs && l !in h0.locs ==> lo <= l < hi)
    && h.sink == (if h0.sink.Some? then h0.sink
                  else if g.sink.Some? && g.sink.value in m && g.sink.value !in m0 then Some(m[g.sink.value])
                  else None)
  }

  /** The copies have the final flags of the originals; the other locations keep theirs. */
  ghost predicate FinalsKept(g: Nfa, h0: Nfa, m0: LocHash, h: Nfa, m: LocHash) {
    && (forall k :: k in m && k !in m0 ==> (m[k] in h.final <==> k in g.final))
    && (forall l :: l in h0.locs ==> (l in h.final <==> l in h0.final))
    && (forall l :: l in h.final && l !in h0.final ==> exists k :: k in m && k !in m0 && m[k] == l)
  }

  ghost predicate Extends(g: Nfa, h0: Nfa, m0: LocHash, lo: nat, h: Nfa, m: LocHash, hi: nat) {
    Shape(g, h0, m0, lo, h, m, hi) && FinalsKept(g, h0, m0, h, m)
  }

  /** Every new location is the copy of something. */
  ghost predicate OnlyCopies(h0: Nfa, h: Nfa, m: LocHash) {
    forall l :: l in h.locs && l !in h0.locs ==> l in m.Values
  }

  lemma OnlySame(h: Nfa, m: LocHash)
    ensures OnlyCopies(h, h, m)
  {
  }

  lemma OnlyCreated(g: Nfa, h: Nfa, key: Loc, l: Loc, m: LocHash)
    requires key in m && m[key] == l
    ensures OnlyCopies(h, WithCopy(g, h, key, l), m)
  {
  }

  lemma OnlyWithTrans(h0: Nfa, h: Nfa, m: LocHash, t: Trans)
    requires OnlyCopies(h0, h, m)
    ensures OnlyCopies(h0, WithTrans(h, t), m)
  {
  }

  lemma OnlyTransitive(g: Nfa, h0: Nfa, h1: Nfa, m1: LocHash, mid: nat, h: Nfa, m: LocHash, hi: nat)
    requires OnlyCopies(h0, h1, m1) && OnlyCopies(h1, h, m) && Extends(g, h1, m1, mid, h, m, hi)
    ensures OnlyCopies(h0, h, m)
  {
    forall l | l in h.locs && l !in h0.locs ensures l in m.Values {
      if l in h1.locs {
        var k :| k in m1 && m1[k] == l;
        assert k in m && m[k] == l;
      }
    }
  }

  lemma ShapeTransitive(g: Nfa, h0: Nfa, m0: LocHash, lo: nat, h1: Nfa, m1: LocHash, mid: nat, h: Nfa, m: LocHash, hi: nat)
    requires Shape(g, h0, m0, lo, h1, m1, mid) && Shape(g, h1, m1, mid, h, m, hi)
    requires forall l :: l in h0.locs ==> l < lo
    requires h0.sink.Some? ==> h0.sink.value in h0.locs
    ensures Shape(g, h0, m0, lo, h, m, hi)
  {
  }

  lemma ExtendsTransitive(g: Nfa, h0: Nfa, m0: LocHash, lo: nat, h1: Nfa, m1: LocHash, mid: nat, h: Nfa, m: LocHash, hi: nat)
    requires Extends(g, h0, m0, lo, h1, m1, mid) && Extends(g, h1, m1, mid, h, m, hi)
    requires forall l :: l in h0.locs ==> l < lo
    requires h0.sink.Some? ==> h0.sink.value in h0.locs
    ensures Extends(g, h0, m0, lo, h, m, hi)
  {
  }

  lemma ExtendsSame(g: Nfa, h: Nfa, m: LocHash, lo: nat)
    ensures Extends(g, h, m, lo, h, m, lo)
  {
  }

  lemma ExtendsInit(g: Nfa, h0: Nfa, m0: LocHash, lo: nat, h: Nfa, m: LocHash, hi: nat)
    requires Extends(g, h0, m0, lo, h, m, hi)
    ensures h.init == h0.init
  {
  }

  lemma ExtendsWithTrans(g: Nfa, h0: Nfa, m0: LocHash, lo: nat, h: Nfa, m: LocHash, hi: nat, t: Trans)
    requires Extends(g, h0, m0, lo, h, m, hi)
    ensures Extends(g, h0, m0, lo, WithTrans(h, t), m, hi)
  {
  }

  lemma ImageAdd(c: set<Trans>, t: Trans, m: LocHash)
    requires t.src in m && t.dst in m
    ensures Image(c + {t}, m) == Image(c, m) + {Trans(m[t.src], t.lab, m[t.dst])}
  {
  }

  lemma ImageKept(c: set<Trans>, m0: LocHash, m: LocHash)
    requires EndsIn(c, m0) && m0.Keys <= m.Keys && forall k :: k in m0 ==> m[k] == m0[k]
    ensures Image(c, m) == Image(c, m0)
  {
  }

  lemma LeavingPlus(g: Nfa, x: set<Loc>, y: set<Loc>)
    ensures Leaving(g, x + y) == Leaving(g, x) + Leaving(g, y)
  {
  }

  lemma LeavingOne(a: Automaton, l: Loc)
    requires a.Valid() && l in a.loc
    ensures Leaving(a.Graph(), {l}) == TransFrom(l, a.loc[l].transitions)
  {
  }

  /** Where the sink of the source is already copied, it is copied to the sink of the target. */
  ghost predicate SinkMapped(g: Nfa, h: Nfa, m: LocHash) {
    g.sink.Some? && h.sink.Some? && g.sink.value in m ==> m[g.sink.value] == h.sink.value
  }

  /** The hash as the lookup sees it: a sink is looked up in the target and not in the hash. */
  ghost function Visible(g: Nfa, h: Nfa, m: LocHash, key: Loc): LocHash {
    if g.sink == Some(key) && h.sink.None? then m - {key} else m
  }

  // ----- Depth-first copies

  /** The worklist: `visited` are the locations already expanded and `stack` the ones still to
      expand; together they are the start and the locations mapped since m0. */
  ghost predicate Frontier(g: Nfa, m0: LocHash, m: LocHash, start: Loc, visited: set<Loc>, stack: seq<Loc>) {
    && Distinct(stack) && m0.Keys <= m.Keys
    && (forall l :: l in visited || l in stack ==> l in m && l in g.locs && (l == start || l !in m0))
    && (forall l :: l in m && l !in m0 ==> l in visited || l in stack)
    && (start in visited || start in stack)
    && (forall l :: l in stack ==> l !in visited)
    && (forall l :: l in visited || l in stack ==> Connected(g, start, l))
  }

  lemma FrontierPop(g: Nfa, m0: LocHash, m: LocHash, start: Loc, visited: set<Loc>, stack: seq<Loc>)
    requires Frontier(g, m0, m, start, visited, stack) && stack != []
    ensures Frontier(g, m0, m, start, visited + {stack[0]}, stack[1..])
    ensures stack[0] in g.locs && stack[0] in m && stack[0] !in visited
  {
    assert forall l :: l in stack <==> l == stack[0] || l in stack[1..];
  }

  lemma FrontierPush(g: Nfa, m0: LocHash, m1: LocHash, m: LocHash, start: Loc, visited: set<Loc>,
                     stack1: seq<Loc>, stack: seq<Loc>, l: Loc)
    requires Frontier(g, m0, m1, start, visited, stack1)
    requires m.Keys == m1.Keys + {l} && l in g.locs && Connected(g, start, l)
    requires stack == if l in m1 then stack1 else [l] + stack1
    ensures Frontier(g, m0, m, start, visited, stack)
  {
  }

  lemma FrontierStep(g: Nfa, m0: LocHash, m1: LocHash, m: LocHash, start: Loc, visited: set<Loc>, stack1: seq<Loc>, stack: seq<Loc>, t: Trans)
    requires Frontier(g, m0, m1, start, visited, stack1)
    requires t in g.trans && t.src in visited && t.dst in g.locs
    requires m.Keys == m1.Keys + {t.dst} && stack == if t.dst in m1 then stack1 else [t.dst] + stack1
    ensures Frontier(g, m0, m, start, visited, stack)
  {
    ConnectedStep(g, start, t);
    FrontierPush(g, m0, m1, m, start, visited, stack1, stack, t.dst);
  }

  lemma FrontierVisited(g: Nfa, m0: LocHash, m: LocHash, start: Loc, visited: set<Loc>, stack: seq<Loc>)
    requires Frontier(g, m0, m, start, visited, stack)
    ensures visited <= m.Keys
  {
  }

  /** The transitions of h are those of h0 and the copies of c. */
  ghost predicate Copied(g: Nfa, h0: Nfa, h: Nfa, m: LocHash, c: set<Trans>) {
    && c <= g.trans && EndsIn(c, m)
    && h.trans == h0.trans + Image(c, m)
  }

  lemma CopiedStep(g: Nfa, h0: Nfa, h1: Nfa, m1: LocHash, h: Nfa, m: LocHash, c: set<Trans>, t: Trans)
    requires Copied(g, h0, h1, m1, c)
    requires m1.Keys <= m.Keys && forall k :: k in m1 ==> m[k] == m1[k]
    requires t in g.trans && t.src in m && t.dst in m
    requires h.trans == h1.trans + {Trans(m[t.src], t.lab, m[t.dst])}
    ensures Copied(g, h0, h, m, c + {t})
  {
    ImageKept(c, m1, m);
    ImageAdd(c, t, m);
  }

  /** The copies of the transitions of one more location. */
  lemma CopiedMore(g: Nfa, h0: Nfa, h1: Nfa, m1: LocHash, h: Nfa, m: LocHash, visited: set<Loc>, l: Loc)
    requires Copied(g, h0, h1, m1, Leaving(g, visited))
    requires m1.Keys <= m.Keys && forall k :: k in m1 ==> m[k] == m1[k]
    requires Copied(g, h1, h, m, Leaving(g, {l}))
    ensures Copied(g, h0, h, m, Leaving(g, visited + {l}))
  {
    ImageKept(Leaving(g, visited), m1, m);
    assert Leaving(g, visited + {l}) == Leaving(g, visited) + Leaving(g, {l});
    assert Image(Leaving(g, visited + {l}), m) == Image(Leaving(g, visited), m) + Image(Leaving(g, {l}), m);
  }

  lemma CopiedNone(g: Nfa, h: Nfa, m: LocHash)
    ensures Copied(g, h, h, m, {})
  {
  }

  lemma ExtendsKeeps(g: Nfa, h0: Nfa, m0: LocHash, lo: nat, h: Nfa, m: LocHash, hi: nat)
    requires Extends(g, h0, m0, lo, h, m, hi)
    ensures h0.locs <= h.locs
    ensures m0.Keys <= m.Keys && forall k :: k in m0 ==> m[k] == m0[k]
  {
  }

  lemma LeavingMore(a: Automaton, done: set<Loc>, l: Loc)
    requires a.Valid() && l in a.loc
    ensures Leaving(a.Graph(), done + {l}) == Leaving(a.Graph(), done) + TransFrom(l, a.loc[l].transitions)
  {
    LeavingOne(a, l);
  }

  lemma TransFromNext(l: Loc, ts: seq<Transition>, i: nat)
    requires i < |ts|
    ensures TransFrom(l, ts[..i + 1]) == TransFrom(l, ts[..i]) + {Trans(l, ts[i].lab, ts[i].end)}
  {
  }

  /** A transition in the list of a location is a transition of the automaton. */
  lemma InGraph(a: Automaton, l: Loc, i: nat)
    requires a.Valid() && l in a.loc && i < |a.loc[l].transitions|
    ensures Trans(l, a.loc[l].transitions[i].lab, a.loc[l].transitions[i].end) in a.Graph().trans
    ensures a.loc[l].transitions[i].end in a.loc
    ensures a.loc[l].transitions[i].end in a.Graph().locs
  {
  }

  lemma StartCopy(g: Nfa, h0: Nfa, m0: LocHash, h: Nfa, m: LocHash, start: Loc)
    requires m.Keys == m0.Keys + {start} && start in g.locs && h.trans == h0.trans
    ensures Frontier(g, Visible(g, h0, m0, start), m, start, {}, [start])
    ensures Copied(g, h0, h, m, Leaving(g, {}))
  {
    ConnectedSelf(g, start);
  }

  lemma FrontierFrom(g: Nfa, m0: LocHash, start: Loc)
    requires start in m0 && start in g.locs
    ensures Frontier(g, m0, m0, start, {}, [start])
  {
    ConnectedSelf(g, start);
  }

  lemma FrontierDone(g: Nfa, m0: LocHash, m: LocHash, start: Loc, visited: set<Loc>)
    requires Frontier(g, m0, m, start, visited, [])
    ensures visited == (m.Keys - m0.Keys) + {start} && start in m
    ensures forall l :: l in visited ==> Connected(g, start, l)
  {
  }

  /** One more transition copied: the invariants of every depth-first copy are kept. */
  lemma CopyStep(g: Nfa, h0: Nfa, mh: LocHash, lo: nat, h1: Nfa, m1: LocHash, mid: nat, h: Nfa, m: LocHash, hi: nat,
                 m0: LocHash, start: Loc, visited: set<Loc>, stack1: seq<Loc>, stack: seq<Loc>, t: Trans)
    requires Extends(g, h0, mh, lo, h1, m1, mid) && Extends(g, h1, m1, mid, h, m, hi)
    requires forall l :: l in h0.locs ==> l < lo
    requires h0.sink.Some? ==> h0.sink.value in h0.locs
    requires Frontier(g, m0, m1, start, visited, stack1)
    requires t in g.trans && t.src in visited && t.dst in g.locs
    requires m.Keys == m1.Keys + {t.dst} && stack == if t.dst in m1 then stack1 else [t.dst] + stack1
    ensures Extends(g, h0, mh, lo, h, m, hi)
    ensures Frontier(g, m0, m, start, visited, stack)
    ensures m1.Keys <= m.Keys && forall k :: k in m1 ==> m[k] == m1[k]
  {
    ExtendsTransitive(g, h0, mh, lo, h1, m1, mid, h, m, hi);
    ExtendsKeeps(g, h1, m1, mid, h, m, hi);
    hide Extends;
    ConnectedStep(g, start, t);
    FrontierPush(g, m0, m1, m, start, visited, stack1, stack, t.dst);
  }

  /** The hash points into the target, and the sinks are treated as sinks. */
  ghost predicate ReadyOn(g: Nfa, h: Nfa, m: LocHash) {
    && (forall k :: k in m ==> m[k] in h.locs)
    && SinkMapped(g, h, m)
    && SinkNotFinal(g) && SinkNotFinal(h)
  }

  /** What the copying operations require and keep: two automata, and a hash into the target. */
  ghost predicate Ready(manager: AutomataManager, self: Automaton, hash: LocHash, source: Automaton)
    reads manager, self, source
  {
    && self != source
    && self.Valid() && self.Below(manager) && source.Valid()
    && ReadyOn(source.Graph(), self.Graph(), hash)
  }

  lemma ReadyUnpack(manager: AutomataManager, self: Automaton, hash: LocHash, source: Automaton)
    requires Ready(manager, self, hash, source)
    ensures self != source && self.Valid() && self.Below(manager) && source.Valid()
    ensures ReadyOn(source.Graph(), self.Graph(), hash)
    ensures self.Graph().locs == self.loc.Keys && source.Graph().locs == source.loc.Keys
    ensures self.Graph().sink == self.sink && source.Graph().sink == source.sink
    ensures forall l :: l in self.Graph().locs ==> l < manager.nextLoc
    ensures Closed(self.Graph()) && Closed(source.Graph())
    ensures self.Graph().init == self.initial && source.Graph().init == source.initial
    ensures self.initial in self.loc && source.initial in source.loc
    ensures self.sink.Some? ==> self.sink.value in self.loc
    ensures forall k :: k in hash ==> hash[k] in self.loc
    ensures forall l :: l in source.loc ==> (source.loc[l].final <==> l in source.Graph().final)
  {
  }

  lemma ReadyAt(manager: AutomataManager, self: Automaton, hash: LocHash, source: Automaton, key: Loc)
    requires Ready(manager, self, hash, source) && key in hash
    ensures hash[key] in self.loc
  {
  }

  lemma ReadyPack(manager: AutomataManager, self: Automaton, hash: LocHash, source: Automaton)
    requires self != source && self.Valid() && self.Below(manager) && source.Valid()
    requires ReadyOn(source.Graph(), self.Graph(), hash)
    ensures Ready(manager, self, hash, source)
  {
  }

  // ----- Looking a location up or creating its copy, on graphs

  lemma FoundKept(g: Nfa, h: Nfa, m: LocHash, lo: nat, key: Loc)
    requires key in m && ReadyOn(g, h, m) && (g.sink == Some(key) ==> h.sink.Some?)
    ensures Extends(g, h, Visible(g, h, m, key), lo, h, m, lo)
    ensures g.sink == Some(key) ==> m[key] == h.sink.value
  {
  }

  lemma FoundSink(g: Nfa, h: Nfa, m: LocHash, lo: nat, key: Loc)
    requires g.sink == Some(key) && h.sink.Some? && key !in m && ReadyOn(g, h, m)
    requires key in g.locs && h.sink.value in h.locs
    ensures ReadyOn(g, h, m[key := h.sink.value])
    ensures Extends(g, h, Visible(g, h, m, key), lo, h, m[key := h.sink.value], lo)
  {
  }

  ghost function WithCopy(g: Nfa, h: Nfa, key: Loc, l: Loc): Nfa {
    var h' := WithLoc(h, l, key in g.final);
    if g.sink == Some(key) then h'.(sink := Some(l)) else h'
  }

  lemma CreatedCopy(g: Nfa, h: Nfa, m: LocHash, lo: nat, key: Loc)
    requires key in g.locs && (g.sink != Some(key) ==> key !in m) && (g.sink == Some(key) ==> h.sink.None?)
    requires ReadyOn(g, h, m) && lo !in h.locs && Closed(h)
    ensures ReadyOn(g, WithCopy(g, h, key, lo), m[key := lo]) && WithCopy(g, h, key, lo).trans == h.trans
    ensures Extends(g, h, Visible(g, h, m, key), lo, WithCopy(g, h, key, lo), m[key := lo], lo + 1)
  {
    assert g.sink != Some(key) ==> m - {key} == m;
  }

  // ----- Expanding a location

  lemma ExpandStart(manager: AutomataManager, self: Automaton, hash: LocHash, source: Automaton, current: Loc, visited: set<Loc>)
    requires Ready(manager, self, hash, source) && current in source.loc
    ensures var g, ts := source.Graph(), source.loc[current].transitions;
            && Leaving(g, visited + {current}) == Leaving(g, visited) + TransFrom(current, ts)
            && Leaving(g, visited) + TransFrom(current, ts[..0]) == Leaving(g, visited)
            && Leaving(g, {current}) == TransFrom(current, ts) && TransFrom(current, ts[..0]) == {}
            && ts[..|ts|] == ts
  {
    LeavingMore(source, visited, current);
    LeavingOne(source, current);
  }

  lemma ExpandNext(manager: AutomataManager, self: Automaton, hash: LocHash, source: Automaton, current: Loc, i: nat)
    requires Ready(manager, self, hash, source) && current in source.loc
    requires i < |source.loc[current].transitions|
    ensures current in hash ==> hash[current] in self.loc
    ensures var g, ts := source.Graph(), source.loc[current].transitions;
            var t := Trans(current, ts[i].lab, ts[i].end);
            && t in g.trans && t.dst in g.locs && t.dst in source.loc
            && TransFrom(current, ts[..i + 1]) == TransFrom(current, ts[..i]) + {t}
  {
    InGraph(source, current, i);
    TransFromNext(current, source.loc[current].transitions, i);
  }

  // ----- Copying from the initial location

  /** The transitions of c, leaving r instead of their source. */
  ghost function Spokes(c: set<Trans>, m: LocHash, r: Loc): set<Trans> {
    set t | t in c && t.dst in m :: Trans(r, t.lab, m[t.dst])
  }

  /** The part of g mapped since m0 is copied, along with the spokes of c. */
  ghost predicate CopiedFromInitial(g: Nfa, h0: Nfa, m0: LocHash, h: Nfa, m: LocHash, c: set<Trans>, spokes: bool) {
    && EndsIn(Leaving(g, m.Keys - m0.Keys), m)
    && (forall t :: t in c ==> t.dst in m && t.dst !in m0)
    && h.trans == h0.trans + Image(Leaving(g, m.Keys - m0.Keys), m) + (if spokes then Spokes(c, m, h0.init) else {})
  }

  lemma SpokesKept(c: set<Trans>, m0: LocHash, m: LocHash, r: Loc)
    requires (forall t :: t in c ==> t.dst in m0) && m0.Keys <= m.Keys && forall k :: k in m0 ==> m[k] == m0[k]
    ensures Spokes(c, m, r) == Spokes(c, m0, r)
  {
  }

  /** One transition of the initial location: its destination is looked up (graph h2, hash m2), the
      spoke is added, and what it reaches is copied if it is new (graph h3, hash m3). */
  lemma FromInitialStep(g: Nfa, h0: Nfa, m0: LocHash, h1: Nfa, m1: LocHash, h2: Nfa, m2: LocHash, h3: Nfa, m3: LocHash,
                        c: set<Trans>, t: Trans, spokes: bool)
    requires m0.Keys <= m1.Keys && forall k :: k in m0 ==> m1[k] == m0[k]
    requires m1.Keys <= m2.Keys <= m3.Keys && forall k :: k in m1 ==> m2[k] == m1[k]
    requires forall k :: k in m2 ==> m3[k] == m2[k]
    requires CopiedFromInitial(g, h0, m0, h1, m1, c, spokes)
    requires m2.Keys == m1.Keys + {t.dst} && t.dst !in m0
    requires h2.trans == h1.trans + if spokes then {Trans(h0.init, t.lab, m2[t.dst])} else {}
    requires if t.dst in m1 then h3 == h2 && m3 == m2
             else Copied(g, h2, h3, m3, Leaving(g, (m3.Keys - m2.Keys) + {t.dst}))
    ensures CopiedFromInitial(g, h0, m0, h3, m3, c + {t}, spokes)
  {
    var k1, k3 := m1.Keys - m0.Keys, m3.Keys - m0.Keys;
    ImageKept(Leaving(g, k1), m1, m3);
    SpokesKept(c, m1, m3, h0.init);
    assert Spokes(c + {t}, m3, h0.init) == Spokes(c, m3, h0.init) + {Trans(h0.init, t.lab, m3[t.dst])};
    if t.dst !in m1 {
      var x := (m3.Keys - m2.Keys) + {t.dst};
      assert k3 == k1 + x;
      assert Leaving(g, k3) == Leaving(g, k1) + Leaving(g, x);
      assert Image(Leaving(g, k3), m3) == Image(Leaving(g, k1), m3) + Image(Leaving(g, x), m3);
    } else {
      assert m3.Keys == m1.Keys;
    }
  }

  /** A location mapped since m0 is visible in the hash even if it is the sink. */
  lemma VisibleNew(g: Nfa, h0: Nfa, m0: LocHash, lo: nat, h: Nfa, m: LocHash, hi: nat, key: Loc)
    requires Extends(g, h0, m0, lo, h, m, hi) && key !in m0
    ensures Visible(g, h, m, key) == m
  {
    assert key !in m ==> m - {key} == m;
  }

  lemma FromInitialStart(g: Nfa, h: Nfa, m: LocHash, spokes: bool)
    ensures CopiedFromInitial(g, h, m, h, m, {}, spokes)
  {
  }

  lemma InitialTransitions(manager: AutomataManager, self: Automaton, hash: LocHash, source: Automaton)
    requires Ready(manager, self, hash, source)
    ensures source.initial in source.loc
    ensures var ts := source.loc[source.initial].transitions;
            && Leaving(source.Graph(), {source.initial}) == TransFrom(source.initial, ts)
            && TransFrom(source.initial, ts[..0]) == {}
            && ts[..|ts|] == ts
  {
    LeavingOne(source, source.initial);
  }

  // ----- Setting up a copy

  lemma UsableUnpack(manager: AutomataManager, a: Automaton)
    requires a.Usable(manager)
    ensures a.Valid() && a.Below(manager) && SinkOk(a.Graph()) && Closed(a.Graph())
    ensures a.initial in a.loc && a.Graph().init == a.initial && a.Graph().locs == a.loc.Keys
    ensures a.Graph().sink == a.sink
    ensures forall l :: l in a.loc ==> l < manager.nextLoc && (a.loc[l].final <==> l in a.Graph().final)
  {
  }

  lemma ValidUnpack(a: Automaton)
    requires a.Valid()
    ensures Closed(a.Graph())
    ensures a.initial in a.loc && a.Graph().init == a.initial && a.Graph().locs == a.loc.Keys
    ensures a.Graph().sink == a.sink
    ensures forall l :: l in a.loc ==> (a.loc[l].final <==> l in a.Graph().final)
  {
  }

  lemma UsablePack(manager: AutomataManager, a: Automaton)
    requires a.Valid() && a.Below(manager) && SinkOk(a.Graph())
    ensures a.Usable(manager)
  {
  }

  /** Allocating more locations keeps an automaton usable. */
  lemma UsableLater(manager: AutomataManager, a: Automaton)
    requires a.Valid() && SinkOk(a.Graph()) && forall l :: l in a.loc ==> l < manager.nextLoc
    ensures a.Usable(manager)
  {
  }

  /** Automata allocated one after the other have no location in common. */
  lemma AllocatedLater(a: Automaton, b: Automaton, n: nat)
    requires (forall l :: l in a.loc ==> l < n) && (forall l :: l in b.loc ==> n <= l)
    ensures a.loc.Keys !! b.loc.Keys
  {
  }

  lemma ReadyStart(manager: AutomataManager, self: Automaton, source: Automaton, final: bool)
    requires self != source && self.Valid() && self.Below(manager) && source.Valid() && SinkOk(source.Graph())
    requires self.Graph() == Single(self.initial, final)
    ensures Ready(manager, self, map[], source)
  {
  }

  lemma ReadyFromInitial(manager: AutomataManager, self: Automaton, source: Automaton, final: bool)
    requires self != source && self.Valid() && self.Below(manager) && source.Valid() && SinkNotFinal(source.Graph())
    requires self.Graph() == Single(self.initial, final)
    ensures Ready(manager, self, map[source.initial := self.initial], source)
  {
  }

  /** The same target is ready for another source, if the hash knows nothing of it. */
  lemma ReadySwitch(manager: AutomataManager, self: Automaton, hash: LocHash, source: Automaton, source2: Automaton)
    requires Ready(manager, self, hash, source) && self != source2 && source2.Valid() && SinkOk(source2.Graph())
    requires hash.Keys !! source2.loc.Keys
    ensures Ready(manager, self, hash, source2)
  {
  }

  /** The hash knows one location of another automaton, mapped to the initial location. */
  lemma ReadyForSecond(manager: AutomataManager, self: Automaton, source: Automaton, key: Loc, final: bool)
    requires self != source && self.Valid() && self.Below(manager) && source.Valid() && SinkOk(source.Graph())
    requires self.Graph() == Single(self.initial, final) && key !in source.loc
    ensures Ready(manager, self, map[key := self.initial], source)
  {
  }

  lemma ReadyForFirst(manager: AutomataManager, self: Automaton, hash: LocHash, a1: Automaton, a2: Automaton)
    requires Ready(manager, self, hash, a2) && self != a1 && a1.Valid() && SinkOk(a1.Graph())
    requires a1.loc.Keys !! a2.loc.Keys && hash.Keys <= {a1.initial} + a2.loc.Keys
    ensures Ready(manager, self, hash, a1)
  {
  }

  lemma ExtendsKeys(g: Nfa, h0: Nfa, m0: LocHash, lo: nat, h: Nfa, m: LocHash, hi: nat)
    requires Extends(g, h0, m0, lo, h, m, hi)
    ensures m.Keys <= m0.Keys + g.locs && lo <= hi
    ensures forall l :: l in h.locs ==> l in h0.locs || lo <= l < hi
    ensures forall k :: k in m && k !in m0 ==> m[k] in h.locs && (lo <= m[k] || h0.sink == Some(m[k]))
  {
  }

  // ----- The transitions of the initial location

  lemma InitialOf(a: Automaton)
    requires a.Valid()
    ensures a.initial in a.loc
    ensures var ts := a.loc[a.initial].transitions;
            && Leaving(a.Graph(), {a.initial}) == TransFrom(a.initial, ts)
            && TransFrom(a.initial, ts[..0]) == {} && ts[..|ts|] == ts
  {
    LeavingOne(a, a.initial);
  }

  lemma NextOf(a: Automaton, i: nat)
    requires a.Valid() && a.initial in a.loc && i < |a.loc[a.initial].transitions|
    ensures var ts := a.loc[a.initial].transitions;
            var t := Trans(a.initial, ts[i].lab, ts[i].end);
            && t in Leaving(a.Graph(), {a.initial})
            && TransFrom(a.initial, ts[..i + 1]) == TransFrom(a.initial, ts[..i]) + {t}
  {
    InGraph(a, a.initial, i);
    TransFromNext(a.initial, a.loc[a.initial].transitions, i);
  }
}
