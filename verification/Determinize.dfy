/** Determinization: the subset construction. */
module SubsetLanguage {
  import opened BoolExpr
  import opened Alphabet
  import opened Sets
  import opened Nfas
  import opened Automata
  import opened CopyGraphs
  import opened LabelSteps

  type SetHash = map<set<Loc>, Loc>

  /** The set of locations for which a location of the result stands. */
  type Owner = map<Loc, set<Loc>>

  /** The locations reached from a set of locations on a letter. */
  ghost function Post(g: Nfa, s: set<Loc>, a: Letter): set<Loc> {
    set t | t in g.trans && t.src in s && Holds(t.lab, a) :: t.dst
  }

  ghost function AllPost(g: Nfa, s: set<Loc>): set<Loc> {
    set t | t in g.trans && t.src in s :: t.dst
  }

  ghost predicate Meets(s: set<Loc>, final: set<Loc>) {
    exists l :: l in s && l in final
  }

  /** The initial location stands for the set of the initial location of the source, but is not in the
      hash; every other location is the one that the hash gives for its set. */
  ghost predicate OwnersOk(g: Nfa, h: Nfa, hash: SetHash, owner: Owner) {
    && owner.Keys == h.locs && h.init in h.locs && owner[h.init] == {g.init}
    && (forall l :: l in owner ==> owner[l] <= g.locs && (l in h.final <==> Meets(owner[l], g.final)))
    && (forall s :: s in hash ==> hash[s] in owner && owner[hash[s]] == s && hash[s] != h.init)
    && (forall l :: l in owner && l != h.init ==> owner[l] in hash && hash[owner[l]] == l)
    && (h.sink == if {} in hash then Some(hash[{}]) else None)
  }

  /** A transition leads, on each of its letters, to the location that stands for the set reached. */
  ghost predicate TransOk(g: Nfa, h: Nfa, owner: Owner, u: Trans) {
    && u.src in owner && u.dst in owner && u.dst != h.init
    && owner[u.dst] <= AllPost(g, owner[u.src])
    && (forall a :: Holds(u.lab, a) ==> owner[u.dst] == Post(g, owner[u.src], a))
    && (LabelsSat(g) ==> IsSat(u.lab) || owner[u.dst] == {})
  }

  ghost predicate Subsets(g: Nfa, h: Nfa, hash: SetHash, owner: Owner) {
    OwnersOk(g, h, hash, owner) && forall u :: u in h.trans ==> TransOk(g, h, owner, u)
  }

  ghost predicate CanStep(h: Nfa, l: Loc, a: Letter) {
    exists r :: Step(h, l, a, r)
  }

  ghost predicate Total(h: Nfa, done: set<Loc>) {
    forall l: Loc, a: Letter :: l in done ==> CanStep(h, l, a)
  }

  ghost predicate Deterministic(h: Nfa) {
    forall l: Loc, a: Letter, q: Loc, r: Loc :: Step(h, l, a, q) && Step(h, l, a, r) ==> q == r
  }

  // ----- The language of the result

  lemma PostStep(g: Nfa, s: set<Loc>, a: Letter, q: Loc)
    ensures q in Post(g, s, a) <==> exists p :: p in s && Step(g, p, a, q)
  {
    if q in Post(g, s, a) {
      var t :| t in g.trans && t.src in s && Holds(t.lab, a) && t.dst == q;
      assert Step(g, t.src, a, q);
    }
    if p :| p in s && Step(g, p, a, q) {
      var t :| t in g.trans && t.src == p && t.dst == q && Holds(t.lab, a);
    }
  }

  lemma StepOwner(g: Nfa, h: Nfa, hash: SetHash, owner: Owner, l: Loc, a: Letter, r: Loc)
    requires Subsets(g, h, hash, owner) && Step(h, l, a, r)
    ensures l in owner && r in owner && r != h.init && owner[r] == Post(g, owner[l], a)
  {
    var u :| u in h.trans && u.src == l && u.dst == r && Holds(u.lab, a);
    assert TransOk(g, h, owner, u);
  }

  lemma SubsetsDeterministic(g: Nfa, h: Nfa, hash: SetHash, owner: Owner)
    requires Subsets(g, h, hash, owner)
    ensures Deterministic(h) && NoReturn(h)
  {
    forall l: Loc, a: Letter, q: Loc, r: Loc | Step(h, l, a, q) && Step(h, l, a, r) ensures q == r {
      StepOwner(g, h, hash, owner, l, a, q);
      StepOwner(g, h, hash, owner, l, a, r);
    }
    forall u | u in h.trans ensures u.dst != h.init {
      assert TransOk(g, h, owner, u);
    }
  }

  ghost predicate AcceptsFrom(g: Nfa, s: set<Loc>, w: Word) {
    exists p :: p in s && Accepts(g, p, w)
  }

  lemma {:induction false} SubsetAccepts(g: Nfa, h: Nfa, hash: SetHash, owner: Owner, l: Loc, w: Word)
    requires Subsets(g, h, hash, owner) && Total(h, h.locs) && l in owner
    ensures Accepts(h, l, w) <==> AcceptsFrom(g, owner[l], w)
    decreases |w|
  {
    if w != [] {
      if r: Loc :| Step(h, l, w[0], r) && Accepts(h, r, w[1..]) {
        StepOwner(g, h, hash, owner, l, w[0], r);
        SubsetAccepts(g, h, hash, owner, r, w[1..]);
        var q :| q in owner[r] && Accepts(g, q, w[1..]);
        PostStep(g, owner[l], w[0], q);
      }
      if AcceptsFrom(g, owner[l], w) {
        var p :| p in owner[l] && Accepts(g, p, w);
        var q :| Step(g, p, w[0], q) && Accepts(g, q, w[1..]);
        assert CanStep(h, l, w[0]);
        var r :| Step(h, l, w[0], r);
        StepOwner(g, h, hash, owner, l, w[0], r);
        PostStep(g, owner[l], w[0], q);
        SubsetAccepts(g, h, hash, owner, r, w[1..]);
      }
    }
  }

  /** The subset construction keeps the language; it is deterministic and complete, never returns to its
      initial location, and a label that is not satisfiable can only lead to the sink. */
  lemma SubsetMeans(g: Nfa, h: Nfa, hash: SetHash, owner: Owner)
    requires Closed(g) && Subsets(g, h, hash, owner) && Total(h, h.locs)
    ensures Lang(h) == Lang(g) && Deterministic(h) && NoReturn(h) && SinkOk(h)
    ensures LabelsSat(g) ==> forall u :: u in h.trans ==> IsSat(u.lab) || h.sink == Some(u.dst)
    ensures |h.locs| <= Pow2(|g.locs|) + 1
  {
    SubsetsDeterministic(g, h, hash, owner);
    SubsetSink(g, h, hash, owner);
    SubsetCount(g, h, hash, owner);
    hide Subsets, Total, Deterministic, NoReturn, SinkOk, LabelsSat;
    OwnerInitial(g, h, hash, owner);
    forall w ensures w in Lang(h) <==> w in Lang(g) {
      SubsetAccepts(g, h, hash, owner, h.init, w);
      assert AcceptsFrom(g, {g.init}, w) <==> Accepts(g, g.init, w);
    }
  }

  lemma OwnerInitial(g: Nfa, h: Nfa, hash: SetHash, owner: Owner)
    requires Subsets(g, h, hash, owner)
    ensures h.init in owner && owner[h.init] == {g.init}
  {
  }

  lemma SubsetSink(g: Nfa, h: Nfa, hash: SetHash, owner: Owner)
    requires Subsets(g, h, hash, owner)
    ensures SinkOk(h)
    ensures LabelsSat(g) ==> forall u :: u in h.trans ==> IsSat(u.lab) || h.sink == Some(u.dst)
  {
    forall u | u in h.trans
      ensures h.sink == Some(u.src) ==> u.dst == u.src
      ensures LabelsSat(g) ==> IsSat(u.lab) || h.sink == Some(u.dst)
    {
      assert TransOk(g, h, owner, u);
      assert AllPost(g, {}) == {};
      if h.sink == Some(u.src) {
        assert owner[u.src] == {} && owner[u.dst] == {};
      }
    }
  }

  // ----- The number of locations

  /** At most one location for each set of locations of the source, and the initial location. */
  lemma SubsetCount(g: Nfa, h: Nfa, hash: SetHash, owner: Owner)
    requires OwnersOk(g, h, hash, owner)
    ensures |h.locs| <= Pow2(|g.locs|) + 1
  {
    PowersetSize(g.locs);
    assert hash.Keys <= Powerset(g.locs) by {
      forall s | s in hash ensures s in Powerset(g.locs) {
        assert owner[hash[s]] <= g.locs;
      }
    }
    SubsetSize(hash.Keys, Powerset(g.locs));
    Counted(h.locs - {h.init}, hash.Keys, hash, owner);
  }

  lemma {:induction false} Counted(ls: set<Loc>, sets: set<set<Loc>>, hash: SetHash, owner: Owner)
    requires forall l :: l in ls ==> l in owner && owner[l] in sets && owner[l] in hash && hash[owner[l]] == l
    ensures |ls| <= |sets|
  {
    if ls != {} {
      var l :| l in ls;
      Counted(ls - {l}, sets - {owner[l]}, hash, owner);
    }
  }

  // ----- One more location, one more transition

  lemma HashFacts(g: Nfa, h: Nfa, hash: SetHash, owner: Owner, s: set<Loc>)
    requires Subsets(g, h, hash, owner)
    ensures s in hash ==> hash[s] in h.locs && hash[s] in owner && owner[hash[s]] == s && hash[s] != h.init
    ensures h.sink == if {} in hash then Some(hash[{}]) else None
  {
  }

  ghost function WithSet(g: Nfa, h: Nfa, s: set<Loc>, l: Loc): Nfa {
    var h' := WithLoc(h, l, Meets(s, g.final));
    if s == {} then h'.(sink := Some(l)) else h'
  }

  lemma SetCreated(g: Nfa, h: Nfa, hash: SetHash, owner: Owner, s: set<Loc>, l: Loc)
    requires Subsets(g, h, hash, owner) && Closed(h) && s !in hash && l !in h.locs && s <= g.locs
    ensures Subsets(g, WithSet(g, h, s, l), hash[s := l], owner[l := s])
    ensures WithSet(g, h, s, l).trans == h.trans && WithSet(g, h, s, l).init == h.init
  {
    var h' := WithSet(g, h, s, l);
    OwnersCreated(g, h, hash, owner, s, l);
    forall u | u in h'.trans ensures TransOk(g, h', owner[l := s], u) {
      assert TransOk(g, h, owner, u);
    }
  }

  lemma OwnersCreated(g: Nfa, h: Nfa, hash: SetHash, owner: Owner, s: set<Loc>, l: Loc)
    requires OwnersOk(g, h, hash, owner) && Closed(h) && s !in hash && l !in h.locs && s <= g.locs
    ensures OwnersOk(g, WithSet(g, h, s, l), hash[s := l], owner[l := s])
  {
  }

  lemma SetTrans(g: Nfa, h: Nfa, hash: SetHash, owner: Owner, r: Loc, lab: Label, l: Loc)
    requires Subsets(g, h, hash, owner) && r in owner && l in owner && l != h.init
    requires owner[l] <= AllPost(g, owner[r]) && forall a :: Holds(lab, a) ==> owner[l] == Post(g, owner[r], a)
    requires LabelsSat(g) ==> IsSat(lab) || owner[l] == {}
    ensures Subsets(g, WithTrans(h, Trans(r, lab, l)), hash, owner)
  {
    var h' := WithTrans(h, Trans(r, lab, l));
    forall u | u in h'.trans ensures TransOk(g, h', owner, u) {
      if u in h.trans {
        assert TransOk(g, h, owner, u);
      }
    }
  }

  // ----- The worklist

  type Entry = (set<Loc>, Loc)

  /** Every location has been expanded or waits on the stack. */
  ghost predicate Listed(h: Nfa, owner: Owner, stack: seq<Entry>, done: set<Loc>) {
    && done <= h.locs
    && (forall i :: 0 <= i < |stack| ==> stack[i].1 in owner && owner[stack[i].1] == stack[i].0)
    && (forall l :: l in h.locs && l !in done ==> Waits(stack, l))
  }

  ghost predicate Waits(stack: seq<Entry>, l: Loc) {
    exists i :: 0 <= i < |stack| && stack[i].1 == l
  }

  lemma ListedPop(h: Nfa, owner: Owner, stack: seq<Entry>, done: set<Loc>)
    requires Listed(h, owner, stack, done) && stack != [] && owner.Keys == h.locs
    ensures Listed(h, owner, stack[1..], done + {stack[0].1})
    ensures stack[0].1 in owner && owner[stack[0].1] == stack[0].0
  {
    var s, d := stack[1..], done + {stack[0].1};
    forall l | l in h.locs && l !in d ensures Waits(s, l) {
      assert Waits(stack, l);
      var i :| 0 <= i < |stack| && stack[i].1 == l;
      assert s[i - 1] == stack[i];
    }
  }

  lemma ListedPush(h: Nfa, owner: Owner, stack: seq<Entry>, done: set<Loc>, g: Nfa, s: set<Loc>, l: Loc)
    requires Listed(h, owner, stack, done) && l !in owner
    ensures Listed(WithSet(g, h, s, l), owner[l := s], [(s, l)] + stack, done)
  {
    var newStack := [(s, l)] + stack;
    assert newStack[0].1 == l;
    assert Waits(newStack, l);
    forall k | k in h.locs && k !in done ensures Waits(newStack, k) {
      assert Waits(stack, k);
      var i :| 0 <= i < |stack| && stack[i].1 == k;
      assert newStack[i + 1] == stack[i];
    }
  }

  lemma TotalKept(h: Nfa, h': Nfa, done: set<Loc>)
    requires Total(h, done) && h.trans <= h'.trans
    ensures Total(h', done)
  {
    forall l: Loc, a: Letter | l in done ensures CanStep(h', l, a) {
      assert CanStep(h, l, a);
      var r :| Step(h, l, a, r);
      assert Step(h', l, a, r);
    }
  }

  // ----- One location: the letters for which a transition exists

  /** Every letter admitted by a label of ms has a transition from r. */
  ghost predicate Served(h: Nfa, r: Loc, ms: set<Label>) {
    forall m: Label, a: Letter :: m in ms && Holds(m, a) ==> CanStep(h, r, a)
  }

  lemma ServedKept(h: Nfa, h': Nfa, r: Loc, ms: set<Label>)
    requires Served(h, r, ms) && h.trans <= h'.trans
    ensures Served(h', r, ms)
  {
    forall m: Label, a: Letter | m in ms && Holds(m, a) ensures CanStep(h', r, a) {
      assert CanStep(h, r, a);
      var q :| Step(h, r, a, q);
      assert Step(h', r, a, q);
    }
  }

  lemma ServedOne(h: Nfa, r: Loc, ms: set<Label>, m: Label, q: Loc)
    requires Served(h, r, ms) && Trans(r, m, q) in h.trans
    ensures Served(h, r, ms + {m})
  {
    forall n: Label, a: Letter | n in ms + {m} && Holds(n, a) ensures CanStep(h, r, a) {
      if n == m {
        assert Step(h, r, a, q);
      }
    }
  }

  lemma ServedNone(h: Nfa, r: Loc)
    ensures Served(h, r, {})
  {
  }

  lemma ServedAll(h: Nfa, r: Loc, ms: set<Label>, done: set<Loc>)
    requires Served(h, r, ms) && (forall a: Letter :: Admitted(ms, a)) && Total(h, done)
    ensures Total(h, done + {r})
  {
    forall a: Letter ensures CanStep(h, r, a) {
      assert Admitted(ms, a);
      var m :| m in ms && Holds(m, a);
    }
  }
}

module SubsetStates {
  import opened BoolExpr
  import opened Alphabet
  import opened Sets
  import opened Nfas
  import opened Automata
  import opened AlgoChooser
  import opened CopyGraphs
  import opened LabelSteps
  import opened LabelCombinator
  import opened SubsetLanguage

  /** The locations were allocated from lo on. */
  ghost predicate Above(h: Nfa, lo: nat) {
    forall l :: l in h.locs ==> lo <= l
  }

  lemma AboveMore(g: Nfa, h: Nfa, s: set<Loc>, l: Loc, lo: nat)
    requires Above(h, lo) && lo <= l
    ensures Above(WithSet(g, h, s, l), lo)
  {
  }

  /** The result under construction: the locations of `expanded` have all their transitions and r is
      being expanded. */
  ghost predicate Determinizing(manager: AutomataManager, res: Automaton, a: Automaton, hash: SetHash, owner: Owner,
                                stack: seq<Entry>, lo: nat, expanded: set<Loc>, r: Loc)
    reads manager, res, a
  {
    && res != a && res.Valid() && res.Below(manager) && a.Valid()
    && lo <= manager.nextLoc && Above(res.Graph(), lo)
    && r in owner && Subsets(a.Graph(), res.Graph(), hash, owner)
    && Listed(res.Graph(), owner, stack, expanded + {r})
    && Total(res.Graph(), expanded)
  }

  lemma DetUnpack(manager: AutomataManager, res: Automaton, a: Automaton, hash: SetHash, owner: Owner,
                  stack: seq<Entry>, lo: nat, expanded: set<Loc>, r: Loc)
    requires Determinizing(manager, res, a, hash, owner, stack, lo, expanded, r)
    ensures res != a && res.Valid() && res.Below(manager) && a.Valid()
    ensures Closed(res.Graph()) && res.Graph().locs == res.loc.Keys && res.Graph().sink == res.sink && res.Graph().init == res.initial
    ensures Closed(a.Graph()) && a.Graph().locs == a.loc.Keys
    ensures forall l :: l in a.loc ==> (a.loc[l].final <==> l in a.Graph().final)
    ensures Subsets(a.Graph(), res.Graph(), hash, owner) && owner.Keys == res.loc.Keys && r in owner && r in res.loc
    ensures Listed(res.Graph(), owner, stack, expanded + {r})
    ensures Total(res.Graph(), expanded)
    ensures owner[r] <= a.loc.Keys && lo <= manager.nextLoc && Above(res.Graph(), lo)
    ensures forall l :: l in res.loc ==> l < manager.nextLoc
  {
  }

  lemma DetPack(manager: AutomataManager, res: Automaton, a: Automaton, hash: SetHash, owner: Owner,
                stack: seq<Entry>, lo: nat, expanded: set<Loc>, r: Loc)
    requires res != a && res.Valid() && res.Below(manager) && a.Valid()
    requires Subsets(a.Graph(), res.Graph(), hash, owner) && r in owner
    requires Listed(res.Graph(), owner, stack, expanded + {r})
    requires Total(res.Graph(), expanded)
    requires lo <= manager.nextLoc && Above(res.Graph(), lo)
    ensures Determinizing(manager, res, a, hash, owner, stack, lo, expanded, r)
  {
  }

  lemma DetStart(manager: AutomataManager, res: Automaton, a: Automaton)
    requires res.Valid() && a.Valid()
    requires res.Graph() == Single(res.initial, a.initial in a.Graph().final)
    ensures var owner: Owner := map[res.initial := {a.initial}];
            && Subsets(a.Graph(), res.Graph(), map[], owner) && owner.Keys == res.Graph().locs
            && Listed(res.Graph(), owner, [({a.initial}, res.initial)], {})
            && Total(res.Graph(), {})
    ensures LabelsSat(res.Graph())
  {
    var e := ({a.initial}, res.initial);
    assert [e][0].1 == res.initial;
    assert Waits([e], res.initial);
  }

  lemma ListedEmpty(h: Nfa, owner: Owner, done: set<Loc>)
    requires Listed(h, owner, [], done)
    ensures done == h.locs
  {
    assert forall l :: !Waits([], l);
  }

  lemma ListedTrans(h: Nfa, owner: Owner, stack: seq<Entry>, done: set<Loc>, t: Trans)
    requires Listed(h, owner, stack, done)
    ensures Listed(WithTrans(h, t), owner, stack, done)
  {
  }

  lemma WithTransMore(h: Nfa, t: Trans)
    ensures h.trans <= WithTrans(h, t).trans && t in WithTrans(h, t).trans
    ensures LabelsSat(h) && IsSat(t.lab) ==> LabelsSat(WithTrans(h, t))
  {
  }

  lemma AboveTrans(h: Nfa, t: Trans, lo: nat)
    requires Above(h, lo)
    ensures Above(WithTrans(h, t), lo)
  {
  }

  lemma AboveAll(h: Nfa, lo: nat)
    ensures Above(h, lo) <==> forall l :: l in h.locs ==> lo <= l
  {
  }

  lemma SameLabels(h: Nfa, h': Nfa)
    requires h'.trans == h.trans
    ensures LabelsSat(h) <==> LabelsSat(h')
  {
  }

  // ----- The two steps

  /** The locations to which a set of locations moves on a symbol. */
  ghost function SymbolPost(g: Nfa, s: set<Loc>, symbol: Label): set<Loc> {
    set t | t in g.trans && t.src in s && IsModel(t.lab, symbol) :: t.dst
  }

  lemma SymbolPostAdd(a: Automaton, s: set<Loc>, symbol: Label, l: Loc)
    requires a.Valid() && l in a.loc
    ensures SymbolPost(a.Graph(), s + {l}, symbol) == SymbolPost(a.Graph(), s, symbol) + ListPost(a.loc[l].transitions, symbol)
  {
    var g, ts := a.Graph(), a.loc[l].transitions;
    LeavingOne(a, l);
    forall x | x in ListPost(ts, symbol) ensures x in SymbolPost(g, s + {l}, symbol) {
      var i :| 0 <= i < |ts| && IsModel(ts[i].lab, symbol) && ts[i].end == x;
      assert Trans(l, ts[i].lab, ts[i].end) in Leaving(g, {l});
    }
    forall x | x in SymbolPost(g, s + {l}, symbol) ensures x in SymbolPost(g, s, symbol) + ListPost(ts, symbol) {
      var t :| t in g.trans && t.src in s + {l} && IsModel(t.lab, symbol) && t.dst == x;
      if t.src == l {
        assert t in TransFrom(l, ts);
      }
    }
  }

  ghost function ListPost(ts: seq<Transition>, symbol: Label): set<Loc> {
    set i | 0 <= i < |ts| && IsModel(ts[i].lab, symbol) :: ts[i].end
  }

  lemma ListPostNext(ts: seq<Transition>, symbol: Label, i: nat)
    requires i < |ts|
    ensures ListPost(ts[..i + 1], symbol) == ListPost(ts[..i], symbol) + if IsModel(ts[i].lab, symbol) then {ts[i].end} else {}
  {
    assert ts[..i + 1] == ts[..i] + [ts[i]];
    forall x | x in ListPost(ts[..i], symbol) ensures x in ListPost(ts[..i + 1], symbol) {
      var j :| 0 <= j < i && IsModel(ts[..i][j].lab, symbol) && ts[..i][j].end == x;
      assert ts[..i + 1][j] == ts[..i][j];
    }
    assert ts[..i + 1][i] == ts[i];
  }

  lemma ListPostNone(ts: seq<Transition>, symbol: Label)
    ensures ListPost(ts[..0], symbol) == {}
  {
  }

  lemma SymbolPostNone(g: Nfa, members: seq<Loc>, symbol: Label)
    ensures SymbolPost(g, SetOf(members[..0]), symbol) == {}
  {
  }

  lemma SymbolPostInside(a: Automaton, s: set<Loc>, symbol: Label)
    requires a.Valid()
    ensures SymbolPost(a.Graph(), s, symbol) <= a.loc.Keys
  {
  }

  lemma InSetOf(s: seq<Loc>, i: nat)
    requires i < |s|
    ensures s[i] in SetOf(s)
  {
  }

  /** A symbol of an alphabet that covers all labels decides where the set moves. */
  lemma SymbolPostMeans(a: Automaton, s: set<Loc>, alphabet: set<Label>, support: set<Prop>, symbol: Label)
    requires a.Valid() && s <= a.loc.Keys && IsAlphabet(alphabet, support) && symbol in alphabet
    requires SetSupport(a.loc, s) <= support
    ensures SymbolPost(a.Graph(), s, symbol) <= AllPost(a.Graph(), s)
    ensures forall x :: Holds(symbol, x) ==> SymbolPost(a.Graph(), s, symbol) == Post(a.Graph(), s, x)
  {
    var g := a.Graph();
    forall x | Holds(symbol, x) ensures SymbolPost(g, s, symbol) == Post(g, s, x) {
      forall t | t in g.trans && t.src in s ensures IsModel(t.lab, symbol) <==> Holds(t.lab, x) {
        LabelSupport(a, s, t);
        AlphabetDecides(alphabet, support, symbol, t.lab, x);
      }
    }
  }

  lemma LabelSupport(a: Automaton, s: set<Loc>, t: Trans)
    requires a.Valid() && t in a.Graph().trans && t.src in s && s <= a.loc.Keys
    ensures Support(t.lab) <= SetSupport(a.loc, s)
  {
    var ts := a.loc[t.src].transitions;
    var i :| 0 <= i < |ts| && ts[i].lab == t.lab && ts[i].end == t.dst;
    forall v | v in Support(t.lab) ensures v in SetSupport(a.loc, s) {
      assert v in ListSupport(ts);
    }
  }

  /** The list holds the labels and ends of the transitions that leave a set of locations. */
  ghost predicate Collected(g: Nfa, s: set<Loc>, list: seq<Transition>) {
    && (forall i :: 0 <= i < |list| ==> HasSource(g, s, list[i]))
    && (forall t :: t in g.trans && t.src in s ==> Transition(t.lab, t.dst) in list)
  }

  ghost predicate HasSource(g: Nfa, s: set<Loc>, t: Transition) {
    exists p :: p in s && Trans(p, t.lab, t.end) in g.trans
  }

  lemma CollectedMore(a: Automaton, s: set<Loc>, list: seq<Transition>, l: Loc)
    requires a.Valid() && l in a.loc && Collected(a.Graph(), s, list)
    ensures Collected(a.Graph(), s + {l}, list + a.loc[l].transitions)
  {
    var g, ts, s' := a.Graph(), a.loc[l].transitions, s + {l};
    var list' := list + ts;
    LeavingOne(a, l);
    forall i | 0 <= i < |list'| ensures HasSource(g, s', list'[i]) {
      if i < |list| {
        assert HasSource(g, s, list[i]);
        var p :| p in s && Trans(p, list[i].lab, list[i].end) in g.trans;
        assert p in s';
      } else {
        assert Trans(l, ts[i - |list|].lab, ts[i - |list|].end) in Leaving(g, {l});
      }
    }
    forall t | t in g.trans && t.src in s' ensures Transition(t.lab, t.dst) in list' {
      if t.src == l {
        assert t in TransFrom(l, ts);
        var i :| 0 <= i < |ts| && t == Trans(l, ts[i].lab, ts[i].end);
        assert list'[|list| + i] == Transition(t.lab, t.dst);
      } else {
        assert Transition(t.lab, t.dst) in list;
      }
    }
  }

  lemma CollectedPost(g: Nfa, s: set<Loc>, list: seq<Transition>)
    requires Collected(g, s, list)
    ensures Ends(list) == AllPost(g, s)
    ensures forall a :: Targets(list, a) == Post(g, s, a)
  {
    forall a ensures Targets(list, a) == Post(g, s, a) {
      CollectedTargets(g, s, list, a);
    }
    forall x | x in Ends(list) ensures x in AllPost(g, s) {
      var i :| 0 <= i < |list| && list[i].end == x;
      assert HasSource(g, s, list[i]);
    }
    forall x | x in AllPost(g, s) ensures x in Ends(list) {
      var t :| t in g.trans && t.src in s && t.dst == x;
      var i :| 0 <= i < |list| && list[i] == Transition(t.lab, t.dst);
    }
  }

  lemma CollectedTargets(g: Nfa, s: set<Loc>, list: seq<Transition>, a: Letter)
    requires Collected(g, s, list)
    ensures Targets(list, a) == Post(g, s, a)
  {
    forall x | x in Targets(list, a) ensures x in Post(g, s, a) {
      var i :| 0 <= i < |list| && Holds(list[i].lab, a) && list[i].end == x;
      assert HasSource(g, s, list[i]);
    }
    forall x | x in Post(g, s, a) ensures x in Targets(list, a) {
      var t :| t in g.trans && t.src in s && Holds(t.lab, a) && t.dst == x;
      var i :| 0 <= i < |list| && list[i] == Transition(t.lab, t.dst);
    }
  }

  /** A combination satisfies what a transition of the result must satisfy. */
  lemma CombinationOk(g: Nfa, s: set<Loc>, list: seq<Transition>, cs: seq<Combination>, i: nat)
    requires Collected(g, s, list) && AllLead(list, cs) && AllSat(list, cs) && i < |cs|
    ensures cs[i].1 <= AllPost(g, s) && forall a :: Holds(cs[i].0, a) ==> cs[i].1 == Post(g, s, a)
    ensures LabelsSat(g) ==> IsSat(cs[i].0) || cs[i].1 == {}
  {
    CollectedPost(g, s, list);
    assert Leads(list, cs[i]);
    if LabelsSat(g) && |list| == 1 {
      assert HasSource(g, s, list[0]);
    }
  }

  lemma NothingCollected(g: Nfa, s: set<Loc>)
    requires Collected(g, s, [])
    ensures AllPost(g, s) == {} && forall a :: Post(g, s, a) == {}
  {
    CollectedPost(g, s, []);
  }

  lemma CombinationsCover(list: seq<Transition>, cs: seq<Combination>, ms: set<Label>)
    requires forall a: Letter :: Admits(cs, a)
    requires forall i :: 0 <= i < |cs| ==> cs[i].0 in ms
    ensures forall a: Letter :: Admitted(ms, a)
  {
    forall a: Letter ensures Admitted(ms, a) {
      assert Admits(cs, a);
      var i :| 0 <= i < |cs| && Holds(cs[i].0, a);
      assert cs[i].0 in ms;
    }
  }

  lemma CombinationsNone(list: seq<Transition>, cs: seq<Combination>)
    requires cs == [] && (list != [] ==> forall a: Letter :: Admits(cs, a))
    ensures list == []
  {
    var none: Letter := {};
    assert !Admits(cs, none);
  }

  lemma PostInside(g: Nfa, s: set<Loc>)
    requires Closed(g)
    ensures AllPost(g, s) <= g.locs
  {
  }

  lemma HashInPowerset(g: Nfa, h: Nfa, hash: SetHash, owner: Owner)
    requires Subsets(g, h, hash, owner)
    ensures hash.Keys <= Powerset(g.locs)
  {
    forall s | s in hash ensures s in Powerset(g.locs) {
      assert owner[hash[s]] <= g.locs;
    }
  }

  lemma TrueCovers()
    ensures IsSat<Prop>(True) && forall a: Letter :: Admitted({True}, a)
  {
    var none: Letter := {};
    assert Holds(True, none);
    HoldsIsSat(True, none);
    forall a: Letter ensures Admitted({True}, a) {
      assert Holds(True, a);
    }
  }
}

module Determinization {
  import opened BoolExpr
  import opened Alphabet
  import opened Sets
  import opened Nfas
  import opened Automata
  import opened AlgoChooser
  import opened CopyGraphs
  import opened LabelSteps
  import opened LabelCombinator
  import opened SubsetLanguage
  import opened SubsetStates

  method CreateSetLoc(manager: AutomataManager, res: Automaton, a: Automaton, s: set<Loc>) returns (l: Loc)
    requires res.Valid() && res.Below(manager) && a.Valid() && res != a && s <= a.loc.Keys
    modifies res, manager
    ensures res.Valid() && res.Below(manager)
    ensures l == old(manager.nextLoc) && manager.nextLoc == l + 1
    ensures res.Graph() == WithSet(a.Graph(), old(res.Graph()), s, l)
  {
    var isFinal := false;
    var rest := Members(s);
    ghost var all := rest;
    assert SetOf(all[|all|..]) == {};
    while rest != [] && !isFinal
      invariant |rest| <= |all| && rest == all[|all| - |rest|..]
      invariant isFinal ==> Meets(s, a.Graph().final)
      invariant !isFinal ==> forall i :: 0 <= i < |all| - |rest| ==> all[i] !in a.Graph().final
      decreases |rest|
    {
      assert rest[0] == all[|all| - |rest|];
      assert rest[0] in SetOf(all);
      if a.loc[rest[0]].final {
        isFinal := true;
      }
      rest := rest[1..];
    }
    forall x | x in s && !isFinal ensures x !in a.Graph().final {
      assert x in SetOf(all);
      var i :| 0 <= i < |all| && all[i] == x;
    }
    l := res.AddLoc(manager, isFinal);
    if s == {} {
      res.SetSink(l);
    }
  }

  method FindOrCreateSetLoc(manager: AutomataManager, res: Automaton, a: Automaton, hash: SetHash, stack: seq<Entry>, s: set<Loc>,
                            ghost owner: Owner, ghost lo: nat, ghost expanded: set<Loc>, ghost r: Loc)
    returns (hash': SetHash, stack': seq<Entry>, l: Loc, ghost owner': Owner)
    requires Determinizing(manager, res, a, hash, owner, stack, lo, expanded, r) && s <= a.loc.Keys
    modifies res, manager
    ensures Determinizing(manager, res, a, hash', owner', stack', lo, expanded, r)
    ensures l in owner' && owner'[l] == s && l != res.initial && l in res.loc
    ensures owner.Keys <= owner'.Keys && forall k :: k in owner ==> owner'[k] == owner[k]
    ensures res.Graph().trans == old(res.Graph()).trans && old(manager.nextLoc) <= manager.nextLoc
    ensures res.initial == old(res.initial)
    ensures hash.Keys <= hash'.Keys && (hash'.Keys == hash.Keys ==> stack' == stack)
  {
    hide *;
    ghost var g, h := a.Graph(), res.Graph();
    DetUnpack(manager, res, a, hash, owner, stack, lo, expanded, r);
    HashFacts(g, h, hash, owner, s);
    hash', stack', owner' := hash, stack, owner;
    var found := if s == {} then res.sink else if s in hash then Some(hash[s]) else None;
    if found.None? {
      assert s !in hash;
      SetCreated(g, h, hash, owner, s, manager.nextLoc);
      AboveMore(g, h, s, manager.nextLoc, lo);
      ListedPush(h, owner, stack, expanded + {r}, g, s, manager.nextLoc);
      l := CreateSetLoc(manager, res, a, s);
      hash' := hash[s := l];
      owner' := owner[l := s];
      stack' := [(s, l)] + stack;
      TotalKept(h, res.Graph(), expanded);
      DetPack(manager, res, a, hash', owner', stack', lo, expanded, r);
      DetUnpack(manager, res, a, hash', owner', stack', lo, expanded, r);
    } else {
      l := found.value;
    }
  }

  /** One transition of the result: find or create its destination, and create it. */
  method DeterminizeMove(manager: AutomataManager, res: Automaton, a: Automaton, hash: SetHash, stack: seq<Entry>, r: Loc, lab: Label, s: set<Loc>,
                         ghost owner: Owner, ghost lo: nat, ghost expanded: set<Loc>, ghost ms: set<Label>)
    returns (hash': SetHash, stack': seq<Entry>, ghost owner': Owner)
    requires Determinizing(manager, res, a, hash, owner, stack, lo, expanded, r) && s <= a.loc.Keys
    requires Served(res.Graph(), r, ms) && r in owner
    requires s <= AllPost(a.Graph(), owner[r]) && forall x :: Holds(lab, x) ==> s == Post(a.Graph(), owner[r], x)
    requires LabelsSat(a.Graph()) ==> IsSat(lab) || s == {}
    modifies res, manager
    ensures Determinizing(manager, res, a, hash', owner', stack', lo, expanded, r)
    ensures Served(res.Graph(), r, ms + {lab}) && r in owner' && owner'[r] == owner[r]
    ensures LabelsSat(old(res.Graph())) && IsSat(lab) ==> LabelsSat(res.Graph())
    ensures old(manager.nextLoc) <= manager.nextLoc
    ensures hash.Keys <= hash'.Keys && (hash'.Keys == hash.Keys ==> stack' == stack)
  {
    hide *;
    ghost var g, h := a.Graph(), res.Graph();
    DetUnpack(manager, res, a, hash, owner, stack, lo, expanded, r);
    var l;
    hash', stack', l, owner' := FindOrCreateSetLoc(manager, res, a, hash, stack, s, owner, lo, expanded, r);
    ghost var h1, t := res.Graph(), Trans(r, lab, l);
    DetUnpack(manager, res, a, hash', owner', stack', lo, expanded, r);
    SameLabels(h, h1);
    ServedKept(h, h1, r, ms);
    SetTrans(g, h1, hash', owner', r, lab, l);
    WithTransMore(h1, t);
    AboveTrans(h1, t, lo);
    CreateTransitionBelow(manager, res, a, r, l, lab);
    ServedKept(h1, res.Graph(), r, ms);
    ServedOne(res.Graph(), r, ms, lab, l);
    TotalKept(h1, res.Graph(), expanded);
    ListedTrans(h1, owner', stack', expanded + {r}, t);
    DetPack(manager, res, a, hash', owner', stack', lo, expanded, r);
  }

  method CreateTransitionBelow(manager: AutomataManager, res: Automaton, a: Automaton, r: Loc, l: Loc, lab: Label)
    requires res != a && res.Valid() && res.Below(manager) && r in res.loc && l in res.loc
    modifies res
    ensures res.Valid() && res.Below(manager)
    ensures res.Graph() == WithTrans(old(res.Graph()), Trans(r, lab, l))
  {
    hide TransOf, SetOf, FinalOf;
    res.CreateTransition(r, l, lab);
  }

  // ----- The step over the alphabet

  /** The set of locations reached from a set of locations on a symbol. */
  method SymbolTargets(a: Automaton, s: set<Loc>, symbol: Label) returns (dest: set<Loc>)
    requires a.Valid() && s <= a.loc.Keys
    ensures dest == SymbolPost(a.Graph(), s, symbol) && dest <= a.loc.Keys
  {
    hide *;
    dest := {};
    var members := Members(s);
    SymbolPostNone(a.Graph(), members, symbol);
    var i := 0;
    while i < |members|
      invariant 0 <= i <= |members|
      invariant dest == SymbolPost(a.Graph(), SetOf(members[..i]), symbol)
    {
      var location := members[i];
      InSetOf(members, i);
      SetOfAppend(members[..i], location);
      assert members[..i + 1] == members[..i] + [location];
      var ts := a.loc[location].transitions;
      ghost var before := dest;
      ListPostNone(ts, symbol);
      assert before + {} == before;
      var j := 0;
      while j < |ts|
        invariant 0 <= j <= |ts|
        invariant dest == before + ListPost(ts[..j], symbol)
      {
        ListPostNext(ts, symbol, j);
        if IsModel(ts[j].lab, symbol) {
          dest := dest + {ts[j].end};
        }
        j := j + 1;
      }
      assert ts[..j] == ts;
      SymbolPostAdd(a, SetOf(members[..i]), symbol, location);
      i := i + 1;
    }
    assert members[..i] == members;
    SymbolPostInside(a, s, symbol);
  }

  method AlphabetStep(manager: AutomataManager, res: Automaton, a: Automaton, hash: SetHash, stack: seq<Entry>, r: Loc, s: set<Loc>, support: set<Prop>,
                      ghost owner: Owner, ghost lo: nat, ghost expanded: set<Loc>)
    returns (hash': SetHash, stack': seq<Entry>, ghost owner': Owner)
    requires Determinizing(manager, res, a, hash, owner, stack, lo, expanded, r) && s <= a.loc.Keys
    requires r in owner && owner[r] == s && SetSupport(a.loc, s) <= support
    modifies res, manager
    ensures Determinizing(manager, res, a, hash', owner', stack', lo, expanded, r)
    ensures Total(res.Graph(), expanded + {r})
    ensures LabelsSat(old(res.Graph())) ==> LabelsSat(res.Graph())
    ensures old(manager.nextLoc) <= manager.nextLoc
    ensures hash.Keys <= hash'.Keys && (hash'.Keys == hash.Keys ==> stack' == stack)
  {
    hide *;
    var alphabet := GetAlphabet(support);
    hash', stack', owner' := hash, stack, owner;
    ServedNone(res.Graph(), r);
    var rest := alphabet;
    assert alphabet - rest == {};
    while rest != {}
      invariant rest <= alphabet
      invariant Determinizing(manager, res, a, hash', owner', stack', lo, expanded, r) && r in owner' && owner'[r] == s
      invariant a.loc == old(a.loc) && s <= a.loc.Keys
      invariant Served(res.Graph(), r, alphabet - rest)
      invariant LabelsSat(old(res.Graph())) ==> LabelsSat(res.Graph())
      invariant old(manager.nextLoc) <= manager.nextLoc
      invariant hash.Keys <= hash'.Keys && (hash'.Keys == hash.Keys ==> stack' == stack)
      decreases rest
    {
      var symbol :| symbol in rest;
      DetUnpack(manager, res, a, hash', owner', stack', lo, expanded, r);
      AlphabetSat(alphabet, support, symbol);
      SymbolPostMeans(a, s, alphabet, support, symbol);
      var dest := SymbolTargets(a, s, symbol);
      hash', stack', owner' := DeterminizeMove(manager, res, a, hash', stack', r, symbol, dest, owner', lo, expanded, alphabet - rest);
      assert alphabet - (rest - {symbol}) == (alphabet - rest) + {symbol};
      rest := rest - {symbol};
    }
    assert alphabet - rest == alphabet;
    AlphabetAdmits(alphabet, support);
    DetUnpack(manager, res, a, hash', owner', stack', lo, expanded, r);
    ServedAll(res.Graph(), r, alphabet, expanded);
  }

  // ----- The step over the transitions

  /** The labels and ends of all the transitions that leave a set of locations. */
  method CollectTransitions(a: Automaton, s: set<Loc>) returns (list: seq<Transition>)
    requires a.Valid() && s <= a.loc.Keys
    ensures Collected(a.Graph(), s, list)
  {
    list := [];
    var members := Members(s);
    var i := 0;
    while i < |members|
      invariant 0 <= i <= |members|
      invariant Collected(a.Graph(), SetOf(members[..i]), list)
    {
      assert members[i] in SetOf(members);
      SetOfAppend(members[..i], members[i]);
      assert members[..i + 1] == members[..i] + [members[i]];
      CollectedMore(a, SetOf(members[..i]), list, members[i]);
      list := list + a.loc[members[i]].transitions;
      i := i + 1;
    }
    assert members[..i] == members;
  }

  method TransitionsStep(manager: AutomataManager, res: Automaton, a: Automaton, hash: SetHash, stack: seq<Entry>, r: Loc, s: set<Loc>,
                         ghost owner: Owner, ghost lo: nat, ghost expanded: set<Loc>)
    returns (hash': SetHash, stack': seq<Entry>, ghost owner': Owner)
    requires Determinizing(manager, res, a, hash, owner, stack, lo, expanded, r) && s <= a.loc.Keys
    requires r in owner && owner[r] == s
    modifies res, manager
    ensures Determinizing(manager, res, a, hash', owner', stack', lo, expanded, r)
    ensures Total(res.Graph(), expanded + {r})
    ensures old(manager.nextLoc) <= manager.nextLoc
    ensures hash.Keys <= hash'.Keys && (hash'.Keys == hash.Keys ==> stack' == stack)
  {
    hide *;
    DetUnpack(manager, res, a, hash, owner, stack, lo, expanded, r);
    ghost var g := a.Graph();
    var list := CollectTransitions(a, s);
    var combinations := Combine(list);
    hash', stack', owner' := hash, stack, owner;
    ServedNone(res.Graph(), r);
    ghost var ms: set<Label> := {};
    var needsCompletion := true;
    var i := 0;
    while i < |combinations|
      invariant 0 <= i <= |combinations|
      invariant needsCompletion <==> i == 0
      invariant i == 0 ==> ms == {}
      invariant Determinizing(manager, res, a, hash', owner', stack', lo, expanded, r) && r in owner' && owner'[r] == s
      invariant a.Graph() == g && a.loc == old(a.loc)
      invariant Served(res.Graph(), r, ms) && forall j :: 0 <= j < i ==> combinations[j].0 in ms
      invariant old(manager.nextLoc) <= manager.nextLoc
      invariant hash.Keys <= hash'.Keys && (hash'.Keys == hash.Keys ==> stack' == stack)
    {
      DetUnpack(manager, res, a, hash', owner', stack', lo, expanded, r);
      CombinationOk(g, s, list, combinations, i);
      PostInside(g, s);
      hash', stack', owner' := DeterminizeMove(manager, res, a, hash', stack', r, combinations[i].0, combinations[i].1, owner', lo, expanded, ms);
      ms := ms + {combinations[i].0};
      needsCompletion := false;
      i := i + 1;
    }
    if needsCompletion {
      CombinationsNone(list, combinations);
      NothingCollected(g, s);
      TrueCovers();
      hash', stack', owner' := DeterminizeMove(manager, res, a, hash', stack', r, True, {}, owner', lo, expanded, ms);
      DetUnpack(manager, res, a, hash', owner', stack', lo, expanded, r);
      assert ms + {True} == {True};
      ServedAll(res.Graph(), r, {True}, expanded);
    } else {
      CombinationsCover(list, combinations, ms);
      DetUnpack(manager, res, a, hash', owner', stack', lo, expanded, r);
      ServedAll(res.Graph(), r, ms, expanded);
    }
  }

  // ----- The operation

  method ExpandSet(manager: AutomataManager, res: Automaton, a: Automaton, hash: SetHash, stack: seq<Entry>, r: Loc, s: set<Loc>,
                   ghost owner: Owner, ghost lo: nat, ghost expanded: set<Loc>)
    returns (hash': SetHash, stack': seq<Entry>, ghost owner': Owner)
    requires Determinizing(manager, res, a, hash, owner, stack, lo, expanded, r)
    requires r in owner && owner[r] == s
    modifies res, manager
    ensures Determinizing(manager, res, a, hash', owner', stack', lo, expanded, r)
    ensures Total(res.Graph(), expanded + {r})
    ensures LabelsSat(old(res.Graph())) && manager.algorithm == AlphabetBased ==> LabelsSat(res.Graph())
    ensures old(manager.nextLoc) <= manager.nextLoc
    ensures hash.Keys <= hash'.Keys && (hash'.Keys == hash.Keys ==> stack' == stack)
  {
    hide *;
    DetUnpack(manager, res, a, hash, owner, stack, lo, expanded, r);
    var chooser := new AutomataAlgoChooser();
    var methodType := chooser.ChooseFromLocationSet(manager, a.loc, s);
    if methodType == AlphabetBased {
      hash', stack', owner' := AlphabetStep(manager, res, a, hash, stack, r, s, chooser.lastSupport, owner, lo, expanded);
    } else {
      hash', stack', owner' := TransitionsStep(manager, res, a, hash, stack, r, s, owner, lo, expanded);
    }
  }

  /** Determinize an automaton: the same language, exactly one successor for every letter, at most
      2^n + 1 locations. */
  method Determinize(manager: AutomataManager, a: Automaton) returns (res: Automaton)
    requires a.Valid()
    modifies manager
    ensures fresh(res) && res.Usable(manager) && old(manager.nextLoc) <= manager.nextLoc
    ensures forall l :: l in res.loc ==> old(manager.nextLoc) <= l
    ensures Lang(res.Graph()) == Lang(a.Graph())
    ensures Deterministic(res.Graph()) && Total(res.Graph(), res.loc.Keys)
    ensures NoReturn(res.Graph())
    ensures |res.loc.Keys| <= Pow2(|a.loc.Keys|) + 1
    ensures LabelsSat(a.Graph()) ==> forall u :: u in res.Graph().trans ==> IsSat(u.lab) || res.sink == Some(u.dst)
    ensures manager.algorithm == AlphabetBased ==> LabelsSat(res.Graph())
  {
    hide *;
    ValidUnpack(a);
    ghost var g, start := a.Graph(), manager.nextLoc;
    res := NewResult(manager, a.loc[a.initial].final);
    ValidUnpack(res);
    DetStart(manager, res, a);
    SingleLocs(res.initial, a.loc[a.initial].final);
    AboveAll(res.Graph(), start);
    var hash: SetHash := map[];
    ghost var owner: Owner := map[res.initial := {a.initial}];
    var stack: seq<Entry> := [({a.initial}, res.initial)];
    ghost var done: set<Loc> := {};
    while stack != []
      invariant res != a && res.Valid() && res.Below(manager) && a.Valid() && a.Graph() == g
      invariant Subsets(g, res.Graph(), hash, owner) && owner.Keys == res.Graph().locs
      invariant Listed(res.Graph(), owner, stack, done) && Total(res.Graph(), done)
      invariant manager.algorithm == AlphabetBased ==> LabelsSat(res.Graph())
      invariant start <= manager.nextLoc && Above(res.Graph(), start)
      decreases Powerset(g.locs) - hash.Keys, |stack|
    {
      var (s, r) := stack[0];
      ListedPop(res.Graph(), owner, stack, done);
      stack := stack[1..];
      DetPack(manager, res, a, hash, owner, stack, start, done, r);
      ghost var before := hash;
      hash, stack, owner := ExpandSet(manager, res, a, hash, stack, r, s, owner, start, done);
      DetUnpack(manager, res, a, hash, owner, stack, start, done, r);
      HashInPowerset(g, res.Graph(), hash, owner);
      done := done + {r};
    }
    ListedEmpty(res.Graph(), owner, done);
    AboveAll(res.Graph(), start);
    ValidUnpack(res);
    SubsetMeans(g, res.Graph(), hash, owner);
    UsablePack(manager, res);
  }
}
