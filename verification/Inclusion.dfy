/** Complement, difference, emptiness, inclusion and equality of languages. */
module ComplementLanguage {
  import opened BoolExpr
  import opened Alphabet
  import opened Sets
  import opened Nfas
  import opened Automata
  import opened SubsetLanguage

  ghost function Complement(x: Language): Language {
    iset w: Word | w !in x
  }

  /** The automaton with final and non-final locations exchanged; the sink is final, so it is no sink. */
  ghost function Swapped(g: Nfa): Nfa {
    g.(final := g.locs - g.final, sink := None)
  }

  lemma {:induction false} SwappedAccepts(g: Nfa, p: Loc, w: Word)
    requires Closed(g) && Deterministic(g) && Total(g, g.locs) && p in g.locs
    ensures Accepts(Swapped(g), p, w) <==> !Accepts(g, p, w)
    decreases |w|
  {
    if w != [] {
      assert CanStep(g, p, w[0]);
      var q :| Step(g, p, w[0], q);
      assert Step(Swapped(g), p, w[0], q) && q in g.locs;
      SwappedAccepts(g, q, w[1..]);
      forall r: Loc | Step(Swapped(g), p, w[0], r) ensures r == q {
        assert Step(g, p, w[0], r);
      }
    }
  }

  lemma SwappedMeans(g: Nfa)
    requires Closed(g) && Deterministic(g) && Total(g, g.locs)
    ensures Lang(Swapped(g)) == Complement(Lang(g)) && SinkOk(Swapped(g)) && Closed(Swapped(g))
    ensures NoReturn(g) ==> NoReturn(Swapped(g))
    ensures LabelsSat(g) ==> LabelsSat(Swapped(g))
  {
    forall w ensures w in Lang(Swapped(g)) <==> w in Complement(Lang(g)) {
      SwappedAccepts(g, g.init, w);
    }
  }

  lemma SameTransitions(loc: map<Loc, AutomataLoc>, loc': map<Loc, AutomataLoc>)
    requires loc'.Keys == loc.Keys && forall l :: l in loc ==> loc'[l].transitions == loc[l].transitions
    ensures TransOf(loc') == TransOf(loc)
  {
  }

  /** Inclusion is emptiness of the intersection with the complement. */
  lemma InclusionIsEmptiness(x: Language, y: Language)
    ensures x * Complement(y) == iset{} <==> x <= y
  {
    if x * Complement(y) == iset{} {
      forall w | w in x ensures w in y {
        assert w !in x * Complement(y);
      }
    }
  }
}

module EmptinessSearch {
  import opened BoolExpr
  import opened Alphabet
  import opened Sets
  import opened Nfas
  import opened Automata
  import opened CopyGraphs
  import opened AcceptingSearch

  /** No final location has been met: the locations met are the expanded ones and those on the stack,
      and the transitions c of the expanded ones have been followed. */
  ghost predicate Searching(g: Nfa, met: set<Loc>, stack: seq<Loc>, c: set<Trans>) {
    && g.init in met && met !! g.final
    && (forall l :: l in met ==> l in g.locs && Connected(g, g.init, l))
    && (forall l :: l in stack ==> l in met) && Distinct(stack)
    && (forall t :: t in c ==> t in g.trans && t.dst in met)
    && (forall t :: t in g.trans && t.src in met && t.src !in stack ==> t in c)
  }

  lemma SearchingStart(g: Nfa)
    requires Closed(g) && g.init !in g.final
    ensures Searching(g, {g.init}, [g.init], {})
  {
    ConnectedSelf(g, g.init);
  }

  /** A location is popped: its transitions are about to be followed. */
  ghost predicate Following(g: Nfa, met: set<Loc>, stack: seq<Loc>, c: set<Trans>, l: Loc) {
    && l in met && l !in stack
    && g.init in met && met !! g.final
    && (forall k :: k in met ==> k in g.locs && Connected(g, g.init, k))
    && (forall k :: k in stack ==> k in met) && Distinct(stack)
    && (forall t :: t in c ==> t in g.trans && t.dst in met)
    && (forall t :: t in g.trans && t.src in met && t.src !in stack && t.src != l ==> t in c)
  }

  lemma SearchingPop(g: Nfa, met: set<Loc>, stack: seq<Loc>, c: set<Trans>)
    requires Searching(g, met, stack, c) && stack != []
    ensures Following(g, met, stack[1..], c, stack[0]) && stack[0] in g.locs
    ensures SetOf(stack) == SetOf(stack[1..]) + {stack[0]}
  {
    assert forall l :: l in stack <==> l == stack[0] || l in stack[1..];
  }

  lemma FollowOne(g: Nfa, met: set<Loc>, stack: seq<Loc>, c: set<Trans>, l: Loc, t: Trans)
    requires Closed(g) && Following(g, met, stack, c, l) && t in g.trans && t.src == l
    ensures t.dst in met ==> Following(g, met, stack, c + {t}, l)
    ensures t.dst !in met && t.dst !in g.final ==> Following(g, met + {t.dst}, [t.dst] + stack, c + {t}, l)
    ensures t.dst in g.final ==> CanAccept(g, g.init)
  {
    ConnectedStep(g, g.init, t);
  }

  lemma FollowedAll(g: Nfa, met: set<Loc>, stack: seq<Loc>, c: set<Trans>, l: Loc)
    requires Following(g, met, stack, c, l) && Leaving(g, {l}) <= c
    ensures Searching(g, met, stack, c)
  {
    forall t | t in g.trans && t.src in met && t.src !in stack ensures t in c {
      if t.src == l {
        assert t in Leaving(g, {l});
      }
    }
  }

  lemma SearchingDone(g: Nfa, met: set<Loc>, c: set<Trans>)
    requires Searching(g, met, [], c)
    ensures !CanAccept(g, g.init)
  {
    forall f | Connected(g, g.init, f) ensures f !in g.final {
      var n: nat :| PathN(g, g.init, n, f);
      PathMet(g, met, c, n, f);
    }
  }

  lemma {:induction false} PathMet(g: Nfa, met: set<Loc>, c: set<Trans>, n: nat, l: Loc)
    requires Searching(g, met, [], c) && PathN(g, g.init, n, l)
    ensures l in met
    decreases n
  {
    if n > 0 {
      var t :| t in g.trans && t.dst == l && PathN(g, g.init, n - 1, t.src);
      PathMet(g, met, c, n - 1, t.src);
    }
  }
}

module Inclusion {
  import opened BoolExpr
  import opened Alphabet
  import opened Sets
  import opened Nfas
  import opened Automata
  import opened CopyGraphs
  import opened AcceptingSearch
  import opened AcceptingLanguage
  import opened LabelSteps
  import opened SubsetLanguage
  import opened Determinization
  import opened Intersections
  import opened ComplementLanguage
  import opened EmptinessSearch

  lemma LocationList(a: Automaton)
    requires a.Valid()
    ensures SetOf(a.locations) == a.loc.Keys
    ensures forall i, j :: 0 <= i < j < |a.locations| ==> a.locations[i] != a.locations[j]
  {
    forall i | 0 <= i < |a.locations| ensures a.locations[i] in a.loc {
      assert a.locations[i] in SetOf(a.locations);
    }
  }

  /** Only the final flags have changed, and they are all exchanged. */
  twostate lemma SwappedValid(res: Automaton)
    requires old(res.Valid()) && res.sink.None?
    requires res.initial == old(res.initial) && res.locations == old(res.locations) && res.locationCount == old(res.locationCount)
    requires res.loc.Keys == old(res.loc).Keys
    requires forall l :: l in res.loc ==> res.loc[l] == old(res.loc)[l].(final := !old(res.loc)[l].final)
    requires SetOf(res.finalLocations) == NonFinal(old(res.loc), old(res.loc).Keys)
    ensures res.Valid() && res.Graph() == Swapped(old(res.Graph()))
  {
    SameTransitions(old(res.loc), res.loc);
    assert FinalOf(res.loc) == old(res.loc).Keys - FinalOf(old(res.loc));
    forall i | 0 <= i < |res.locations| ensures res.locations[i] in res.loc {
      assert res.locations[i] in SetOf(res.locations);
    }
  }

  /** Exchange final and non-final locations, and forget the sink. */
  method SwapFinals(res: Automaton)
    requires res.Valid()
    modifies res
    ensures res.Valid() && res.Graph() == Swapped(old(res.Graph())) && res.loc.Keys == old(res.loc.Keys)
    ensures res.initial == old(res.initial)
  {
    hide *;
    LocationList(res);
    ghost var before := res.loc;
    ghost var flipped: set<Loc> := {};
    NonFinalNone(before);
    PrefixNone(res.locations);
    var newFinal: seq<Loc> := [];
    var i := 0;
    while i < |res.locations|
      invariant 0 <= i <= |res.locations|
      invariant res.loc.Keys == before.Keys && res.locations == old(res.locations) && res.initial == old(res.initial)
      invariant res.locationCount == old(res.locationCount)
      invariant flipped == SetOf(res.locations[..i])
      invariant forall l :: l in before ==>
                  res.loc[l] == before[l].(final := if l in flipped then !before[l].final else before[l].final)
      invariant SetOf(newFinal) == NonFinal(before, flipped)
    {
      var l := res.locations[i];
      PrefixNext(res.locations, i);
      NonFinalAdd(before, flipped, l);
      if res.loc[l].final {
        res.loc := res.loc[l := res.loc[l].(final := false)];
      } else {
        res.loc := res.loc[l := res.loc[l].(final := true)];
        SetOfPush(l, newFinal);
        newFinal := [l] + newFinal;
      }
      flipped := flipped + {l};
      i := i + 1;
    }
    res.finalLocations := newFinal;
    res.sink := None;
    assert res.locations[..i] == res.locations;
    SwappedValid(res);
  }

  /** The locations of a set that are not flagged final. */
  ghost function NonFinal(loc: map<Loc, AutomataLoc>, ls: set<Loc>): set<Loc> {
    set l | l in ls && l in loc && !loc[l].final
  }

  lemma NonFinalNone(loc: map<Loc, AutomataLoc>)
    ensures SetOf<Loc>([]) == NonFinal(loc, {})
  {
  }

  lemma NonFinalAdd(loc: map<Loc, AutomataLoc>, ls: set<Loc>, l: Loc)
    requires l in loc
    ensures NonFinal(loc, ls + {l}) == NonFinal(loc, ls) + if loc[l].final then {} else {l}
  {
  }

  lemma PrefixNone(s: seq<Loc>)
    ensures SetOf(s[..0]) == {}
  {
  }

  lemma PrefixNext(s: seq<Loc>, i: nat)
    requires i < |s| && forall j, k :: 0 <= j < k < |s| ==> s[j] != s[k]
    ensures SetOf(s[..i + 1]) == SetOf(s[..i]) + {s[i]} && s[i] !in SetOf(s[..i]) && s[i] in SetOf(s)
  {
    assert s[..i + 1] == s[..i] + [s[i]];
  }

  /** Complement: determinize, then exchange the final flags. */
  method Complement(manager: AutomataManager, a: Automaton) returns (res: Automaton)
    requires a.Valid()
    modifies manager
    ensures fresh(res) && res.Usable(manager) && old(manager.nextLoc) <= manager.nextLoc
    ensures forall l :: l in res.loc ==> old(manager.nextLoc) <= l
    ensures Lang(res.Graph()) == ComplementLanguage.Complement(Lang(a.Graph()))
    ensures NoReturn(res.Graph()) && |res.loc.Keys| <= Pow2(|a.loc.Keys|) + 1
    ensures manager.algorithm == AlphabetBased ==> LabelsSat(res.Graph())
  {
    hide *;
    res := Determinize(manager, a);
    UsableUnpack(manager, res);
    ghost var g := res.Graph();
    ghost var keys := res.loc.Keys;
    SwappedMeans(g);
    SwapFinals(res);
    KeysBelow(manager, res, keys);
    UsablePack(manager, res);
  }

  lemma KeysBelow(manager: AutomataManager, a: Automaton, keys: set<Loc>)
    requires a.loc.Keys == keys && forall l :: l in keys ==> l < manager.nextLoc
    ensures a.Below(manager)
  {
  }

  method Difference(manager: AutomataManager, a1: Automaton, a2: Automaton) returns (res: Automaton)
    requires a1.Usable(manager) && a2.Usable(manager)
    modifies manager
    ensures fresh(res) && res.Usable(manager) && old(manager.nextLoc) <= manager.nextLoc
    ensures forall l :: l in res.loc ==> old(manager.nextLoc) <= l
    ensures Lang(res.Graph()) == Lang(a1.Graph()) * ComplementLanguage.Complement(Lang(a2.Graph()))
    ensures LabelsSat(res.Graph()) && Trim(res.Graph())
  {
    hide *;
    UsableUnpack(manager, a1);
    UsableUnpack(manager, a2);
    var negA2 := Complement(manager, a2);
    UsableLater(manager, a1);
    res := Intersection(manager, a1, negA2);
  }

  /** The search of the emptiness check: a final location can be reached, whatever the labels, or not. */
  method EmptynessCheck(a: Automaton) returns (isEmpty: bool)
    requires a.Valid()
    ensures isEmpty <==> !CanAccept(a.Graph(), a.initial)
    ensures LabelsSat(a.Graph()) ==> (isEmpty <==> Lang(a.Graph()) == iset{})
    ensures (isEmpty <==> Lang(a.Graph()) == iset{}) <==>
            (CanAccept(a.Graph(), a.initial) ==> CanAccept(SatPart(a.Graph()), a.initial))
  {
    hide *;
    ghost var g := a.Graph();
    ValidUnpack(a);
    FinalList(a);
    isEmpty := true;
    if a.loc[a.initial].final {
      FinalCanAccept(g, a.initial);
      isEmpty := false;
    } else if a.finalLocations == [] {
      NoFinalNoAccept(g);
    } else {
      isEmpty := Search(a);
    }
    GraphEmptinessExact(g);
    if LabelsSat(g) {
      EmptyIffCannotAccept(g);
    }
  }

  method Search(a: Automaton) returns (isEmpty: bool)
    requires a.Valid() && a.initial !in a.Graph().final
    ensures isEmpty <==> !CanAccept(a.Graph(), a.initial)
  {
    hide *;
    ghost var g := a.Graph();
    ValidUnpack(a);
    isEmpty := true;
    var stack := [a.initial];
    var locationMap: set<Loc> := {a.initial};
    ghost var c: set<Trans>, expanded: set<Loc> := {}, {};
    SearchingStart(g);
    while stack != [] && isEmpty
      invariant isEmpty ==> Searching(g, locationMap, stack, c)
      invariant !isEmpty ==> CanAccept(g, g.init)
      invariant forall l :: l in stack ==> l !in expanded
      invariant expanded <= g.locs && expanded <= locationMap
      decreases g.locs - expanded, isEmpty
    {
      SearchingPop(g, locationMap, stack, c);
      var location := stack[0];
      stack := stack[1..];
      var ts := a.loc[location].transitions;
      ListStart(a, location);
      ghost var c0 := c;
      assert c0 + {} == c0;
      expanded := expanded + {location};
      var i := 0;
      while i < |ts| && isEmpty
        invariant 0 <= i <= |ts|
        invariant isEmpty ==> Following(g, locationMap, stack, c, location) && c == c0 + TransFrom(location, ts[..i])
        invariant !isEmpty ==> CanAccept(g, g.init)
        invariant forall l :: l in stack ==> l !in expanded
        invariant expanded <= locationMap
      {
        var dest := ts[i].end;
        ListNext(a, location, i);
        ghost var t := TransAt(a, location, i);
        FollowOne(g, locationMap, stack, c, location, t);
        if dest !in locationMap {
          if a.loc[dest].final {
            isEmpty := false;
          } else {
            stack := [dest] + stack;
            locationMap := locationMap + {dest};
          }
        }
        c := c + {t};
        i := i + 1;
      }
      if isEmpty {
        assert c == c0 + Leaving(g, {location});
        FollowedAll(g, locationMap, stack, c, location);
      }
    }
    if isEmpty {
      SearchingDone(g, locationMap, c);
    }
  }

  lemma FinalList(a: Automaton)
    requires a.Valid()
    ensures a.finalLocations == [] ==> a.Graph().final == {}
  {
  }

  lemma NoFinalNoAccept(g: Nfa)
    requires g.final == {}
    ensures !CanAccept(g, g.init)
  {
  }

  /** Inclusion of languages is decided exactly. */
  method Containment(manager: AutomataManager, a1: Automaton, a2: Automaton) returns (isContained: bool)
    requires a1.Usable(manager) && a2.Usable(manager)
    modifies manager
    ensures old(manager.nextLoc) <= manager.nextLoc
    ensures isContained <==> Lang(a1.Graph()) <= Lang(a2.Graph())
  {
    hide *;
    var difference := Difference(manager, a1, a2);
    UsableUnpack(manager, difference);
    isContained := EmptynessCheck(difference);
    InclusionIsEmptiness(Lang(a1.Graph()), Lang(a2.Graph()));
  }

  /** Equality of languages is decided exactly. */
  method Equals(manager: AutomataManager, a1: Automaton, a2: Automaton) returns (areEqual: bool)
    requires a1.Usable(manager) && a2.Usable(manager)
    modifies manager
    ensures areEqual <==> Lang(a1.Graph()) == Lang(a2.Graph())
  {
    hide *;
    UsableUnpack(manager, a1);
    UsableUnpack(manager, a2);
    areEqual := Containment(manager, a1, a2);
    if areEqual {
      UsableLater(manager, a1);
      UsableLater(manager, a2);
      areEqual := Containment(manager, a2, a1);
    }
  }
}
