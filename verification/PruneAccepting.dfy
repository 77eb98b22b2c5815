/** Pruning the locations that cannot reach a final location. */
module AcceptingSearch {
  import opened BoolExpr
  import opened Alphabet
  import opened Nfas
  import opened Automata
  import opened CopyGraphs

  /** Some final location can be reached, whatever the labels. */
  ghost predicate CanAccept(g: Nfa, l: Loc) {
    exists f :: f in g.final && Connected(g, l, f)
  }

  // ----- Arrays indexed by the identifiers of the locations

  ghost predicate Ids(loc: map<Loc, AutomataLoc>, n: nat) {
    && (forall l :: l in loc ==> 1 <= loc[l].id <= n)
    && (forall k, l :: k in loc && l in loc && k != l ==> loc[k].id != loc[l].id)
  }

  lemma ValidIds(a: Automaton)
    requires a.Valid()
    ensures Ids(a.loc, a.locationCount)
  {
    forall l | l in a.loc
      ensures exists i :: 0 <= i < |a.locations| && a.locations[i] == l
    {
      assert l in SetOf(a.locations);
    }
  }

  /** The locations whose flag is set. */
  ghost function SetIn(loc: map<Loc, AutomataLoc>, flags: seq<bool>): set<Loc> {
    set l | l in loc && 0 <= loc[l].id - 1 < |flags| && flags[loc[l].id - 1]
  }

  /** The list recorded for a location. */
  ghost function ListAt(loc: map<Loc, AutomataLoc>, lists: seq<seq<Loc>>, l: Loc): seq<Loc> {
    if l in loc && 0 <= loc[l].id - 1 < |lists| then lists[loc[l].id - 1] else []
  }

  lemma SetInUpdate(loc: map<Loc, AutomataLoc>, flags: seq<bool>, l: Loc)
    requires Ids(loc, |flags|) && l in loc
    ensures SetIn(loc, flags[loc[l].id - 1 := true]) == SetIn(loc, flags) + {l}
    ensures flags[loc[l].id - 1] <==> l in SetIn(loc, flags)
  {
  }

  lemma ListUpdate(loc: map<Loc, AutomataLoc>, lists: seq<seq<Loc>>, l: Loc, p: Loc)
    requires Ids(loc, |lists|) && l in loc
    ensures var lists' := lists[loc[l].id - 1 := [p] + lists[loc[l].id - 1]];
            forall q, r :: r in ListAt(loc, lists', q) <==> r in ListAt(loc, lists, q) || (q == l && r == p)
  {
  }

  // ----- Marks and predecessor lists

  ghost predicate IsEdge(g: Nfa, p: Loc, q: Loc) {
    exists t :: t in g.trans && t.src == p && t.dst == q
  }

  /** Every recorded predecessor is one, and has been visited. */
  ghost predicate PredsSound(g: Nfa, loc: map<Loc, AutomataLoc>, lists: seq<seq<Loc>>, visited: set<Loc>) {
    visited <= g.locs && forall q, p :: p in ListAt(loc, lists, q) ==> p in visited && IsEdge(g, p, q)
  }

  /** The transitions of c are recorded. */
  ghost predicate PredsComplete(loc: map<Loc, AutomataLoc>, lists: seq<seq<Loc>>, c: set<Trans>) {
    forall t :: t in c ==> t.src in ListAt(loc, lists, t.dst)
  }

  /** The recorded predecessors of a marked location are marked, unless it is pending. */
  ghost predicate Propagated(loc: map<Loc, AutomataLoc>, lists: seq<seq<Loc>>, marked: set<Loc>, pending: set<Loc>) {
    forall q, p :: q in marked && q !in pending && p in ListAt(loc, lists, q) ==> p in marked
  }

  ghost predicate MarksSound(g: Nfa, marked: set<Loc>, visited: set<Loc>) {
    forall l :: l in marked ==> l in visited && CanAccept(g, l)
  }

  lemma {:induction false} ConnectedBack(g: Nfa, t: Trans, n: nat, q: Loc)
    requires t in g.trans && PathN(g, t.dst, n, q)
    ensures Connected(g, t.src, q)
    decreases n
  {
    if n == 0 {
      ConnectedSelf(g, t.src);
      ConnectedStep(g, t.src, t);
    } else {
      var u :| u in g.trans && u.dst == q && PathN(g, t.dst, n - 1, u.src);
      ConnectedBack(g, t, n - 1, u.src);
      ConnectedStep(g, t.src, u);
    }
  }

  lemma CanAcceptBack(g: Nfa, t: Trans)
    requires t in g.trans && CanAccept(g, t.dst)
    ensures CanAccept(g, t.src)
  {
    var f :| f in g.final && Connected(g, t.dst, f);
    var n: nat :| PathN(g, t.dst, n, f);
    ConnectedBack(g, t, n, f);
  }

  lemma MarkPred(g: Nfa, loc: map<Loc, AutomataLoc>, lists: seq<seq<Loc>>, marked: set<Loc>, visited: set<Loc>,
                 pending: set<Loc>, l: Loc, p: Loc)
    requires PredsSound(g, loc, lists, visited) && MarksSound(g, marked, visited) && l in marked
    requires p in ListAt(loc, lists, l)
    requires Propagated(loc, lists, marked, pending)
    ensures MarksSound(g, marked + {p}, visited) && Propagated(loc, lists, marked + {p}, pending + {p})
  {
    assert IsEdge(g, p, l);
    var t :| t in g.trans && t.src == p && t.dst == l;
    CanAcceptBack(g, t);
  }

  /** What a propagation needs to know: all about one location, its list and its flag. */
  ghost predicate Marking(a: Automaton, preds: array<seq<Loc>>, reach: array<bool>, visited: set<Loc>)
    reads a, preds, reach
  {
    && a.Valid() && preds.Length == reach.Length == a.locationCount
    && PredsSound(a.Graph(), a.loc, preds[..], visited)
    && MarksSound(a.Graph(), SetIn(a.loc, reach[..]), visited)
  }

  lemma MarkingUnpack(a: Automaton, preds: array<seq<Loc>>, reach: array<bool>, visited: set<Loc>)
    requires Marking(a, preds, reach, visited)
    ensures a.Valid() && Ids(a.loc, a.locationCount) && preds.Length == reach.Length == a.locationCount
    ensures a.Graph().locs == a.loc.Keys
    ensures forall l :: l in a.loc ==> 0 <= a.loc[l].id - 1 < a.locationCount
    ensures forall l :: l in a.loc ==> (reach[a.loc[l].id - 1] <==> l in SetIn(a.loc, reach[..]))
    ensures forall l :: l in a.loc ==> preds[a.loc[l].id - 1] == ListAt(a.loc, preds[..], l)
    ensures forall l, p :: l in a.loc && p in ListAt(a.loc, preds[..], l) ==> p in a.loc
  {
    ValidIds(a);
  }

  lemma PropagatedDone(loc: map<Loc, AutomataLoc>, lists: seq<seq<Loc>>, marked: set<Loc>, pending: set<Loc>, l: Loc)
    requires Propagated(loc, lists, marked, pending + {l})
    requires forall p :: p in ListAt(loc, lists, l) ==> p in marked
    ensures Propagated(loc, lists, marked, pending)
  {
  }

  // ----- The depth-first search

  /** Every visited location on the stack has its unvisited successors above it. */
  ghost predicate Ordered(visited: set<Loc>, stack: seq<Loc>, c: set<Trans>) {
    forall t, i :: t in c && 0 <= i < |stack| && stack[i] == t.src && t.dst !in visited ==> t.dst in stack[..i]
  }

  /** What is still to visit: the search follows every scanned transition and knows no other location. */
  ghost predicate Reaching(g: Nfa, visited: set<Loc>, stack: seq<Loc>, c: set<Trans>) {
    && c <= Leaving(g, visited)
    && (forall t :: t in c ==> t.dst in visited || t.dst in stack)
    && (forall l :: l in visited || l in stack ==> l in g.locs && Connected(g, g.init, l))
    && (g.init in visited || g.init in stack)
    && Ordered(visited, stack, c)
  }

  ghost predicate FinalsMarked(g: Nfa, visited: set<Loc>, marked: set<Loc>) {
    forall l :: l in visited && l in g.final ==> l in marked
  }

  lemma ReachingStart(g: Nfa)
    requires Closed(g)
    ensures Reaching(g, {}, [g.init], Leaving(g, {}))
  {
    ConnectedSelf(g, g.init);
  }

  lemma ReachingPop(g: Nfa, visited: set<Loc>, stack: seq<Loc>)
    requires Reaching(g, visited, stack, Leaving(g, visited)) && stack != []
    ensures Reaching(g, visited + {stack[0]}, stack[1..], Leaving(g, visited))
    ensures stack[0] in g.locs
    ensures stack[0] in visited ==> forall t :: t in g.trans && t.src == stack[0] ==> t.dst in visited
  {
    var v, s := visited + {stack[0]}, stack[1..];
    assert forall l :: l in stack ==> l == stack[0] || l in s;
    assert stack[..0] == [];
    forall t, i | t in Leaving(g, visited) && 0 <= i < |s| && s[i] == t.src && t.dst !in v
      ensures t.dst in s[..i]
    {
      assert stack[i + 1] == t.src && t.dst in stack[..i + 1];
      assert stack[..i + 1] == [stack[0]] + s[..i];
    }
    assert forall t :: t in g.trans && t.src == stack[0] && stack[0] in visited ==> t in Leaving(g, visited);
  }

  lemma ReachingScan(g: Nfa, visited: set<Loc>, stack: seq<Loc>, c: set<Trans>, t: Trans)
    requires Closed(g) && Reaching(g, visited, stack, c) && t in g.trans && t.src in visited
    ensures Reaching(g, visited, if t.dst in visited then stack else [t.dst] + stack, c + {t})
  {
    ConnectedStep(g, g.init, t);
    if t.dst !in visited {
      var s := [t.dst] + stack;
      forall u, i | u in c + {t} && 0 <= i < |s| && s[i] == u.src && u.dst !in visited
        ensures u.dst in s[..i]
      {
        assert u.src in visited && i > 0;
        assert s[..i] == [t.dst] + stack[..i - 1];
        assert u in c ==> stack[i - 1] == u.src;
      }
    }
  }

  lemma ReachingDone(g: Nfa, visited: set<Loc>)
    requires Reaching(g, visited, [], Leaving(g, visited))
    ensures forall l :: l in visited <==> Connected(g, g.init, l)
  {
    forall l | Connected(g, g.init, l) ensures l in visited {
      var n: nat :| PathN(g, g.init, n, l);
      PathVisited(g, visited, g.init, n, l);
    }
  }

  lemma {:induction false} PathVisited(g: Nfa, visited: set<Loc>, p: Loc, n: nat, l: Loc)
    requires (forall t :: t in Leaving(g, visited) ==> t.dst in visited) && p in visited && PathN(g, p, n, l)
    ensures l in visited
    decreases n
  {
    if n > 0 {
      var t :| t in g.trans && t.dst == l && PathN(g, p, n - 1, t.src);
      PathVisited(g, visited, p, n - 1, t.src);
      assert t in Leaving(g, visited);
    }
  }

  lemma {:induction false} PathMarked(g: Nfa, loc: map<Loc, AutomataLoc>, lists: seq<seq<Loc>>, marked: set<Loc>, visited: set<Loc>, p: Loc, n: nat, l: Loc)
    requires Reaching(g, visited, [], Leaving(g, visited))
    requires PredsComplete(loc, lists, Leaving(g, visited)) && Propagated(loc, lists, marked, {})
    requires p in visited && PathN(g, p, n, l) && l in marked
    ensures p in marked
    decreases n
  {
    if n > 0 {
      var t :| t in g.trans && t.dst == l && PathN(g, p, n - 1, t.src);
      PathVisited(g, visited, p, n - 1, t.src);
      assert t in Leaving(g, visited);
      assert t.src in ListAt(loc, lists, l);
      PathMarked(g, loc, lists, marked, visited, p, n - 1, t.src);
    }
  }

  /** When the search is over, the marked locations are exactly those that can be reached from the
      initial location and can reach a final one. */
  lemma MarksExact(g: Nfa, loc: map<Loc, AutomataLoc>, lists: seq<seq<Loc>>, marked: set<Loc>, visited: set<Loc>)
    requires Reaching(g, visited, [], Leaving(g, visited)) && FinalsMarked(g, visited, marked)
    requires PredsComplete(loc, lists, Leaving(g, visited)) && Propagated(loc, lists, marked, {})
    requires MarksSound(g, marked, visited)
    ensures forall l :: l in marked <==> Connected(g, g.init, l) && CanAccept(g, l)
  {
    ReachingDone(g, visited);
    forall l | Connected(g, g.init, l) && CanAccept(g, l) ensures l in marked {
      var f :| f in g.final && Connected(g, l, f);
      var n: nat :| PathN(g, l, n, f);
      PathVisited(g, visited, l, n, f);
      PathMarked(g, loc, lists, marked, visited, l, n, f);
    }
  }

  // ----- Visiting and scanning a location

  lemma MarkSelf(g: Nfa, loc: map<Loc, AutomataLoc>, lists: seq<seq<Loc>>, marked: set<Loc>, visited: set<Loc>, l: Loc)
    requires MarksSound(g, marked, visited) && l in visited && CanAccept(g, l)
    requires Propagated(loc, lists, marked, {})
    ensures MarksSound(g, marked + {l}, visited) && Propagated(loc, lists, marked + {l}, {} + {l})
  {
  }

  lemma FinalCanAccept(g: Nfa, l: Loc)
    requires l in g.final
    ensures CanAccept(g, l)
  {
    ConnectedSelf(g, l);
  }

  /** One more visited location changes nothing but the finals that must be marked. */
  lemma VisitMore(a: Automaton, preds: array<seq<Loc>>, reach: array<bool>, visited: set<Loc>, l: Loc)
    requires Marking(a, preds, reach, visited) && l in a.loc
    ensures Marking(a, preds, reach, visited + {l})
    ensures FinalsMarked(a.Graph(), visited, SetIn(a.loc, reach[..])) && (a.loc[l].final ==> l in SetIn(a.loc, reach[..])) ==>
              FinalsMarked(a.Graph(), visited + {l}, SetIn(a.loc, reach[..]))
  {
  }

  lemma FinalsStayMarked(g: Nfa, visited: set<Loc>, marked0: set<Loc>, marked: set<Loc>)
    requires FinalsMarked(g, visited, marked0) && marked0 <= marked
    ensures FinalsMarked(g, visited, marked)
  {
  }

  lemma FinalsMore(g: Nfa, visited: set<Loc>, marked0: set<Loc>, marked: set<Loc>, l: Loc)
    requires FinalsMarked(g, visited, marked0) && marked0 <= marked && (l in g.final ==> l in marked)
    ensures FinalsMarked(g, visited + {l}, marked)
  {
  }

  /** Recording a transition whose destination, if it is marked, has a marked source. */
  lemma RecordPred(g: Nfa, loc: map<Loc, AutomataLoc>, lists: seq<seq<Loc>>, marked: set<Loc>, visited: set<Loc>, c: set<Trans>, t: Trans)
    requires Ids(loc, |lists|) && t.dst in loc && t in g.trans && t.src in visited
    requires PredsSound(g, loc, lists, visited) && PredsComplete(loc, lists, c)
    requires Propagated(loc, lists, marked, {}) && (t.dst in marked ==> t.src in marked)
    ensures var lists' := lists[loc[t.dst].id - 1 := [t.src] + lists[loc[t.dst].id - 1]];
            && PredsSound(g, loc, lists', visited) && PredsComplete(loc, lists', c + {t})
            && Propagated(loc, lists', marked, {})
  {
    var lists' := lists[loc[t.dst].id - 1 := [t.src] + lists[loc[t.dst].id - 1]];
    ListUpdate(loc, lists, t.dst, t.src);
    assert IsEdge(g, t.src, t.dst);
    hide ListAt, IsEdge;
    forall q, p | p in ListAt(loc, lists', q) ensures p in visited && IsEdge(g, p, q) {
      assert p in ListAt(loc, lists, q) || (q == t.dst && p == t.src);
    }
  }

  lemma SetInAt(loc: map<Loc, AutomataLoc>, flags: seq<bool>, l: Loc)
    requires Ids(loc, |flags|) && l in loc
    ensures 0 <= loc[l].id - 1 < |flags|
    ensures flags[loc[l].id - 1] <==> l in SetIn(loc, flags)
  {
  }

  lemma MarkedVisited(a: Automaton, preds: array<seq<Loc>>, reach: array<bool>, visited: set<Loc>)
    requires Marking(a, preds, reach, visited)
    ensures SetIn(a.loc, reach[..]) <= visited
  {
  }

  lemma MarkedCanAcceptIn(a: Automaton, preds: array<seq<Loc>>, reach: array<bool>, visited: set<Loc>, t: Trans)
    requires Marking(a, preds, reach, visited) && t in a.Graph().trans && t.dst in SetIn(a.loc, reach[..])
    ensures CanAccept(a.Graph(), t.src) && t.src in a.loc
  {
    CanAcceptBack(a.Graph(), t);
  }

  lemma ScanStart(a: Automaton, l: Loc, visited: set<Loc>)
    requires a.Valid() && l in a.loc
    ensures var ts := a.loc[l].transitions;
            && Leaving(a.Graph(), visited + {l}) == Leaving(a.Graph(), visited) + TransFrom(l, ts)
            && Leaving(a.Graph(), visited) + TransFrom(l, ts[..0]) == Leaving(a.Graph(), visited)
            && ts[..|ts|] == ts
  {
    LeavingMore(a, visited, l);
  }

  lemma ScanNext(a: Automaton, l: Loc, i: nat)
    requires a.Valid() && l in a.loc && i < |a.loc[l].transitions|
    ensures var ts := a.loc[l].transitions;
            var t := Trans(l, ts[i].lab, ts[i].end);
            && t in a.Graph().trans && t.dst in a.loc
            && TransFrom(l, ts[..i + 1]) == TransFrom(l, ts[..i]) + {t}
  {
    InGraph(a, l, i);
    TransFromNext(l, a.loc[l].transitions, i);
  }

  lemma MarksFound(a: Automaton, preds: array<seq<Loc>>, reach: array<bool>, visited: set<Loc>)
    requires Marking(a, preds, reach, visited)
    requires Reaching(a.Graph(), visited, [], Leaving(a.Graph(), visited))
    requires FinalsMarked(a.Graph(), visited, SetIn(a.loc, reach[..]))
    requires PredsComplete(a.loc, preds[..], Leaving(a.Graph(), visited))
    requires Propagated(a.loc, preds[..], SetIn(a.loc, reach[..]), {})
    ensures Ids(a.loc, a.locationCount) && reach.Length == a.locationCount
    ensures forall l :: l in a.loc ==> 0 <= a.loc[l].id - 1 < reach.Length
    ensures forall l :: l in a.loc ==>
              (reach[a.loc[l].id - 1] <==> Connected(a.Graph(), a.initial, l) && CanAccept(a.Graph(), l))
  {
    MarkingUnpack(a, preds, reach, visited);
    MarksExact(a.Graph(), a.loc, preds[..], SetIn(a.loc, reach[..]), visited);
  }

  lemma SearchStart(a: Automaton, preds: array<seq<Loc>>, reach: array<bool>, flags: array<bool>)
    requires a.Valid() && preds.Length == reach.Length == flags.Length == a.locationCount
    requires forall i :: 0 <= i < a.locationCount ==> preds[i] == [] && !reach[i] && !flags[i]
    ensures SetIn(a.loc, flags[..]) == {}
    ensures Marking(a, preds, reach, {})
    ensures Propagated(a.loc, preds[..], SetIn(a.loc, reach[..]), {})
    ensures PredsComplete(a.loc, preds[..], Leaving(a.Graph(), {}))
    ensures FinalsMarked(a.Graph(), {}, SetIn(a.loc, reach[..]))
  {
    assert SetIn(a.loc, reach[..]) == {};
  }
}

module AcceptingMarks {
  import opened BoolExpr
  import opened Alphabet
  import opened Nfas
  import opened Automata
  import opened CopyGraphs
  import opened AcceptingSearch

  /** Mark a location that is not marked yet. */
  method Mark(a: Automaton, l: Loc, preds: array<seq<Loc>>, reach: array<bool>, ghost visited: set<Loc>, ghost pending: set<Loc>, ghost from: Loc)
    requires Marking(a, preds, reach, visited) && l in a.loc && from in SetIn(a.loc, reach[..])
    requires l in ListAt(a.loc, preds[..], from)
    requires Propagated(a.loc, preds[..], SetIn(a.loc, reach[..]), pending)
    modifies reach
    ensures Marking(a, preds, reach, visited)
    ensures SetIn(a.loc, reach[..]) == old(SetIn(a.loc, reach[..])) + {l}
    ensures Propagated(a.loc, preds[..], SetIn(a.loc, reach[..]), pending + {l})
  {
    hide PredsSound, MarksSound, Propagated, SetIn, ListAt;
    MarkingUnpack(a, preds, reach, visited);
    MarkPred(a.Graph(), a.loc, preds[..], SetIn(a.loc, reach[..]), visited, pending, from, l);
    SetInUpdate(a.loc, reach[..], l);
    reach[a.loc[l].id - 1] := true;
  }

  /** Mark, recursively, the predecessors recorded for a marked location. */
  method MarkPredecessors(a: Automaton, l: Loc, preds: array<seq<Loc>>, reach: array<bool>, ghost visited: set<Loc>, ghost pending: set<Loc>)
    requires Marking(a, preds, reach, visited) && l in a.loc && l in SetIn(a.loc, reach[..])
    requires Propagated(a.loc, preds[..], SetIn(a.loc, reach[..]), pending + {l})
    modifies reach
    ensures Marking(a, preds, reach, visited)
    ensures old(SetIn(a.loc, reach[..])) <= SetIn(a.loc, reach[..])
    ensures Propagated(a.loc, preds[..], SetIn(a.loc, reach[..]), pending)
    decreases a.loc.Keys - SetIn(a.loc, reach[..])
  {
    hide *;
    MarkingUnpack(a, preds, reach, visited);
    ghost var before := SetIn(a.loc, reach[..]);
    var list := preds[a.loc[l].id - 1];
    var i := 0;
    while i < |list|
      invariant 0 <= i <= |list|
      invariant Marking(a, preds, reach, visited)
      invariant before <= SetIn(a.loc, reach[..])
      invariant Propagated(a.loc, preds[..], SetIn(a.loc, reach[..]), pending + {l})
      invariant forall j :: 0 <= j < i ==> list[j] in SetIn(a.loc, reach[..])
    {
      MarkingUnpack(a, preds, reach, visited);
      var p := list[i];
      if !reach[a.loc[p].id - 1] {
        Mark(a, p, preds, reach, visited, pending + {l}, l);
        MarkPredecessors(a, p, preds, reach, visited, pending + {l});
      }
      MarkingUnpack(a, preds, reach, visited);
      i := i + 1;
    }
    PropagatedDone(a.loc, preds[..], SetIn(a.loc, reach[..]), pending, l);
  }

  /** Mark a visited location that can reach a final one, and propagate to its predecessors. */
  method MarkAndPropagate(a: Automaton, l: Loc, preds: array<seq<Loc>>, reach: array<bool>, ghost visited: set<Loc>)
    requires Marking(a, preds, reach, visited) && l in a.loc && l in visited && CanAccept(a.Graph(), l)
    requires Propagated(a.loc, preds[..], SetIn(a.loc, reach[..]), {})
    modifies reach
    ensures Marking(a, preds, reach, visited)
    ensures old(SetIn(a.loc, reach[..])) + {l} <= SetIn(a.loc, reach[..])
    ensures Propagated(a.loc, preds[..], SetIn(a.loc, reach[..]), {})
  {
    hide PredsSound, MarksSound, Propagated, SetIn, ListAt, CanAccept;
    MarkingUnpack(a, preds, reach, visited);
    MarkSelf(a.Graph(), a.loc, preds[..], SetIn(a.loc, reach[..]), visited, l);
    SetInUpdate(a.loc, reach[..], l);
    reach[a.loc[l].id - 1] := true;
    MarkPredecessors(a, l, preds, reach, visited, {});
  }

  /** Insert a location among the recorded predecessors of another one. */
  method InsertPredecessor(a: Automaton, t: Transition, s1: Loc, preds: array<seq<Loc>>, reach: array<bool>,
                           ghost visited: set<Loc>, ghost c: set<Trans>)
    requires Marking(a, preds, reach, visited) && t.end in a.loc && s1 in visited
    requires Trans(s1, t.lab, t.end) in a.Graph().trans
    requires t.end in SetIn(a.loc, reach[..]) ==> s1 in SetIn(a.loc, reach[..])
    requires Propagated(a.loc, preds[..], SetIn(a.loc, reach[..]), {}) && PredsComplete(a.loc, preds[..], c)
    modifies preds
    ensures Marking(a, preds, reach, visited)
    ensures Propagated(a.loc, preds[..], SetIn(a.loc, reach[..]), {})
    ensures PredsComplete(a.loc, preds[..], c + {Trans(s1, t.lab, t.end)})
  {
    hide PredsSound, MarksSound, Propagated, PredsComplete, SetIn, ListAt;
    MarkingUnpack(a, preds, reach, visited);
    RecordPred(a.Graph(), a.loc, preds[..], SetIn(a.loc, reach[..]), visited, c, Trans(s1, t.lab, t.end));
    ghost var lists := preds[..];
    var i := a.loc[t.end].id - 1;
    preds[i] := [s1] + preds[i];
    assert preds[..] == lists[i := [s1] + lists[i]];
  }

  /** The body of the search, for one transition of the current location. */
  method ScanTransition(a: Automaton, s1: Loc, t: Transition, preds: array<seq<Loc>>, reach: array<bool>, flags: array<bool>,
                        stack: seq<Loc>, ghost visited: set<Loc>, ghost c: set<Trans>)
    returns (stack': seq<Loc>)
    requires reach != flags && flags.Length == a.locationCount && visited == SetIn(a.loc, flags[..])
    requires Marking(a, preds, reach, visited) && s1 in visited && t.end in a.loc
    requires Trans(s1, t.lab, t.end) in a.Graph().trans
    requires Propagated(a.loc, preds[..], SetIn(a.loc, reach[..]), {}) && PredsComplete(a.loc, preds[..], c)
    requires FinalsMarked(a.Graph(), visited, SetIn(a.loc, reach[..]))
    requires Reaching(a.Graph(), visited, stack, c)
    modifies preds, reach
    ensures Marking(a, preds, reach, visited)
    ensures Propagated(a.loc, preds[..], SetIn(a.loc, reach[..]), {})
    ensures PredsComplete(a.loc, preds[..], c + {Trans(s1, t.lab, t.end)})
    ensures FinalsMarked(a.Graph(), visited, SetIn(a.loc, reach[..]))
    ensures Reaching(a.Graph(), visited, stack', c + {Trans(s1, t.lab, t.end)})
    ensures t.end in visited ==> stack' == stack
  {
    hide *;
    MarkingUnpack(a, preds, reach, visited);
    ValidUnpack(a);
    SetInAt(a.loc, flags[..], t.end);
    ReachingScan(a.Graph(), visited, stack, c, Trans(s1, t.lab, t.end));
    ghost var marked := SetIn(a.loc, reach[..]);
    stack' := stack;
    if !flags[a.loc[t.end].id - 1] {
      stack' := [t.end] + stack;
      MarkedVisited(a, preds, reach, visited);
    } else if reach[a.loc[t.end].id - 1] {
      MarkedCanAcceptIn(a, preds, reach, visited, Trans(s1, t.lab, t.end));
      MarkAndPropagate(a, s1, preds, reach, visited);
      FinalsStayMarked(a.Graph(), visited, marked, SetIn(a.loc, reach[..]));
    }
    InsertPredecessor(a, t, s1, preds, reach, visited, c);
  }

  /** The body of the search: a location is visited, maybe not for the first time. */
  method VisitLocation(a: Automaton, s1: Loc, preds: array<seq<Loc>>, reach: array<bool>, flags: array<bool>, stack: seq<Loc>,
                       ghost visited: set<Loc>)
    returns (stack': seq<Loc>)
    requires reach != flags && flags.Length == a.locationCount && visited == SetIn(a.loc, flags[..])
    requires Marking(a, preds, reach, visited) && s1 in a.loc
    requires Propagated(a.loc, preds[..], SetIn(a.loc, reach[..]), {})
    requires PredsComplete(a.loc, preds[..], Leaving(a.Graph(), visited))
    requires FinalsMarked(a.Graph(), visited, SetIn(a.loc, reach[..]))
    requires Reaching(a.Graph(), visited + {s1}, stack, Leaving(a.Graph(), visited))
    requires s1 in visited ==> forall t :: t in a.Graph().trans && t.src == s1 ==> t.dst in visited
    modifies preds, reach, flags
    ensures SetIn(a.loc, flags[..]) == visited + {s1}
    ensures Marking(a, preds, reach, visited + {s1})
    ensures Propagated(a.loc, preds[..], SetIn(a.loc, reach[..]), {})
    ensures PredsComplete(a.loc, preds[..], Leaving(a.Graph(), visited + {s1}))
    ensures FinalsMarked(a.Graph(), visited + {s1}, SetIn(a.loc, reach[..]))
    ensures Reaching(a.Graph(), visited + {s1}, stack', Leaving(a.Graph(), visited + {s1}))
    ensures s1 in visited ==> stack' == stack
  {
    hide *;
    MarkingUnpack(a, preds, reach, visited);
    ValidUnpack(a);
    SetInUpdate(a.loc, flags[..], s1);
    ghost var g, marked, v := a.Graph(), SetIn(a.loc, reach[..]), visited + {s1};
    VisitMore(a, preds, reach, visited, s1);
    flags[a.loc[s1].id - 1] := true;
    if a.loc[s1].final {
      FinalCanAccept(g, s1);
      MarkAndPropagate(a, s1, preds, reach, v);
    }
    FinalsMore(g, visited, marked, SetIn(a.loc, reach[..]), s1);
    var ts := a.loc[s1].transitions;
    ghost var c := Leaving(g, visited);
    ScanStart(a, s1, visited);
    stack' := stack;
    var i := 0;
    while i < |ts|
      invariant 0 <= i <= |ts|
      invariant v == SetIn(a.loc, flags[..])
      invariant Marking(a, preds, reach, v)
      invariant Propagated(a.loc, preds[..], SetIn(a.loc, reach[..]), {})
      invariant PredsComplete(a.loc, preds[..], c + TransFrom(s1, ts[..i]))
      invariant FinalsMarked(g, v, SetIn(a.loc, reach[..]))
      invariant Reaching(g, v, stack', c + TransFrom(s1, ts[..i]))
      invariant s1 in visited ==> stack' == stack
    {
      ScanNext(a, s1, i);
      stack' := ScanTransition(a, s1, ts[i], preds, reach, flags, stack', v, c + TransFrom(s1, ts[..i]));
      assert c + TransFrom(s1, ts[..i + 1]) == c + TransFrom(s1, ts[..i]) + {Trans(s1, ts[i].lab, ts[i].end)};
      i := i + 1;
    }
  }

  /** The search: a location is marked exactly if it can be reached from the initial location and
      can reach a final one.  A location may be pushed several times, since it is only known to be
      visited when it is popped. */
  method MarkAccepting(a: Automaton) returns (reach: array<bool>)
    requires a.Valid()
    ensures fresh(reach) && reach.Length == a.locationCount && Ids(a.loc, a.locationCount)
    ensures forall l :: l in a.loc ==> 1 <= a.loc[l].id <= a.locationCount
    ensures forall l :: l in a.loc ==>
              (reach[a.loc[l].id - 1] <==> Connected(a.Graph(), a.initial, l) && CanAccept(a.Graph(), l))
  {
    hide *;
    ValidUnpack(a);
    reach := new bool[a.locationCount];
    var flags := new bool[a.locationCount];
    var preds := new seq<Loc>[a.locationCount];
    for i := 0 to a.locationCount
      invariant forall j :: 0 <= j < i ==> preds[j] == [] && !reach[j] && !flags[j]
    {
      reach[i], flags[i], preds[i] := false, false, [];
    }
    ghost var g, visited: set<Loc> := a.Graph(), {};
    SearchStart(a, preds, reach, flags);
    ReachingStart(g);
    var stack := [a.initial];
    while stack != []
      invariant visited == SetIn(a.loc, flags[..])
      invariant Marking(a, preds, reach, visited)
      invariant Propagated(a.loc, preds[..], SetIn(a.loc, reach[..]), {})
      invariant PredsComplete(a.loc, preds[..], Leaving(g, visited))
      invariant FinalsMarked(g, visited, SetIn(a.loc, reach[..]))
      invariant Reaching(g, visited, stack, Leaving(g, visited))
      decreases g.locs - visited, |stack|
    {
      ReachingPop(g, visited, stack);
      var s1 := stack[0];
      stack := VisitLocation(a, s1, preds, reach, flags, stack[1..], visited);
      visited := visited + {s1};
    }
    MarksFound(a, preds, reach, visited);
  }
}
