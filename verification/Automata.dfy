/** The automaton object: its locations, their records and the two location lists. */
module Automata {
  import opened BoolExpr
  import opened Alphabet
  import opened Nfas

  datatype AlgorithmType = AlphabetBased | TransitionsBased | HeuristicBased

  /** The manager under its default options; `nextLoc` stands for the memory allocator, which
      never hands out an address twice. */
  class AutomataManager {
    var nextLoc: Loc
    const algorithm: AlgorithmType

    constructor (algorithm: AlgorithmType)
      ensures nextLoc == 0 && this.algorithm == algorithm
    {
      nextLoc := 0;
      this.algorithm := algorithm;
    }
  }

  datatype Transition = Transition(lab: Label, end: Loc)

  /** The record of a location: its identifier, its final flag and its transition list, head first. */
  datatype AutomataLoc = AutomataLoc(id: int, final: bool, transitions: seq<Transition>)

  ghost function TransFrom(l: Loc, ts: seq<Transition>): set<Trans> {
    set i | 0 <= i < |ts| :: Trans(l, ts[i].lab, ts[i].end)
  }

  ghost function TransOf(loc: map<Loc, AutomataLoc>): set<Trans> {
    set l, i | l in loc && 0 <= i < |loc[l].transitions| ::
      Trans(l, loc[l].transitions[i].lab, loc[l].transitions[i].end)
  }

  ghost function FinalOf(loc: map<Loc, AutomataLoc>): set<Loc> {
    set l | l in loc && loc[l].final
  }

  class Automaton {
    var initial: Loc
    var locations: seq<Loc>
    var locationCount: nat
    var finalLocations: seq<Loc>
    var sink: Option<Loc>
    var loc: map<Loc, AutomataLoc>

    ghost function Graph(): Nfa
      reads this
    {
      Nfa(initial, loc.Keys, FinalOf(loc), TransOf(loc), sink)
    }

    /** Identifiers are 1..locationCount, in the order in which the locations were added; the
        final list holds the locations flagged final; every address is one of this automaton. */
    ghost predicate Valid()
      reads this
    {
      && Closed(Graph())
      && |locations| == locationCount
      && SetOf(locations) == loc.Keys
      && (forall i :: 0 <= i < |locations| ==> loc[locations[i]].id == locationCount - i)
      && SetOf(finalLocations) == Graph().final
    }

    /** Every location was allocated by the manager. */
    ghost predicate Below(manager: AutomataManager)
      reads this, manager
    {
      forall l :: l in loc ==> l < manager.nextLoc
    }

    /** What every operation requires of its operands and promises of its result. */
    ghost predicate Usable(manager: AutomataManager)
      reads this, manager
    {
      Valid() && Below(manager) && SinkOk(Graph())
    }

    /** The automaton with one location, initial and not final. */
    constructor Empty(manager: AutomataManager)
      modifies manager
      ensures Valid() && Below(manager)
      ensures manager.nextLoc == old(manager.nextLoc) + 1
      ensures initial == old(manager.nextLoc) && initial in loc
      ensures Graph() == Single(old(manager.nextLoc), false)
    {
      var l := manager.nextLoc;
      initial := l;
      locations := [l];
      locationCount := 1;
      finalLocations := [];
      sink := None;
      loc := map[l := AutomataLoc(1, false, [])];
      new;
      manager.nextLoc := manager.nextLoc + 1;
    }

    /** Create a location and add it: it gets the next identifier. */
    method AddLoc(manager: AutomataManager, final: bool) returns (l: Loc)
      requires Valid() && Below(manager)
      modifies this, manager
      ensures Valid() && Below(manager)
      ensures l == old(manager.nextLoc) && manager.nextLoc == l + 1
      ensures Graph() == WithLoc(old(Graph()), l, final)
      ensures forall k :: k in old(loc) ==> k in loc && loc[k] == old(loc)[k]
    {
      l := manager.nextLoc;
      manager.nextLoc := manager.nextLoc + 1;
      locationCount := locationCount + 1;
      ghost var before := loc;
      loc := loc[l := AutomataLoc(locationCount, final, [])];
      SetOfPush(l, locations);
      SetOfPush(l, finalLocations);
      locations := [l] + locations;
      if final {
        finalLocations := [l] + finalLocations;
      }
      assert FinalOf(loc) == if final then FinalOf(before) + {l} else FinalOf(before);
      AddLocKeepsTrans(before, l, AutomataLoc(locationCount, final, []));
    }

    /** Flag a location final or not, and keep the list of the final locations up to date. */
    method SetLocationFinal(l: Loc, isFinal: bool)
      requires Valid() && l in loc
      modifies this
      ensures Valid()
      ensures Graph() == WithFinal(old(Graph()), l, isFinal)
      ensures loc.Keys == old(loc.Keys) && initial == old(initial)
    {
      loc := loc[l := loc[l].(final := isFinal)];
      FlagKeepsTrans(old(loc), l, isFinal);
      assert FinalOf(loc) == if isFinal then FinalOf(old(loc)) + {l} else FinalOf(old(loc)) - {l};
      if isFinal {
        SetOfPush(l, finalLocations);
        finalLocations := [l] + finalLocations;
      } else {
        var kept: seq<Loc> := [];
        ghost var all, after := finalLocations, loc;
        while finalLocations != []
          invariant SetOf(kept) + SetOf(finalLocations) - {l} == SetOf(all) - {l}
          invariant l !in kept && loc == after && locations == old(locations)
          invariant initial == old(initial) && locationCount == old(locationCount) && sink == old(sink)
          decreases |finalLocations|
        {
          var head := finalLocations[0];
          SetOfPush(head, finalLocations[1..]);
          assert [head] + finalLocations[1..] == finalLocations;
          SetOfPush(head, kept);
          finalLocations := finalLocations[1..];
          if head != l {
            kept := [head] + kept;
          }
        }
        finalLocations := kept;
      }
    }

    method CreateTransition(src: Loc, dst: Loc, lab: Label)
      requires Valid() && src in loc && dst in loc
      modifies this
      ensures Valid()
      ensures Graph() == WithTrans(old(Graph()), Trans(src, lab, dst))
      ensures src in loc && loc[src].transitions == [Transition(lab, dst)] + old(loc[src].transitions)
    {
      ghost var before := loc;
      loc := loc[src := loc[src].(transitions := [Transition(lab, dst)] + loc[src].transitions)];
      PushTrans(before, src, Transition(lab, dst));
    }

    /** Give the i-th transition of a location another label. */
    method SetTransitionLabel(src: Loc, i: nat, lab: Label)
      requires Valid() && src in loc && i < |loc[src].transitions|
      modifies this
      ensures Valid()
      ensures Graph() == old(Graph()).(trans := Graph().trans)
      ensures Relabelled(old(Graph()).trans, Graph().trans, src, old(loc[src].transitions[i]), lab)
      ensures src in loc && loc[src].transitions == old(loc[src].transitions)[i := Transition(lab, old(loc[src].transitions[i].end))]
    {
      var t := loc[src].transitions[i];
      ghost var before := loc;
      loc := loc[src := loc[src].(transitions := loc[src].transitions[i := Transition(lab, t.end)])];
      RelabelTrans(before, src, i, lab);
    }

    method SetSink(l: Loc)
      requires Valid() && l in loc
      modifies this
      ensures Valid()
      ensures Graph() == old(Graph()).(sink := Some(l)) && loc == old(loc)
    {
      sink := Some(l);
    }
  }

  /** From the transitions b to the transitions c, the label of one transition is replaced. */
  ghost predicate Relabelled(b: set<Trans>, c: set<Trans>, src: Loc, t: Transition, lab: Label) {
    && Trans(src, t.lab, t.end) in b && Trans(src, lab, t.end) in c
    && c <= b + {Trans(src, lab, t.end)}
    && b <= c + {Trans(src, t.lab, t.end)}
  }

  lemma RelabelTrans(loc: map<Loc, AutomataLoc>, src: Loc, i: nat, lab: Label)
    requires src in loc && i < |loc[src].transitions|
    ensures var t := loc[src].transitions[i];
            Relabelled(TransOf(loc), TransOf(loc[src := loc[src].(transitions := loc[src].transitions[i := Transition(lab, t.end)])]), src, t, lab)
  {
    var t := loc[src].transitions[i];
    var m := loc[src := loc[src].(transitions := loc[src].transitions[i := Transition(lab, t.end)])];
    assert m[src].transitions[i] == Transition(lab, t.end);
    forall u | u in TransOf(loc) ensures u in TransOf(m) + {Trans(src, t.lab, t.end)} {
      var j :| u.src in loc && 0 <= j < |loc[u.src].transitions| &&
               u == Trans(u.src, loc[u.src].transitions[j].lab, loc[u.src].transitions[j].end);
      if u.src != src || j != i {
        assert m[u.src].transitions[j] == loc[u.src].transitions[j];
      }
    }
    forall u | u in TransOf(m) ensures u in TransOf(loc) + {Trans(src, lab, t.end)} {
      var j :| u.src in m && 0 <= j < |m[u.src].transitions| &&
               u == Trans(u.src, m[u.src].transitions[j].lab, m[u.src].transitions[j].end);
      if u.src != src || j != i {
        assert m[u.src].transitions[j] == loc[u.src].transitions[j];
      }
    }
  }

  /** An empty result automaton whose initial location has a given final flag. */
  method NewResult(manager: AutomataManager, isFinal: bool) returns (res: Automaton)
    modifies manager
    ensures fresh(res) && res.Valid() && res.Below(manager)
    ensures res.initial == old(manager.nextLoc) && manager.nextLoc == old(manager.nextLoc) + 1
    ensures res.Graph() == Single(res.initial, isFinal)
  {
    res := new Automaton.Empty(manager);
    res.SetLocationFinal(res.initial, isFinal);
  }

  lemma SetOfPush<T>(x: T, s: seq<T>)
    ensures SetOf([x] + s) == SetOf(s) + {x}
  {
    assert [x] + s == [x] + s[..];
  }

  lemma AddLocKeepsTrans(loc: map<Loc, AutomataLoc>, l: Loc, r: AutomataLoc)
    requires l !in loc && r.transitions == []
    ensures TransOf(loc[l := r]) == TransOf(loc)
  {
    var m := loc[l := r];
    forall t | t in TransOf(loc) ensures t in TransOf(m) {
      var i :| t.src in loc && 0 <= i < |loc[t.src].transitions| &&
               t == Trans(t.src, loc[t.src].transitions[i].lab, loc[t.src].transitions[i].end);
      assert m[t.src].transitions[i] == loc[t.src].transitions[i];
    }
  }

  lemma FlagKeepsTrans(loc: map<Loc, AutomataLoc>, l: Loc, f: bool)
    requires l in loc
    ensures TransOf(loc[l := loc[l].(final := f)]) == TransOf(loc)
  {
    var m := loc[l := loc[l].(final := f)];
    assert forall k :: k in loc ==> m[k].transitions == loc[k].transitions;
  }

  lemma PushTrans(loc: map<Loc, AutomataLoc>, src: Loc, t: Transition)
    requires src in loc
    ensures TransOf(loc[src := loc[src].(transitions := [t] + loc[src].transitions)]) ==
            TransOf(loc) + {Trans(src, t.lab, t.end)}
  {
    var m := loc[src := loc[src].(transitions := [t] + loc[src].transitions)];
    assert m[src].transitions[0] == t;
    forall u | u in TransOf(loc) ensures u in TransOf(m) {
      var i :| u.src in loc && 0 <= i < |loc[u.src].transitions| &&
               u == Trans(u.src, loc[u.src].transitions[i].lab, loc[u.src].transitions[i].end);
      assert m[u.src].transitions[if u.src == src then i + 1 else i] == loc[u.src].transitions[i];
    }
    forall u | u in TransOf(m) ensures u in TransOf(loc) + {Trans(src, t.lab, t.end)} {
      var i :| u.src in m && 0 <= i < |m[u.src].transitions| &&
               u == Trans(u.src, m[u.src].transitions[i].lab, m[u.src].transitions[i].end);
      if u.src == src && i > 0 {
        assert m[src].transitions[i] == loc[src].transitions[i - 1];
      }
    }
  }
}
