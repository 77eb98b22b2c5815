/** The choice between the two ways of combining transitions, and the support sets it computes. */
module AlgoChooser {
  import opened BoolExpr
  import opened Alphabet
  import opened Sets
  import opened Nfas
  import opened Automata

  /** The propositions that occur in the labels of a transition list. */
  ghost function ListSupport(ts: seq<Transition>): set<Prop> {
    set i, v | 0 <= i < |ts| && v in Support(ts[i].lab) :: v
  }

  ghost function SetSupport(loc: map<Loc, AutomataLoc>, ls: set<Loc>): set<Prop> {
    set l, v | l in ls && l in loc && v in ListSupport(loc[l].transitions) :: v
  }

  ghost function SetTransCount(loc: map<Loc, AutomataLoc>, ls: seq<Loc>): nat {
    if ls == [] then 0
    else SetTransCount(loc, ls[..|ls| - 1]) + if ls[|ls| - 1] in loc then |loc[ls[|ls| - 1]].transitions| else 0
  }

  method ComputeSupportSet(l: AutomataLoc) returns (support: set<Prop>)
    ensures support == ListSupport(l.transitions)
  {
    support := {};
    var ts := l.transitions;
    var i := 0;
    while i < |ts|
      invariant 0 <= i <= |ts|
      invariant support == ListSupport(ts[..i])
    {
      assert ts[..i + 1] == ts[..i] + [ts[i]];
      ListSupportPush(ts[..i], ts[i]);
      support := support + Support(ts[i].lab);
      i := i + 1;
    }
    assert ts[..i] == ts;
  }

  lemma ListSupportPush(ts: seq<Transition>, t: Transition)
    ensures ListSupport(ts + [t]) == ListSupport(ts) + Support(t.lab)
  {
    forall v | v in ListSupport(ts) ensures v in ListSupport(ts + [t]) {
      var i :| 0 <= i < |ts| && v in Support(ts[i].lab);
      assert (ts + [t])[i] == ts[i];
    }
    forall v | v in Support(t.lab) ensures v in ListSupport(ts + [t]) {
      assert (ts + [t])[|ts|] == t;
    }
  }

  /** The members of a set, in the order in which an iterator delivers them. */
  method Members<T(==)>(s: set<T>) returns (list: seq<T>)
    ensures Distinct(list) && SetOf(list) == s
  {
    list := [];
    var rest := s;
    while rest != {}
      invariant Distinct(list) && SetOf(list) + rest == s && SetOf(list) !! rest
      decreases rest
    {
      var x :| x in rest;
      SetOfAppend(list, x);
      list := list + [x];
      rest := rest - {x};
    }
  }

  lemma SetOfAppend<T>(s: seq<T>, x: T)
    ensures SetOf(s + [x]) == SetOf(s) + {x}
  {
    assert forall y :: y in s + [x] <==> y in s || y == x;
  }

  /** The alphabet over a support set: the minterms over some enumeration of it. */
  ghost predicate IsAlphabet(alphabet: set<Label>, support: set<Prop>) {
    exists props: seq<Prop> :: Distinct(props) && SetOf(props) == support && alphabet == Minterms(props)
  }

  method GetAlphabet(support: set<Prop>) returns (alphabet: set<Label>)
    ensures IsAlphabet(alphabet, support)
  {
    var props := Members(support);
    alphabet := AlphabetFromIter(props);
  }

  /** Every letter belongs to a symbol. */
  lemma AlphabetCovers(alphabet: set<Label>, support: set<Prop>, a: Letter) returns (m: Label)
    requires IsAlphabet(alphabet, support)
    ensures m in alphabet && Holds(m, a)
  {
    var props: seq<Prop> :| Distinct(props) && SetOf(props) == support && alphabet == Minterms(props);
    AlphabetPartition(props, a);
    m := MintermOf(props, a);
  }

  lemma AlphabetSat(alphabet: set<Label>, support: set<Prop>, m: Label)
    requires IsAlphabet(alphabet, support) && m in alphabet
    ensures IsSat(m)
  {
    var props: seq<Prop> :| Distinct(props) && SetOf(props) == support && alphabet == Minterms(props);
    MintermSatisfiable(props, m);
    var a: Letter :| Holds(m, a);
    HoldsIsSat(m, a);
  }

  /** A symbol decides the labels over the support. */
  lemma AlphabetDecides(alphabet: set<Label>, support: set<Prop>, m: Label, lab: Label, a: Letter)
    requires IsAlphabet(alphabet, support) && m in alphabet && Holds(m, a) && Support(lab) <= support
    ensures IsModel(lab, m) <==> Holds(lab, a)
  {
    var props: seq<Prop> :| Distinct(props) && SetOf(props) == support && alphabet == Minterms(props);
    SymbolDecides(props, m, lab, a);
  }

  function Heuristic(ap: nat, transitionCount: nat): AlgorithmType {
    if transitionCount * transitionCount < Pow2(ap) then TransitionsBased else AlphabetBased
  }

  class AutomataAlgoChooser {
    var hasPermanentData: bool
    var permanentSupport: set<Prop>
    var permanentTransitionCount: nat
    var lastSupport: set<Prop>

    constructor ()
      ensures !hasPermanentData && permanentSupport == {} && lastSupport == {}
    {
      hasPermanentData, permanentSupport, permanentTransitionCount, lastSupport := false, {}, 0, {};
    }

    static predicate NeedsSupport(manager: AutomataManager) {
      manager.algorithm == HeuristicBased || manager.algorithm == AlphabetBased
    }

    method SetPermanentLocation(manager: AutomataManager, l: AutomataLoc)
      modifies this
      ensures NeedsSupport(manager) ==> permanentSupport == ListSupport(l.transitions)
    {
      if NeedsSupport(manager) {
        hasPermanentData := true;
        permanentSupport := ComputeSupportSet(l);
        permanentTransitionCount := |l.transitions|;
      }
    }

    method Decide(manager: AutomataManager, transitionCount: nat) returns (t: AlgorithmType)
      ensures t != HeuristicBased && (t == AlphabetBased ==> NeedsSupport(manager))
      ensures manager.algorithm != HeuristicBased ==> t == manager.algorithm
    {
      if manager.algorithm == HeuristicBased {
        t := Heuristic(|lastSupport|, if hasPermanentData then permanentTransitionCount + 1 else transitionCount);
      } else {
        t := manager.algorithm;
      }
    }

    method ChooseFromLocationCouple(manager: AutomataManager, s1: AutomataLoc, s2: AutomataLoc) returns (t: AlgorithmType)
      modifies this
      ensures t != HeuristicBased && (manager.algorithm != HeuristicBased ==> t == manager.algorithm)
      ensures t == AlphabetBased ==> NeedsSupport(manager)
      ensures t == AlphabetBased ==>
                lastSupport == ListSupport(s1.transitions) + ListSupport(s2.transitions) + permanentSupport
      ensures permanentSupport == old(permanentSupport)
    {
      if NeedsSupport(manager) {
        lastSupport := {};
        var support := ComputeSupportSet(s1);
        lastSupport := lastSupport + support;
        support := ComputeSupportSet(s2);
        lastSupport := lastSupport + support;
        lastSupport := lastSupport + permanentSupport;
      }
      t := Decide(manager, |s1.transitions| + |s2.transitions|);
    }

    method ChooseFromTrans(manager: AutomataManager, trans: Transition) returns (t: AlgorithmType)
      modifies this
      ensures t != HeuristicBased && (manager.algorithm != HeuristicBased ==> t == manager.algorithm)
      ensures t == AlphabetBased ==> NeedsSupport(manager)
      ensures t == AlphabetBased ==> lastSupport == Support(trans.lab) + permanentSupport
      ensures permanentSupport == old(permanentSupport)
    {
      if NeedsSupport(manager) {
        lastSupport := {};
        lastSupport := lastSupport + Support(trans.lab);
        lastSupport := lastSupport + permanentSupport;
      }
      t := Decide(manager, 1);
    }

    method ChooseFromLocationSet(manager: AutomataManager, loc: map<Loc, AutomataLoc>, ls: set<Loc>) returns (t: AlgorithmType)
      requires ls <= loc.Keys
      modifies this
      ensures t != HeuristicBased && (manager.algorithm != HeuristicBased ==> t == manager.algorithm)
      ensures t == AlphabetBased ==> NeedsSupport(manager)
      ensures t == AlphabetBased ==> lastSupport == SetSupport(loc, ls) + permanentSupport
      ensures permanentSupport == old(permanentSupport)
    {
      var members := Members(ls);
      if NeedsSupport(manager) {
        lastSupport := BuildSetSupport(loc, members);
        lastSupport := lastSupport + permanentSupport;
      }
      var count := CountTrans(loc, members);
      t := Decide(manager, count);
    }

    static method BuildSetSupport(loc: map<Loc, AutomataLoc>, members: seq<Loc>) returns (support: set<Prop>)
      requires SetOf(members) <= loc.Keys
      ensures support == SetSupport(loc, SetOf(members))
    {
      support := {};
      var i := 0;
      while i < |members|
        invariant 0 <= i <= |members|
        invariant support == SetSupport(loc, SetOf(members[..i]))
      {
        assert members[i] in SetOf(members);
        var s := ComputeSupportSet(loc[members[i]]);
        SetOfAppend(members[..i], members[i]);
        assert members[..i + 1] == members[..i] + [members[i]];
        support := support + s;
        i := i + 1;
      }
      assert members[..i] == members;
    }

    static method CountTrans(loc: map<Loc, AutomataLoc>, members: seq<Loc>) returns (count: nat)
      requires SetOf(members) <= loc.Keys
      ensures count == SetTransCount(loc, members)
    {
      count := 0;
      var i := 0;
      while i < |members|
        invariant 0 <= i <= |members|
        invariant count == SetTransCount(loc, members[..i])
      {
        assert members[i] in SetOf(members);
        assert members[..i + 1][..i] == members[..i];
        count := count + |loc[members[i]].transitions|;
        i := i + 1;
      }
      assert members[..i] == members;
    }
  }
}
