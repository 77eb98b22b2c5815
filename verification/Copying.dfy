/** Copying the reachable part of an automaton into another one: the operations. */
module Copying {
  import opened BoolExpr
  import opened Alphabet
  import opened Nfas
  import opened Automata
  import opened CopyGraphs

  /** Create the copy of a location, and let it be the sink if it is the copy of the sink. */
  method CreateCopy(manager: AutomataManager, self: Automaton, source: Automaton, key: Loc) returns (l: Loc)
    requires self.Valid() && self.Below(manager) && source.Valid() && self != source
    requires key in source.loc
    modifies self, manager
    ensures self.Valid() && self.Below(manager)
    ensures l == old(manager.nextLoc) && manager.nextLoc == l + 1
    ensures self.Graph() == WithCopy(source.Graph(), old(self.Graph()), key, l)
  {
    l := self.AddLoc(manager, source.loc[key].final);
    if source.sink == Some(key) {
      self.SetSink(l);
    }
  }

  method HashFindOrCreateLoc(manager: AutomataManager, self: Automaton, hash: LocHash, source: Automaton, key: Loc)
    returns (hash': LocHash, l: Loc)
    requires Ready(manager, self, hash, source)
    requires key in source.loc
    modifies self, manager
    ensures Ready(manager, self, hash', source)
    ensures hash'.Keys == hash.Keys + {key} && hash'[key] == l
    ensures Extends(source.Graph(), old(self.Graph()), Visible(source.Graph(), old(self.Graph()), hash, key),
                    old(manager.nextLoc), self.Graph(), hash', manager.nextLoc)
    ensures self.Graph().trans == old(self.Graph()).trans && OnlyCopies(old(self.Graph()), self.Graph(), hash')
  {
    hide *;
    ghost var g, h, lo := source.Graph(), self.Graph(), manager.nextLoc;
    ReadyUnpack(manager, self, hash, source);
    hash' := hash;
    var found: Option<Loc> := None;
    if source.sink == Some(key) {
      found := self.sink;
      if found.Some? && key !in hash' {
        FoundSink(g, h, hash, lo, key);
        hash' := hash'[key := found.value];
      }
    } else if key in hash' {
      found := Some(hash'[key]);
    }
    if found.Some? {
      l := found.value;
      if key in hash {
        FoundKept(g, h, hash, lo, key);
      }
    } else {
      CreatedCopy(g, h, hash, lo, key);
      l := CreateCopy(manager, self, source, key);
      hash' := hash'[key := l];
      OnlyCreated(g, h, key, l, hash');
    }
    OnlySame(h, hash');
    ReadyPack(manager, self, hash', source);
  }

  /** Add a transition to the target of a copy. */
  method AddTransition(manager: AutomataManager, self: Automaton, ghost hash: LocHash, source: Automaton,
                       src: Loc, dst: Loc, lab: Label)
    requires Ready(manager, self, hash, source) && src in self.loc && dst in self.loc
    modifies self
    ensures Ready(manager, self, hash, source)
    ensures self.Graph() == WithTrans(old(self.Graph()), Trans(src, lab, dst))
    ensures self.Graph().trans == old(self.Graph()).trans + {Trans(src, lab, dst)}
    ensures self.initial == old(self.initial)
  {
    hide TransOf, SetOf, FinalOf;
    self.CreateTransition(src, dst, lab);
  }

  /** Flag a location of the target of a copy; its sink is never flagged final. */
  method FlagLocation(manager: AutomataManager, self: Automaton, ghost hash: LocHash, source: Automaton, l: Loc, isFinal: bool)
    requires Ready(manager, self, hash, source) && l in self.loc && (self.sink != Some(l) || !isFinal)
    modifies self
    ensures Ready(manager, self, hash, source)
    ensures self.Graph() == WithFinal(old(self.Graph()), l, isFinal)
    ensures self.initial == old(self.initial)
  {
    hide TransOf, SetOf, FinalOf;
    self.SetLocationFinal(l, isFinal);
  }

  /** Copy one transition of the source; a destination seen for the first time is pushed. */
  method CopyTransitionToLoc(manager: AutomataManager, res: Automaton, resLoc: Loc, source: Automaton,
                             t: Transition, hash: LocHash, stack: seq<Loc>)
    returns (hash': LocHash, stack': seq<Loc>)
    requires Ready(manager, res, hash, source)
    requires resLoc in res.loc && t.end in source.loc
    modifies res, manager
    ensures Ready(manager, res, hash', source)
    ensures hash'.Keys == hash.Keys + {t.end}
    ensures stack' == if t.end in hash then stack else [t.end] + stack
    ensures Extends(source.Graph(), old(res.Graph()), hash, old(manager.nextLoc), res.Graph(), hash', manager.nextLoc)
    ensures res.Graph().trans == old(res.Graph()).trans + {Trans(resLoc, t.lab, hash'[t.end])}
    ensures OnlyCopies(old(res.Graph()), res.Graph(), hash')
  {
    hide Extends, OnlyCopies, TransOf, SetOf, FinalOf;
    ghost var g, h0, lo := source.Graph(), res.Graph(), manager.nextLoc;
    ExtendsSame(g, h0, hash, lo);
    OnlySame(h0, hash);
    hash', stack' := hash, stack;
    if t.end !in hash {
      var dest;
      assert hash - {t.end} == hash;
      hash', dest := HashFindOrCreateLoc(manager, res, hash, source, t.end);
      stack' := [t.end] + stack;
    }
    ExtendsKeeps(g, h0, hash, lo, res.Graph(), hash', manager.nextLoc);
    OnlyWithTrans(h0, res.Graph(), hash', Trans(resLoc, t.lab, hash'[t.end]));
    ExtendsWithTrans(g, h0, hash, lo, res.Graph(), hash', manager.nextLoc, Trans(resLoc, t.lab, hash'[t.end]));
    res.CreateTransition(resLoc, hash'[t.end], t.lab);
  }

  /** The body of the copying loop: copy the transitions that leave one location. */
  method CopyOutgoing(manager: AutomataManager, self: Automaton, hash: LocHash, source: Automaton, current: Loc, stack: seq<Loc>,
                      ghost m0: LocHash, ghost start: Loc, ghost visited: set<Loc>)
    returns (hash': LocHash, stack': seq<Loc>)
    requires Ready(manager, self, hash, source)
    requires current in source.loc && current in hash && current !in visited
    requires Frontier(source.Graph(), m0, hash, start, visited + {current}, stack)
    modifies self, manager
    ensures Ready(manager, self, hash', source)
    ensures Extends(source.Graph(), old(self.Graph()), hash, old(manager.nextLoc), self.Graph(), hash', manager.nextLoc)
    ensures Frontier(source.Graph(), m0, hash', start, visited + {current}, stack')
    ensures Copied(source.Graph(), old(self.Graph()), self.Graph(), hash', Leaving(source.Graph(), {current}))
    ensures OnlyCopies(old(self.Graph()), self.Graph(), hash')
  {
    hide *;
    ReadyUnpack(manager, self, hash, source);
    hash', stack' := hash, stack;
    var ts := source.loc[current].transitions;
    ghost var g, h0, lo := source.Graph(), self.Graph(), manager.nextLoc;
    ExpandStart(manager, self, hash, source, current, visited);
    ExtendsSame(g, h0, hash, lo);
    OnlySame(h0, hash);
    CopiedNone(g, h0, hash);
    var i := 0;
    while i < |ts|
      invariant 0 <= i <= |ts|
      invariant Ready(manager, self, hash', source) && current in hash'
      invariant source.Graph() == g && source.loc == old(source.loc)
      invariant Extends(g, h0, hash, lo, self.Graph(), hash', manager.nextLoc)
      invariant Frontier(g, m0, hash', start, visited + {current}, stack')
      invariant Copied(g, h0, self.Graph(), hash', TransFrom(current, ts[..i]))
      invariant OnlyCopies(h0, self.Graph(), hash')
    {
      ghost var h1, m1, mid, stack1 := self.Graph(), hash', manager.nextLoc, stack';
      ExpandNext(manager, self, hash', source, current, i);
      hash', stack' := CopyTransitionToLoc(manager, self, hash'[current], source, ts[i], hash', stack');
      ghost var t := Trans(current, ts[i].lab, ts[i].end);
      CopyStep(g, h0, hash, lo, h1, m1, mid, self.Graph(), hash', manager.nextLoc, m0, start, visited + {current}, stack1, stack', t);
      CopiedStep(g, h0, h1, m1, self.Graph(), hash', TransFrom(current, ts[..i]), t);
      OnlyTransitive(g, h0, h1, m1, mid, self.Graph(), hash', manager.nextLoc);
      i := i + 1;
    }
  }

  /** Copy everything reachable from a location. */
  method CopyReachableFromLoc(manager: AutomataManager, self: Automaton, hash: LocHash, source: Automaton, start: Loc)
    returns (hash': LocHash)
    requires Ready(manager, self, hash, source) && start in source.loc
    modifies self, manager
    ensures Ready(manager, self, hash', source)
    ensures var g, h0 := source.Graph(), old(self.Graph());
            var m0 := Visible(g, h0, hash, start);
            && start in hash'
            && Extends(g, h0, m0, old(manager.nextLoc), self.Graph(), hash', manager.nextLoc)
            && Copied(g, h0, self.Graph(), hash', Leaving(g, (hash'.Keys - m0.Keys) + {start}))
            && forall l :: l in (hash'.Keys - m0.Keys) + {start} ==> Connected(g, start, l)
    ensures OnlyCopies(old(self.Graph()), self.Graph(), hash')
  {
    hide *;
    ReadyUnpack(manager, self, hash, source);
    ghost var g, h0, lo := source.Graph(), self.Graph(), manager.nextLoc;
    ghost var m0 := Visible(g, h0, hash, start);
    var l;
    hash', l := HashFindOrCreateLoc(manager, self, hash, source, start);
    var stack := [start];
    ghost var visited: set<Loc> := {};
    StartCopy(g, h0, hash, self.Graph(), hash', start);
    while stack != []
      invariant Ready(manager, self, hash', source) && source.Graph() == g
      invariant Extends(g, h0, m0, lo, self.Graph(), hash', manager.nextLoc)
      invariant Frontier(g, m0, hash', start, visited, stack)
      invariant Copied(g, h0, self.Graph(), hash', Leaving(g, visited))
      invariant OnlyCopies(h0, self.Graph(), hash')
      decreases g.locs - visited
    {
      FrontierPop(g, m0, hash', start, visited, stack);
      var current := stack[0];
      ghost var h1, m1, mid := self.Graph(), hash', manager.nextLoc;
      ReadyUnpack(manager, self, hash', source);
      hash', stack := CopyOutgoing(manager, self, hash', source, current, stack[1..], m0, start, visited);
      ExtendsKeeps(g, h1, m1, mid, self.Graph(), hash', manager.nextLoc);
      OnlyTransitive(g, h0, h1, m1, mid, self.Graph(), hash', manager.nextLoc);
      ExtendsTransitive(g, h0, m0, lo, h1, m1, mid, self.Graph(), hash', manager.nextLoc);
      CopiedMore(g, h0, h1, m1, self.Graph(), hash', visited, current);
      visited := visited + {current};
    }
    FrontierDone(g, m0, hash', start, visited);
  }

  /** One transition of the initial location of the source. */
  method CopyInitialTransition(manager: AutomataManager, self: Automaton, source: Automaton, hash: LocHash, exclude: bool, i: nat,
                               ghost h0: Nfa, ghost m0: LocHash, ghost lo: nat)
    returns (hash': LocHash)
    requires Ready(manager, self, hash, source) && m0.Keys !! source.loc.Keys
    requires source.initial in source.loc && i < |source.loc[source.initial].transitions|
    requires forall l :: l in h0.locs ==> l < lo
    requires h0.sink.Some? ==> h0.sink.value in h0.locs
    requires self.Graph().init == h0.init
    requires Extends(source.Graph(), h0, m0, lo, self.Graph(), hash, manager.nextLoc)
    requires CopiedFromInitial(source.Graph(), h0, m0, self.Graph(), hash,
                               TransFrom(source.initial, source.loc[source.initial].transitions[..i]), !exclude)
    modifies self, manager
    ensures Ready(manager, self, hash', source)
    ensures self.Graph().init == h0.init
    ensures Extends(source.Graph(), h0, m0, lo, self.Graph(), hash', manager.nextLoc)
    ensures CopiedFromInitial(source.Graph(), h0, m0, self.Graph(), hash',
                              TransFrom(source.initial, source.loc[source.initial].transitions[..i + 1]), !exclude)
  {
    hide *;
    ReadyUnpack(manager, self, hash, source);
    var t := source.loc[source.initial].transitions[i];
    ghost var g, h1, n1 := source.Graph(), self.Graph(), manager.nextLoc;
    ExpandNext(manager, self, hash, source, source.initial, i);
    VisibleNew(g, h0, m0, lo, h1, hash, n1, t.end);
    var visited := t.end in hash;
    var dest;
    hash', dest := HashFindOrCreateLoc(manager, self, hash, source, t.end);
    ExtendsTransitive(g, h0, m0, lo, h1, hash, n1, self.Graph(), hash', manager.nextLoc);
    ExtendsKeeps(g, h1, hash, n1, self.Graph(), hash', manager.nextLoc);
    if !exclude {
      ReadyUnpack(manager, self, hash', source);
      ExtendsInit(g, h0, m0, lo, self.Graph(), hash', manager.nextLoc);
      ExtendsWithTrans(g, h0, m0, lo, self.Graph(), hash', manager.nextLoc, Trans(self.initial, t.lab, dest));
      AddTransition(manager, self, hash', source, self.initial, dest, t.lab);
    }
    ghost var h2, m2, n2 := self.Graph(), hash', manager.nextLoc;
    assert exclude ==> h2.trans == h1.trans + {};
    if !visited {
      VisibleNew(g, h0, m0, lo, h2, m2, n2, t.end);
      hash' := CopyReachableFromLoc(manager, self, hash', source, t.end);
      ExtendsTransitive(g, h0, m0, lo, h2, m2, n2, self.Graph(), hash', manager.nextLoc);
      ExtendsKeeps(g, h2, m2, n2, self.Graph(), hash', manager.nextLoc);
    }
    ExtendsKeeps(g, h0, m0, lo, h1, hash, n1);
    FromInitialStep(g, h0, m0, h1, hash, h2, m2, self.Graph(), hash',
                    TransFrom(source.initial, source.loc[source.initial].transitions[..i]),
                    Trans(source.initial, t.lab, t.end), !exclude);
    ExtendsInit(g, h0, m0, lo, self.Graph(), hash', manager.nextLoc);
  }

  /** Copy what the initial location of the source reaches, and, unless it is excluded, give its
      outgoing transitions to the initial location of the result. */
  method CopyFromInitialLoc(manager: AutomataManager, self: Automaton, source: Automaton, hash: LocHash, exclude: bool)
    returns (hash': LocHash)
    requires Ready(manager, self, hash, source) && hash.Keys !! source.loc.Keys
    modifies self, manager
    ensures Ready(manager, self, hash', source)
    ensures Extends(source.Graph(), old(self.Graph()), hash, old(manager.nextLoc), self.Graph(), hash', manager.nextLoc)
    ensures CopiedFromInitial(source.Graph(), old(self.Graph()), hash, self.Graph(), hash',
                              Leaving(source.Graph(), {source.initial}), !exclude)
  {
    hide *;
    ReadyUnpack(manager, self, hash, source);
    hash' := hash;
    ghost var g, h0, lo := source.Graph(), self.Graph(), manager.nextLoc;
    var ts := source.loc[source.initial].transitions;
    InitialTransitions(manager, self, hash, source);
    ExtendsSame(g, h0, hash, lo);
    FromInitialStart(g, h0, hash, !exclude);
    var i := 0;
    while i < |ts|
      invariant 0 <= i <= |ts|
      invariant Ready(manager, self, hash', source) && self.Graph().init == h0.init
      invariant source.Graph() == g && source.loc == old(source.loc) && source.initial == old(source.initial)
      invariant Extends(g, h0, hash, lo, self.Graph(), hash', manager.nextLoc)
      invariant CopiedFromInitial(g, h0, hash, self.Graph(), hash', TransFrom(source.initial, ts[..i]), !exclude)
    {
      hash' := CopyInitialTransition(manager, self, source, hash', exclude, i, h0, hash, lo);
      i := i + 1;
    }
  }
}
