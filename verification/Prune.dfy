/** Pruning: keep the locations that can be reached from the initial one. */
module PruneLanguage {
  import opened BoolExpr
  import opened Alphabet
  import opened Nfas
  import opened Automata
  import opened CopyGraphs
  import opened Parts

  /** What the copy of everything reachable from the initial location leaves in the target. */
  ghost predicate ReachableCopied(g: Nfa, r: Loc, lo: nat, h: Nfa, m: LocHash, hi: nat) {
    var h0 := Single(r, g.init in g.final);
    var m0 := Visible(g, h0, map[g.init := r], g.init);
    && r < lo && g.init in m
    && Extends(g, h0, m0, lo, h, m, hi)
    && Copied(g, h0, h, m, Leaving(g, (m.Keys - m0.Keys) + {g.init}))
    && forall l :: l in (m.Keys - m0.Keys) + {g.init} ==> Connected(g, g.init, l)
  }

  lemma ReachableCopiedPack(g: Nfa, r: Loc, lo: nat, h0: Nfa, h: Nfa, m: LocHash, hi: nat)
    requires h0 == Single(r, g.init in g.final) && r < lo && g.init in m
    requires var m0 := Visible(g, h0, map[g.init := r], g.init);
             && Extends(g, h0, m0, lo, h, m, hi)
             && Copied(g, h0, h, m, Leaving(g, (m.Keys - m0.Keys) + {g.init}))
             && forall l :: l in (m.Keys - m0.Keys) + {g.init} ==> Connected(g, g.init, l)
    ensures ReachableCopied(g, r, lo, h, m, hi)
    ensures forall l :: l in h.locs ==> r <= l
  {
  }

  lemma PruneIsCopy(g: Nfa, r: Loc, lo: nat, h: Nfa, m: LocHash, hi: nat)
    requires Closed(g) && SinkNotFinal(g) && g.sink != Some(g.init)
    requires ReachableCopied(g, r, lo, h, m, hi)
    ensures IsCopy(g, h, m) && Closed(h) && h.sink != Some(h.init)
    ensures h.sink.Some? ==> g.sink.Some? && g.sink.value in m && m[g.sink.value] == h.sink.value
    ensures forall l :: l in m ==> Connected(g, g.init, l)
  {
    var m0: LocHash := map[g.init := r];
    assert (m.Keys - m0.Keys) + {g.init} == m.Keys;
    assert forall u :: u in h.trans ==> u.src in h.locs && u.dst in h.locs;
  }

  /** Pruning keeps the language; the sink stays a sink unless it was one in name only, in which
      case it must be unreachable. */
  lemma PruneMeans(g: Nfa, r: Loc, lo: nat, h: Nfa, m: LocHash, hi: nat)
    requires Closed(g) && SinkNotFinal(g) && (SinkOk(g) || !Connected(g, g.init, g.sink.value))
    requires ReachableCopied(g, r, lo, h, m, hi)
    ensures Lang(h) == Lang(g) && SinkOk(h) && Returns(h) == Returns(g)
    ensures NoReturn(g) ==> NoReturn(h)
    ensures LabelsSat(g) ==> LabelsSat(h)
    ensures OnlyCopies(Single(r, g.init in g.final), h, m) ==> forall l :: l in h.locs ==> Connected(h, h.init, l)
  {
    ConnectedSelf(g, g.init);
    PruneIsCopy(g, r, lo, h, m, hi);
    if OnlyCopies(Single(r, g.init in g.final), h, m) {
      PruneReaches(g, h, m, r, g.init in g.final);
    }
    IsCopyMeans(g, h, m);
    PruneSinkOk(g, h, m);
  }

  lemma {:induction false} PathCopied(g: Nfa, h: Nfa, m: LocHash, n: nat, q: Loc)
    requires IsCopy(g, h, m) && PathN(g, g.init, n, q)
    ensures q in m && PathN(h, h.init, n, m[q])
    decreases n
  {
    if n > 0 {
      var t :| t in g.trans && t.dst == q && PathN(g, g.init, n - 1, t.src);
      PathCopied(g, h, m, n - 1, t.src);
      assert t in Leaving(g, m.Keys);
      assert Trans(m[t.src], t.lab, m[q]) in h.trans;
    }
  }

  /** Everything that is kept can be reached. */
  lemma PruneReaches(g: Nfa, h: Nfa, m: LocHash, r: Loc, final: bool)
    requires IsCopy(g, h, m) && h.init == r && OnlyCopies(Single(r, final), h, m)
    requires forall k :: k in m ==> Connected(g, g.init, k)
    ensures forall l :: l in h.locs ==> Connected(h, h.init, l)
  {
    ConnectedSelf(h, h.init);
    hide IsCopy, Connected;
    forall l | l in h.locs ensures Connected(h, h.init, l) {
      if l != r {
        var k :| k in m && m[k] == l;
        CopyConnected(g, h, m, k);
      }
    }
  }

  lemma CopyConnected(g: Nfa, h: Nfa, m: LocHash, k: Loc)
    requires IsCopy(g, h, m) && Connected(g, g.init, k)
    ensures k in m && Connected(h, h.init, m[k])
  {
    var n: nat :| PathN(g, g.init, n, k);
    PathCopied(g, h, m, n, k);
  }

  lemma PruneSinkOk(g: Nfa, h: Nfa, m: LocHash)
    requires IsCopy(g, h, m)
    requires h.sink.Some? ==> g.sink.Some? && g.sink.value in m && m[g.sink.value] == h.sink.value
    requires forall l :: l in m ==> Connected(g, g.init, l)
    requires SinkOk(g) || (g.sink.Some? && !Connected(g, g.init, g.sink.value))
    ensures SinkOk(h)
  {
  }
}

module Prunes {
  import opened BoolExpr
  import opened Alphabet
  import opened Nfas
  import opened Automata
  import opened CopyGraphs
  import opened Copying
  import opened PruneLanguage

  method Prune(manager: AutomataManager, a: Automaton) returns (res: Automaton)
    requires a.Valid() && SinkNotFinal(a.Graph())
    requires SinkOk(a.Graph()) || !Connected(a.Graph(), a.initial, a.sink.value)
    modifies manager
    ensures fresh(res) && res.Usable(manager) && old(manager.nextLoc) <= manager.nextLoc
    ensures forall l :: l in res.loc ==> old(manager.nextLoc) <= l
    ensures Lang(res.Graph()) == Lang(a.Graph())
    ensures Returns(res.Graph()) == Returns(a.Graph())
    ensures NoReturn(a.Graph()) ==> NoReturn(res.Graph())
    ensures LabelsSat(a.Graph()) ==> LabelsSat(res.Graph())
    ensures forall l :: l in res.loc ==> Connected(res.Graph(), res.initial, l)
  {
    hide *;
    ValidUnpack(a);
    res := NewResult(manager, a.loc[a.initial].final);
    ghost var r, h0, lo := res.initial, res.Graph(), manager.nextLoc;
    var hash: LocHash := map[a.initial := res.initial];
    ReadyFromInitial(manager, res, a, a.loc[a.initial].final);
    hash := CopyReachableFromLoc(manager, res, hash, a, a.initial);
    ReachableCopiedPack(a.Graph(), r, lo, h0, res.Graph(), hash, manager.nextLoc);
    PruneMeans(a.Graph(), r, lo, res.Graph(), hash, manager.nextLoc);
    ReadyUnpack(manager, res, hash, a);
    UsablePack(manager, res);
  }
}
