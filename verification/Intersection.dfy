/** Intersection of two automata: the product construction. */
module ProductLanguage {
  import opened BoolExpr
  import opened Alphabet
  import opened Nfas
  import opened Automata
  import opened CopyGraphs
  import opened LabelSteps
  import opened AcceptingSearch
  import opened AcceptingLanguage

  type Couple = (Loc, Loc)
  type CoupleHash = map<Couple, Loc>

  /** A couple with a sink in it stands for the sink of the product. */
  ghost predicate IsSinkCouple(g1: Nfa, g2: Nfa, k: Couple) {
    g1.sink == Some(k.0) || g2.sink == Some(k.1)
  }

  /** The location of the product for a couple, if there is one already. */
  ghost function Dest(g1: Nfa, g2: Nfa, h: Nfa, hash: CoupleHash, k: Couple): Option<Loc> {
    if IsSinkCouple(g1, g2, k) then h.sink
    else if k in hash then Some(hash[k]) else None
  }

  /** Both operands move from the couple on a letter, to a couple that stands for r. */
  ghost predicate Moves(g1: Nfa, g2: Nfa, h: Nfa, hash: CoupleHash, k: Couple, a: Letter, r: Loc) {
    exists p: Loc, q: Loc :: Step(g1, k.0, a, p) && Step(g2, k.1, a, q) && Dest(g1, g2, h, hash, (p, q)) == Some(r)
  }

  ghost predicate CouplesOk(g1: Nfa, g2: Nfa, h: Nfa, hash: CoupleHash) {
    && (g1.init, g2.init) in hash && hash[(g1.init, g2.init)] == h.init
    && (forall k :: k in hash ==>
          && k.0 in g1.locs && k.1 in g2.locs && hash[k] in h.locs
          && (hash[k] in h.final <==> k.0 in g1.final && k.1 in g2.final)
          && (IsSinkCouple(g1, g2, k) <==> h.sink == Some(hash[k])))
    && (forall k, l :: k in hash && l in hash && k != l ==> hash[k] != hash[l])
    && (h.sink.Some? ==> h.sink.value !in h.final && h.sink.value != h.init)
  }

  /** A transition of the product is satisfiable, and every letter it admits moves both operands. */
  ghost predicate TransSound(g1: Nfa, g2: Nfa, h: Nfa, hash: CoupleHash, u: Trans) {
    && IsSat(u.lab)
    && exists k :: k in hash && hash[k] == u.src && forall a :: Holds(u.lab, a) ==> Moves(g1, g2, h, hash, k, a, u.dst)
  }

  ghost predicate Product(g1: Nfa, g2: Nfa, h: Nfa, hash: CoupleHash) {
    && SinkOk(g1) && SinkOk(g2)
    && CouplesOk(g1, g2, h, hash)
    && forall u :: u in h.trans ==> TransSound(g1, g2, h, hash, u)
  }

  /** From the location r, each letter admitted by a symbol of ms and by one transition of c1 and one
      of c2 leads to where these transitions lead. */
  ghost predicate Complete(g1: Nfa, g2: Nfa, h: Nfa, hash: CoupleHash, r: Loc, c1: set<Trans>, c2: set<Trans>, ms: set<Label>) {
    forall t1: Trans, t2: Trans, m: Label, a: Letter ::
      t1 in c1 && t2 in c2 && m in ms && Holds(m, a) && Holds(t1.lab, a) && Holds(t2.lab, a) ==>
        LeadsTo(g1, g2, h, hash, r, a, (t1.dst, t2.dst))
  }

  ghost predicate LeadsTo(g1: Nfa, g2: Nfa, h: Nfa, hash: CoupleHash, r: Loc, a: Letter, k: Couple) {
    Dest(g1, g2, h, hash, k).Some? && Step(h, r, a, Dest(g1, g2, h, hash, k).value)
  }

  ghost predicate AllComplete(g1: Nfa, g2: Nfa, h: Nfa, hash: CoupleHash, done: set<Couple>) {
    forall k :: k in done ==>
      k in hash && Complete(g1, g2, h, hash, hash[k], Leaving(g1, {k.0}), Leaving(g2, {k.1}), {True})
  }

  /** The product only grows. */
  ghost predicate Grows(h: Nfa, hash: CoupleHash, h': Nfa, hash': CoupleHash) {
    && hash.Keys <= hash'.Keys && (forall k :: k in hash ==> hash'[k] == hash[k])
    && (h.sink.Some? ==> h'.sink == h.sink) && h'.init == h.init
    && (forall r: Loc, a: Letter, x: Loc :: Step(h, r, a, x) ==> Step(h', r, a, x))
  }

  lemma GrowsSame(h: Nfa, hash: CoupleHash)
    ensures Grows(h, hash, h, hash)
  {
  }

  lemma GrowsMore(h: Nfa, hash: CoupleHash, h1: Nfa, hash1: CoupleHash, h2: Nfa, hash2: CoupleHash)
    requires Grows(h, hash, h1, hash1) && Grows(h1, hash1, h2, hash2)
    ensures Grows(h, hash, h2, hash2)
  {
    hide Step;
  }

  lemma DestKept(g1: Nfa, g2: Nfa, h: Nfa, hash: CoupleHash, h': Nfa, hash': CoupleHash, k: Couple)
    requires Grows(h, hash, h', hash') && Dest(g1, g2, h, hash, k).Some?
    ensures Dest(g1, g2, h', hash', k) == Dest(g1, g2, h, hash, k)
  {
  }

  lemma LeadsKept(g1: Nfa, g2: Nfa, h: Nfa, hash: CoupleHash, h': Nfa, hash': CoupleHash, r: Loc, a: Letter, k: Couple)
    requires Grows(h, hash, h', hash') && LeadsTo(g1, g2, h, hash, r, a, k)
    ensures LeadsTo(g1, g2, h', hash', r, a, k)
  {
    DestKept(g1, g2, h, hash, h', hash', k);
  }

  lemma CompleteKept(g1: Nfa, g2: Nfa, h: Nfa, hash: CoupleHash, h': Nfa, hash': CoupleHash, r: Loc, c1: set<Trans>, c2: set<Trans>, ms: set<Label>)
    requires Grows(h, hash, h', hash') && Complete(g1, g2, h, hash, r, c1, c2, ms)
    ensures Complete(g1, g2, h', hash', r, c1, c2, ms)
  {
    hide Grows, LeadsTo;
    forall t1: Trans, t2: Trans, m: Label, a: Letter | t1 in c1 && t2 in c2 && m in ms && Holds(m, a) && Holds(t1.lab, a) && Holds(t2.lab, a)
      ensures LeadsTo(g1, g2, h', hash', r, a, (t1.dst, t2.dst))
    {
      LeadsKept(g1, g2, h, hash, h', hash', r, a, (t1.dst, t2.dst));
    }
  }

  lemma AllKept(g1: Nfa, g2: Nfa, h: Nfa, hash: CoupleHash, h': Nfa, hash': CoupleHash, done: set<Couple>)
    requires Grows(h, hash, h', hash') && AllComplete(g1, g2, h, hash, done)
    ensures AllComplete(g1, g2, h', hash', done)
  {
    hide Complete, Step, Leaving;
    forall k | k in done
      ensures k in hash' && Complete(g1, g2, h', hash', hash'[k], Leaving(g1, {k.0}), Leaving(g2, {k.1}), {True})
    {
      CompleteKept(g1, g2, h, hash, h', hash', hash[k], Leaving(g1, {k.0}), Leaving(g2, {k.1}), {True});
    }
  }

  lemma CompleteNone(g1: Nfa, g2: Nfa, h: Nfa, hash: CoupleHash, r: Loc, c1: set<Trans>, c2: set<Trans>, ms: set<Label>)
    requires c1 == {} || c2 == {} || ms == {}
    ensures Complete(g1, g2, h, hash, r, c1, c2, ms)
  {
  }

  lemma CompleteMore(g1: Nfa, g2: Nfa, h: Nfa, hash: CoupleHash, r: Loc, c1: set<Trans>, c2: set<Trans>, ms: set<Label>,
                     c1': set<Trans>, c2': set<Trans>, ms': set<Label>)
    requires Complete(g1, g2, h, hash, r, c1, c2, ms) && Complete(g1, g2, h, hash, r, c1', c2', ms')
    ensures c1 == c1' && c2 == c2' ==> Complete(g1, g2, h, hash, r, c1, c2, ms + ms')
    ensures c1 == c1' && ms == ms' ==> Complete(g1, g2, h, hash, r, c1, c2 + c2', ms)
    ensures c2 == c2' && ms == ms' ==> Complete(g1, g2, h, hash, r, c1 + c1', c2, ms)
  {
    hide LeadsTo;
  }

  /** Symbols that together admit every letter are as good as the symbol that admits them all. */
  lemma CompleteForAll(g1: Nfa, g2: Nfa, h: Nfa, hash: CoupleHash, r: Loc, c1: set<Trans>, c2: set<Trans>, ms: set<Label>)
    requires Complete(g1, g2, h, hash, r, c1, c2, ms)
    requires forall a: Letter :: Admitted(ms, a)
    ensures Complete(g1, g2, h, hash, r, c1, c2, {True})
  {
    hide LeadsTo, Holds;
    var all: set<Label> := {True};
    forall t1: Trans, t2: Trans, m: Label, a: Letter | t1 in c1 && t2 in c2 && m in all && Holds(m, a) && Holds(t1.lab, a) && Holds(t2.lab, a)
      ensures LeadsTo(g1, g2, h, hash, r, a, (t1.dst, t2.dst))
    {
      assert Admitted(ms, a);
      var n :| n in ms && Holds(n, a);
    }
  }

  /** One transition: from the label of the new transition, the letters that both operands admit follow. */
  lemma CompleteOne(g1: Nfa, g2: Nfa, h: Nfa, hash: CoupleHash, r: Loc, t1: Trans, t2: Trans, m: Label, lab: Label, l: Loc)
    requires Dest(g1, g2, h, hash, (t1.dst, t2.dst)) == Some(l) && Trans(r, lab, l) in h.trans
    requires forall a :: Holds(m, a) && Holds(t1.lab, a) && Holds(t2.lab, a) ==> Holds(lab, a)
    ensures Complete(g1, g2, h, hash, r, {t1}, {t2}, {m})
  {
    forall a | Holds(m, a) && Holds(t1.lab, a) && Holds(t2.lab, a)
      ensures LeadsTo(g1, g2, h, hash, r, a, (t1.dst, t2.dst))
    {
      assert Holds(lab, a);
    }
  }

  lemma CompleteUnsat(g1: Nfa, g2: Nfa, h: Nfa, hash: CoupleHash, r: Loc, c1: set<Trans>, c2: set<Trans>, m: Label)
    requires forall t1, t2, a :: t1 in c1 && t2 in c2 && Holds(m, a) && Holds(t1.lab, a) ==> !Holds(t2.lab, a)
    ensures Complete(g1, g2, h, hash, r, c1, c2, {m})
  {
  }

  // ----- The worklist

  ghost function CoupleOf(t: (Loc, Loc, Loc)): Couple {
    (t.0, t.1)
  }

  /** Every couple has been visited or waits on the stack, once, with its location. */
  ghost predicate Pending(hash: CoupleHash, visited: set<Couple>, stack: seq<(Loc, Loc, Loc)>) {
    && visited <= hash.Keys
    && (forall i :: 0 <= i < |stack| ==> CoupleOf(stack[i]) in hash && CoupleOf(stack[i]) !in visited && hash[CoupleOf(stack[i])] == stack[i].2)
    && (forall i, j :: 0 <= i < j < |stack| ==> CoupleOf(stack[i]) != CoupleOf(stack[j]))
    && (forall k :: k in hash && k !in visited ==> exists i :: 0 <= i < |stack| && CoupleOf(stack[i]) == k)
  }

  lemma PendingPop(hash: CoupleHash, visited: set<Couple>, stack: seq<(Loc, Loc, Loc)>)
    requires Pending(hash, visited, stack) && stack != []
    ensures Pending(hash, visited + {CoupleOf(stack[0])}, stack[1..])
    ensures CoupleOf(stack[0]) in hash && CoupleOf(stack[0]) !in visited && hash[CoupleOf(stack[0])] == stack[0].2
  {
    var v, s := visited + {CoupleOf(stack[0])}, stack[1..];
    forall k | k in hash && k !in v ensures exists i :: 0 <= i < |s| && CoupleOf(s[i]) == k {
      var i :| 0 <= i < |stack| && CoupleOf(stack[i]) == k;
      assert s[i - 1] == stack[i];
    }
  }

  lemma PendingPush(hash: CoupleHash, visited: set<Couple>, stack: seq<(Loc, Loc, Loc)>, t: (Loc, Loc, Loc))
    requires Pending(hash, visited, stack) && CoupleOf(t) !in hash
    ensures Pending(hash[CoupleOf(t) := t.2], visited, [t] + stack)
  {
    var m, s := hash[CoupleOf(t) := t.2], [t] + stack;
    forall k | k in m && k !in visited ensures exists i :: 0 <= i < |s| && CoupleOf(s[i]) == k {
      if k == CoupleOf(t) {
        assert s[0] == t;
      } else {
        var i :| 0 <= i < |stack| && CoupleOf(stack[i]) == k;
        assert s[i + 1] == stack[i];
      }
    }
  }

  lemma PendingDone(hash: CoupleHash, visited: set<Couple>)
    requires Pending(hash, visited, [])
    ensures visited == hash.Keys
  {
  }

  ghost function AllCouples(g1: Nfa, g2: Nfa): set<Couple> {
    set p, q | p in g1.locs && q in g2.locs :: (p, q)
  }

  lemma CouplesBounded(g1: Nfa, g2: Nfa, h: Nfa, hash: CoupleHash)
    requires Product(g1, g2, h, hash)
    ensures hash.Keys <= AllCouples(g1, g2)
  {
  }

  // ----- One more location, one more transition

  ghost function WithCouple(g1: Nfa, g2: Nfa, h: Nfa, k: Couple, l: Loc): Nfa {
    var h' := WithLoc(h, l, k.0 in g1.final && k.1 in g2.final);
    if IsSinkCouple(g1, g2, k) then h'.(sink := Some(l)) else h'
  }

  lemma TransSoundKept(g1: Nfa, g2: Nfa, h: Nfa, hash: CoupleHash, h': Nfa, hash': CoupleHash, u: Trans)
    requires Grows(h, hash, h', hash') && TransSound(g1, g2, h, hash, u)
    ensures TransSound(g1, g2, h', hash', u)
  {
    var k :| k in hash && hash[k] == u.src && forall a :: Holds(u.lab, a) ==> Moves(g1, g2, h, hash, k, a, u.dst);
    assert k in hash' && hash'[k] == u.src;
    forall a | Holds(u.lab, a) ensures Moves(g1, g2, h', hash', k, a, u.dst) {
      var p: Loc, q: Loc :| Step(g1, k.0, a, p) && Step(g2, k.1, a, q) && Dest(g1, g2, h, hash, (p, q)) == Some(u.dst);
      DestKept(g1, g2, h, hash, h', hash', (p, q));
      assert Step(g1, k.0, a, p) && Step(g2, k.1, a, q) && Dest(g1, g2, h', hash', (p, q)) == Some(u.dst);
    }
  }

  lemma CoupleCreated(g1: Nfa, g2: Nfa, h: Nfa, hash: CoupleHash, k: Couple, l: Loc)
    requires Closed(h) && Product(g1, g2, h, hash) && Dest(g1, g2, h, hash, k).None?
    requires l !in h.locs && k.0 in g1.locs && k.1 in g2.locs
    ensures k !in hash && Product(g1, g2, WithCouple(g1, g2, h, k, l), hash[k := l])
    ensures Grows(h, hash, WithCouple(g1, g2, h, k, l), hash[k := l])
    ensures Dest(g1, g2, WithCouple(g1, g2, h, k, l), hash[k := l], k) == Some(l)
  {
    var h', hash' := WithCouple(g1, g2, h, k, l), hash[k := l];
    CoupleAdded(g1, g2, h, hash, k, l);
    hide TransSound;
    forall u | u in h'.trans ensures TransSound(g1, g2, h', hash', u) {
      TransSoundKept(g1, g2, h, hash, h', hash', u);
    }
  }

  lemma CoupleAdded(g1: Nfa, g2: Nfa, h: Nfa, hash: CoupleHash, k: Couple, l: Loc)
    requires Closed(h) && SinkOk(g1) && SinkOk(g2) && CouplesOk(g1, g2, h, hash) && Dest(g1, g2, h, hash, k).None?
    requires l !in h.locs && k.0 in g1.locs && k.1 in g2.locs
    ensures k !in hash && CouplesOk(g1, g2, WithCouple(g1, g2, h, k, l), hash[k := l])
    ensures Grows(h, hash, WithCouple(g1, g2, h, k, l), hash[k := l])
  {
    var h' := WithCouple(g1, g2, h, k, l);
    assert h'.trans == h.trans;
    assert forall r: Loc, a: Letter, x: Loc :: Step(h, r, a, x) ==> Step(h', r, a, x);
  }

  lemma TransAdded(g1: Nfa, g2: Nfa, h: Nfa, hash: CoupleHash, k: Couple, t1: Trans, t2: Trans, lab: Label, l: Loc)
    requires Product(g1, g2, h, hash) && k in hash
    requires t1 in g1.trans && t1.src == k.0 && t2 in g2.trans && t2.src == k.1
    requires Dest(g1, g2, h, hash, (t1.dst, t2.dst)) == Some(l)
    requires IsSat(lab) && forall a :: Holds(lab, a) ==> Holds(t1.lab, a) && Holds(t2.lab, a)
    ensures Product(g1, g2, WithTrans(h, Trans(hash[k], lab, l)), hash)
    ensures Grows(h, hash, WithTrans(h, Trans(hash[k], lab, l)), hash)
  {
    var h' := WithTrans(h, Trans(hash[k], lab, l));
    assert forall r: Loc, a: Letter, x: Loc :: Step(h, r, a, x) ==> Step(h', r, a, x);
    NewSound(g1, g2, h, hash, k, t1, t2, lab, l);
    AllSound(g1, g2, h, hash, h', Trans(hash[k], lab, l));
  }

  lemma NewSound(g1: Nfa, g2: Nfa, h: Nfa, hash: CoupleHash, k: Couple, t1: Trans, t2: Trans, lab: Label, l: Loc)
    requires k in hash
    requires t1 in g1.trans && t1.src == k.0 && t2 in g2.trans && t2.src == k.1
    requires Dest(g1, g2, h, hash, (t1.dst, t2.dst)) == Some(l)
    requires IsSat(lab) && forall a :: Holds(lab, a) ==> Holds(t1.lab, a) && Holds(t2.lab, a)
    ensures TransSound(g1, g2, h, hash, Trans(hash[k], lab, l))
  {
    forall a | Holds(lab, a) ensures Moves(g1, g2, h, hash, k, a, l) {
      assert Step(g1, k.0, a, t1.dst) && Step(g2, k.1, a, t2.dst);
    }
  }

  /** Other transitions leave the same couples and the same sink: what was sound remains so. */
  lemma AllSound(g1: Nfa, g2: Nfa, h: Nfa, hash: CoupleHash, h': Nfa, u: Trans)
    requires Product(g1, g2, h, hash) && TransSound(g1, g2, h, hash, u)
    requires h' == h.(trans := h'.trans) && h'.trans <= h.trans + {u}
    ensures Product(g1, g2, h', hash)
  {
    forall t | t in h'.trans ensures TransSound(g1, g2, h', hash, t) {
      SoundElsewhere(g1, g2, h, hash, h', t);
    }
  }

  lemma SoundElsewhere(g1: Nfa, g2: Nfa, h: Nfa, hash: CoupleHash, h': Nfa, u: Trans)
    requires TransSound(g1, g2, h, hash, u) && h'.sink == h.sink
    ensures TransSound(g1, g2, h', hash, u)
  {
    var k :| k in hash && hash[k] == u.src && forall a :: Holds(u.lab, a) ==> Moves(g1, g2, h, hash, k, a, u.dst);
    forall a | Holds(u.lab, a) ensures Moves(g1, g2, h', hash, k, a, u.dst) {
      var p: Loc, q: Loc :| Step(g1, k.0, a, p) && Step(g2, k.1, a, q) && Dest(g1, g2, h, hash, (p, q)) == Some(u.dst);
      assert Dest(g1, g2, h', hash, (p, q)) == Some(u.dst);
    }
  }

  // ----- The language of the product

  ghost predicate IsProduct(g1: Nfa, g2: Nfa, h: Nfa, hash: CoupleHash) {
    && SinkOk(g1) && SinkOk(g2) && SinkOk(h) && CouplesOk(g1, g2, h, hash)
    && (forall k: Couple, a: Letter, r: Loc :: k in hash && Step(h, hash[k], a, r) ==> Moves(g1, g2, h, hash, k, a, r))
    && (forall k: Couple, a: Letter, p: Loc, q: Loc :: k in hash && Step(g1, k.0, a, p) && Step(g2, k.1, a, q) ==> LeadsTo(g1, g2, h, hash, hash[k], a, (p, q)))
  }

  lemma ProductSinkOk(g1: Nfa, g2: Nfa, h: Nfa, hash: CoupleHash)
    requires Product(g1, g2, h, hash)
    ensures SinkOk(h) && LabelsSat(h)
  {
    forall u | u in h.trans && h.sink == Some(u.src) ensures u.dst == u.src {
      assert TransSound(g1, g2, h, hash, u);
      var k :| k in hash && hash[k] == u.src && forall a :: Holds(u.lab, a) ==> Moves(g1, g2, h, hash, k, a, u.dst);
      var a :| Holds(u.lab, a);
      assert Moves(g1, g2, h, hash, k, a, u.dst);
    }
    assert forall u :: u in h.trans ==> TransSound(g1, g2, h, hash, u);
  }

  lemma StepMoves(g1: Nfa, g2: Nfa, h: Nfa, hash: CoupleHash, k: Couple, a: Letter, r: Loc)
    requires Product(g1, g2, h, hash) && k in hash && Step(h, hash[k], a, r)
    ensures Moves(g1, g2, h, hash, k, a, r)
  {
    var u :| u in h.trans && u.src == hash[k] && u.dst == r && Holds(u.lab, a);
    assert TransSound(g1, g2, h, hash, u);
    hide Moves;
    var l :| l in hash && hash[l] == u.src && forall a :: Holds(u.lab, a) ==> Moves(g1, g2, h, hash, l, a, u.dst);
    assert l == k;
  }

  lemma FinishedIsProduct(g1: Nfa, g2: Nfa, h: Nfa, hash: CoupleHash)
    requires Product(g1, g2, h, hash) && AllComplete(g1, g2, h, hash, hash.Keys)
    ensures IsProduct(g1, g2, h, hash) && LabelsSat(h)
  {
    ProductSinkOk(g1, g2, h, hash);
    hide Moves, LeadsTo, CouplesOk, SinkOk;
    forall k: Couple, a: Letter, r: Loc | k in hash && Step(h, hash[k], a, r) ensures Moves(g1, g2, h, hash, k, a, r) {
      StepMoves(g1, g2, h, hash, k, a, r);
    }
    forall k: Couple, a: Letter, p: Loc, q: Loc | k in hash && Step(g1, k.0, a, p) && Step(g2, k.1, a, q)
      ensures LeadsTo(g1, g2, h, hash, hash[k], a, (p, q))
    {
      var t1 :| t1 in g1.trans && t1.src == k.0 && t1.dst == p && Holds(t1.lab, a);
      var t2 :| t2 in g2.trans && t2.src == k.1 && t2.dst == q && Holds(t2.lab, a);
      assert Complete(g1, g2, h, hash, hash[k], Leaving(g1, {k.0}), Leaving(g2, {k.1}), {True});
      assert t1 in Leaving(g1, {k.0}) && t2 in Leaving(g2, {k.1}) && Holds(True, a);
    }
  }

  /** Whichever step expanded a couple, its successors on a letter are the common moves of the operands. */
  lemma StepIffMoves(g1: Nfa, g2: Nfa, h: Nfa, hash: CoupleHash, k: Couple, a: Letter, r: Loc)
    requires IsProduct(g1, g2, h, hash) && k in hash
    ensures Step(h, hash[k], a, r) <==> Moves(g1, g2, h, hash, k, a, r)
  {
    if Moves(g1, g2, h, hash, k, a, r) {
      var p: Loc, q: Loc :| Step(g1, k.0, a, p) && Step(g2, k.1, a, q) && Dest(g1, g2, h, hash, (p, q)) == Some(r);
      assert LeadsTo(g1, g2, h, hash, hash[k], a, (p, q));
    }
  }

  lemma {:induction false} ProductAccepts(g1: Nfa, g2: Nfa, h: Nfa, hash: CoupleHash, k: Couple, w: Word)
    requires IsProduct(g1, g2, h, hash) && k in hash
    ensures Accepts(h, hash[k], w) <==> Accepts(g1, k.0, w) && Accepts(g2, k.1, w)
    decreases |w|, 0
  {
    if w != [] {
      if r: Loc :| Step(h, hash[k], w[0], r) && Accepts(h, r, w[1..]) {
        assert Moves(g1, g2, h, hash, k, w[0], r);
        var p: Loc, q: Loc :| Step(g1, k.0, w[0], p) && Step(g2, k.1, w[0], q) && Dest(g1, g2, h, hash, (p, q)) == Some(r);
        DestAccepts(g1, g2, h, hash, (p, q), w[1..]);
        ProductAcceptsNext(g1, g2, h, hash, (p, q), w[1..]);
      }
      if p: Loc, q: Loc :| Step(g1, k.0, w[0], p) && Accepts(g1, p, w[1..]) && Step(g2, k.1, w[0], q) && Accepts(g2, q, w[1..]) {
        assert LeadsTo(g1, g2, h, hash, hash[k], w[0], (p, q));
        DestAccepts(g1, g2, h, hash, (p, q), w[1..]);
        ProductAcceptsNext(g1, g2, h, hash, (p, q), w[1..]);
      }
    }
  }

  lemma {:induction false} ProductAcceptsNext(g1: Nfa, g2: Nfa, h: Nfa, hash: CoupleHash, k: Couple, w: Word)
    requires IsProduct(g1, g2, h, hash)
    ensures k in hash ==> (Accepts(h, hash[k], w) <==> Accepts(g1, k.0, w) && Accepts(g2, k.1, w))
    decreases |w|, 1
  {
    if k in hash {
      ProductAccepts(g1, g2, h, hash, k, w);
    }
  }

  /** Couples with a sink are dead on both sides, so collapsing them loses no word. */
  lemma DestAccepts(g1: Nfa, g2: Nfa, h: Nfa, hash: CoupleHash, k: Couple, w: Word)
    requires IsProduct(g1, g2, h, hash) && Dest(g1, g2, h, hash, k).Some?
    ensures IsSinkCouple(g1, g2, k) ==>
              !Accepts(h, Dest(g1, g2, h, hash, k).value, w) && !(Accepts(g1, k.0, w) && Accepts(g2, k.1, w))
    ensures !IsSinkCouple(g1, g2, k) ==> k in hash && hash[k] == Dest(g1, g2, h, hash, k).value
  {
    if IsSinkCouple(g1, g2, k) {
      SinkIsDead(h);
      if g1.sink == Some(k.0) {
        SinkIsDead(g1);
      } else {
        SinkIsDead(g2);
      }
    }
  }

  lemma StepRooted(g: Nfa, p: Loc, a: Letter, q: Loc)
    ensures Step(Rooted(g), p, a, q) <==> Step(g, p, a, q)
  {
  }

  /** The product also is the product of the operands when they accept where they start. */
  lemma RootedProduct(g1: Nfa, g2: Nfa, h: Nfa, hash: CoupleHash)
    requires IsProduct(g1, g2, h, hash)
    ensures IsProduct(Rooted(g1), Rooted(g2), Rooted(h), hash)
  {
    var r1, r2, r := Rooted(g1), Rooted(g2), Rooted(h);
    assert forall k :: IsSinkCouple(r1, r2, k) <==> IsSinkCouple(g1, g2, k);
    assert forall k :: Dest(r1, r2, r, hash, k) == Dest(g1, g2, h, hash, k);
    forall k: Couple, a: Letter, x: Loc | k in hash && Step(r, hash[k], a, x) ensures Moves(r1, r2, r, hash, k, a, x) {
      StepRooted(h, hash[k], a, x);
      assert Moves(g1, g2, h, hash, k, a, x);
      var p: Loc, q: Loc :| Step(g1, k.0, a, p) && Step(g2, k.1, a, q) && Dest(g1, g2, h, hash, (p, q)) == Some(x);
      StepRooted(g1, k.0, a, p);
      StepRooted(g2, k.1, a, q);
      assert Dest(r1, r2, r, hash, (p, q)) == Some(x);
    }
    forall k: Couple, a: Letter, p: Loc, q: Loc | k in hash && Step(r1, k.0, a, p) && Step(r2, k.1, a, q)
      ensures LeadsTo(r1, r2, r, hash, hash[k], a, (p, q))
    {
      StepRooted(g1, k.0, a, p);
      StepRooted(g2, k.1, a, q);
      assert LeadsTo(g1, g2, h, hash, hash[k], a, (p, q));
      StepRooted(h, hash[k], a, Dest(g1, g2, h, hash, (p, q)).value);
    }
  }

  /** The product accepts the words that both operands accept, and returns to its initial location on
      the words on which both operands do. */
  lemma ProductMeans(g1: Nfa, g2: Nfa, h: Nfa, hash: CoupleHash)
    requires IsProduct(g1, g2, h, hash)
    ensures Lang(h) == Lang(g1) * Lang(g2) && Returns(h) == Returns(g1) * Returns(g2)
  {
    hide Accepts;
    var k := (g1.init, g2.init);
    assert k in hash && hash[k] == h.init;
    forall w ensures w in Lang(h) <==> w in Lang(g1) * Lang(g2) {
      ProductAccepts(g1, g2, h, hash, k, w);
    }
    RootedProduct(g1, g2, h, hash);
    forall w ensures w in Returns(h) <==> w in Returns(g1) * Returns(g2) {
      ProductAccepts(Rooted(g1), Rooted(g2), Rooted(h), hash, k, w);
    }
  }
}

module ProductStates {
  import opened BoolExpr
  import opened Alphabet
  import opened Nfas
  import opened Automata
  import opened AlgoChooser
  import opened CopyGraphs
  import opened LabelSteps
  import opened ProductLanguage

  /** The product under construction: the couples of `done` are expanded and k is being expanded. */
  ghost predicate Building(g1: Nfa, g2: Nfa, h: Nfa, hash: CoupleHash, stack: seq<(Loc, Loc, Loc)>, done: set<Couple>, k: Couple) {
    && Product(g1, g2, h, hash) && k in hash
    && Pending(hash, done + {k}, stack)
    && AllComplete(g1, g2, h, hash, done)
  }

  ghost predicate Working(manager: AutomataManager, res: Automaton, hash: CoupleHash, a1: Automaton, a2: Automaton,
                          stack: seq<(Loc, Loc, Loc)>, done: set<Couple>, k: Couple)
    reads manager, res, a1, a2
  {
    && res != a1 && res != a2
    && res.Valid() && res.Below(manager) && a1.Valid() && a2.Valid()
    && Building(a1.Graph(), a2.Graph(), res.Graph(), hash, stack, done, k)
  }

  lemma WorkingUnpack(manager: AutomataManager, res: Automaton, hash: CoupleHash, a1: Automaton, a2: Automaton,
                      stack: seq<(Loc, Loc, Loc)>, done: set<Couple>, k: Couple)
    requires Working(manager, res, hash, a1, a2, stack, done, k)
    ensures res != a1 && res != a2
    ensures res.Valid() && res.Below(manager) && a1.Valid() && a2.Valid()
    ensures Closed(res.Graph()) && res.Graph().locs == res.loc.Keys && res.Graph().sink == res.sink
    ensures res.Graph().init == res.initial
    ensures a1.Graph().locs == a1.loc.Keys && a2.Graph().locs == a2.loc.Keys
    ensures a1.Graph().sink == a1.sink && a2.Graph().sink == a2.sink
    ensures forall l :: l in a1.loc ==> (a1.loc[l].final <==> l in a1.Graph().final)
    ensures forall l :: l in a2.loc ==> (a2.loc[l].final <==> l in a2.Graph().final)
    ensures Building(a1.Graph(), a2.Graph(), res.Graph(), hash, stack, done, k)
    ensures k in hash && hash[k] in res.loc && k.0 in a1.loc && k.1 in a2.loc
  {
  }

  lemma WorkingPack(manager: AutomataManager, res: Automaton, hash: CoupleHash, a1: Automaton, a2: Automaton,
                    stack: seq<(Loc, Loc, Loc)>, done: set<Couple>, k: Couple)
    requires res != a1 && res != a2
    requires res.Valid() && res.Below(manager) && a1.Valid() && a2.Valid()
    requires Building(a1.Graph(), a2.Graph(), res.Graph(), hash, stack, done, k)
    ensures Working(manager, res, hash, a1, a2, stack, done, k)
  {
  }

  lemma BuildingFound(g1: Nfa, g2: Nfa, h: Nfa, hash: CoupleHash, stack: seq<(Loc, Loc, Loc)>, done: set<Couple>, k: Couple, d: Couple)
    requires Building(g1, g2, h, hash, stack, done, k) && Closed(h)
    ensures IsSinkCouple(g1, g2, d) ==> Dest(g1, g2, h, hash, d) == h.sink
    ensures !IsSinkCouple(g1, g2, d) ==> Dest(g1, g2, h, hash, d) == if d in hash then Some(hash[d]) else None
    ensures IsSinkCouple(g1, g2, d) <==> g1.sink == Some(d.0) || g2.sink == Some(d.1)
    ensures Dest(g1, g2, h, hash, d).Some? ==> Dest(g1, g2, h, hash, d).value in h.locs
  {
  }

  lemma BuildingCreated(g1: Nfa, g2: Nfa, h: Nfa, hash: CoupleHash, stack: seq<(Loc, Loc, Loc)>, done: set<Couple>, k: Couple, d: Couple, l: Loc)
    requires Building(g1, g2, h, hash, stack, done, k) && Closed(h) && Dest(g1, g2, h, hash, d).None?
    requires l !in h.locs && d.0 in g1.locs && d.1 in g2.locs
    ensures var h' := WithCouple(g1, g2, h, d, l);
            && Building(g1, g2, h', hash[d := l], [(d.0, d.1, l)] + stack, done, k)
            && Grows(h, hash, h', hash[d := l]) && Dest(g1, g2, h', hash[d := l], d) == Some(l)
            && l in h'.locs
  {
    CoupleCreated(g1, g2, h, hash, d, l);
    var h' := WithCouple(g1, g2, h, d, l);
    hide Product, Grows, AllComplete, Dest, Pending;
    AllKept(g1, g2, h, hash, h', hash[d := l], done);
    PendingPush(hash, done + {k}, stack, (d.0, d.1, l));
  }

  lemma BuildingTrans(g1: Nfa, g2: Nfa, h: Nfa, hash: CoupleHash, stack: seq<(Loc, Loc, Loc)>, done: set<Couple>, k: Couple,
                      t1: Trans, t2: Trans, lab: Label, l: Loc)
    requires Building(g1, g2, h, hash, stack, done, k)
    requires t1 in g1.trans && t1.src == k.0 && t2 in g2.trans && t2.src == k.1
    requires Dest(g1, g2, h, hash, (t1.dst, t2.dst)) == Some(l)
    requires IsSat(lab) && forall a :: Holds(lab, a) ==> Holds(t1.lab, a) && Holds(t2.lab, a)
    ensures var h' := WithTrans(h, Trans(hash[k], lab, l));
            Building(g1, g2, h', hash, stack, done, k) && Grows(h, hash, h', hash)
            && Dest(g1, g2, h', hash, (t1.dst, t2.dst)) == Some(l)
  {
    hide Product, AllComplete, Pending;
    var h' := WithTrans(h, Trans(hash[k], lab, l));
    TransAdded(g1, g2, h, hash, k, t1, t2, lab, l);
    AllKept(g1, g2, h, hash, h', hash, done);
  }

  /** A transition is given a weaker label that is sound as well. */
  lemma BuildingRelabel(g1: Nfa, g2: Nfa, h: Nfa, hash: CoupleHash, stack: seq<(Loc, Loc, Loc)>, done: set<Couple>, k: Couple,
                        t1: Trans, t2: Trans, and: Label, oldLabel: Label, l: Loc, h': Nfa)
    requires Building(g1, g2, h, hash, stack, done, k)
    requires t1 in g1.trans && t1.src == k.0 && t2 in g2.trans && t2.src == k.1
    requires Dest(g1, g2, h, hash, (t1.dst, t2.dst)) == Some(l)
    requires IsSat(and) && forall a :: Holds(and, a) ==> Holds(t1.lab, a) && Holds(t2.lab, a)
    requires h' == h.(trans := h'.trans)
    requires Relabelled(h.trans, h'.trans, hash[k], Transition(oldLabel, l), Or(oldLabel, and))
    ensures Building(g1, g2, h', hash, stack, done, k) && Grows(h, hash, h', hash)
    ensures Dest(g1, g2, h', hash, (t1.dst, t2.dst)) == Some(l)
  {
    hide Product, AllComplete, Pending, TransSound, Relabelled, Step, Holds, IsSat, Dest;
    var u := Trans(hash[k], Or(oldLabel, and), l);
    RelabelSteps(h, h', hash[k], oldLabel, and, l);
    RelabelSound(g1, g2, h, hash, k, t1, t2, and, oldLabel, l);
    AllSound(g1, g2, h, hash, h', u);
    AllKept(g1, g2, h, hash, h', hash, done);
    DestKept(g1, g2, h, hash, h', hash, (t1.dst, t2.dst));
  }

  lemma RelabelSound(g1: Nfa, g2: Nfa, h: Nfa, hash: CoupleHash, k: Couple, t1: Trans, t2: Trans, and: Label, oldLabel: Label, l: Loc)
    requires Product(g1, g2, h, hash) && k in hash
    requires t1 in g1.trans && t1.src == k.0 && t2 in g2.trans && t2.src == k.1
    requires Dest(g1, g2, h, hash, (t1.dst, t2.dst)) == Some(l)
    requires IsSat(and) && forall a :: Holds(and, a) ==> Holds(t1.lab, a) && Holds(t2.lab, a)
    requires Trans(hash[k], oldLabel, l) in h.trans
    ensures TransSound(g1, g2, h, hash, Trans(hash[k], Or(oldLabel, and), l))
  {
    var a0 :| Holds(and, a0);
    assert Holds(Or(oldLabel, and), a0);
    HoldsIsSat(Or(oldLabel, and), a0);
    forall a | Holds(Or(oldLabel, and), a) ensures Moves(g1, g2, h, hash, k, a, l) {
      if Holds(and, a) {
        assert Step(g1, k.0, a, t1.dst) && Step(g2, k.1, a, t2.dst);
      } else {
        assert Step(h, hash[k], a, l);
        StepMoves(g1, g2, h, hash, k, a, l);
      }
    }
  }

  lemma RelabelSteps(h: Nfa, h': Nfa, r: Loc, oldLabel: Label, and: Label, l: Loc)
    requires h' == h.(trans := h'.trans)
    requires Relabelled(h.trans, h'.trans, r, Transition(oldLabel, l), Or(oldLabel, and))
    ensures Trans(r, oldLabel, l) in h.trans && h'.trans <= h.trans + {Trans(r, Or(oldLabel, and), l)}
    ensures Trans(r, Or(oldLabel, and), l) in h'.trans
    ensures forall p: Loc, a: Letter, q: Loc :: Step(h, p, a, q) ==> Step(h', p, a, q)
  {
    forall p: Loc, a: Letter, q: Loc | Step(h, p, a, q) ensures Step(h', p, a, q) {
      var t :| t in h.trans && t.src == p && t.dst == q && Holds(t.lab, a);
      if t !in h'.trans {
        assert Holds(Or(oldLabel, and), a);
      }
    }
  }

  /** A couple is completely expanded. */
  lemma BuildingNext(g1: Nfa, g2: Nfa, h: Nfa, hash: CoupleHash, stack: seq<(Loc, Loc, Loc)>, done: set<Couple>, k: Couple)
    requires Building(g1, g2, h, hash, stack, done, k)
    requires Complete(g1, g2, h, hash, hash[k], Leaving(g1, {k.0}), Leaving(g2, {k.1}), {True})
    ensures Product(g1, g2, h, hash) && Pending(hash, done + {k}, stack) && AllComplete(g1, g2, h, hash, done + {k})
  {
  }

  lemma CoupleParts(t: (Loc, Loc, Loc))
    ensures CoupleOf(t) == (t.0, t.1)
  {
  }

  lemma GrowsAt(h: Nfa, hash: CoupleHash, h': Nfa, hash': CoupleHash, k: Couple)
    requires Grows(h, hash, h', hash') && k in hash
    ensures k in hash' && hash'[k] == hash[k]
  {
  }

  /** A transition is known by its end location: the number of transitions created before it. */
  ghost predicate Numbered(ts: seq<Transition>, merged: map<Loc, nat>) {
    forall l :: l in merged ==> merged[l] < |ts| && ts[|ts| - 1 - merged[l]].end == l
  }

  lemma NumberedNone(ts: seq<Transition>)
    ensures Numbered(ts, map[])
  {
  }

  lemma NumberedPush(ts: seq<Transition>, merged: map<Loc, nat>, t: Transition)
    requires Numbered(ts, merged)
    ensures Numbered([t] + ts, merged[t.end := |ts|])
  {
  }

  lemma NumberedAt(ts: seq<Transition>, merged: map<Loc, nat>, l: Loc)
    requires Numbered(ts, merged) && l in merged
    ensures merged[l] < |ts| && ts[|ts| - 1 - merged[l]].end == l
  {
  }

  lemma NumberedSet(ts: seq<Transition>, merged: map<Loc, nat>, n: nat, t: Transition)
    requires Numbered(ts, merged) && n < |ts| && t.end == ts[n].end
    ensures Numbered(ts[n := t], merged)
  {
  }

  lemma BuildingStart(g1: Nfa, g2: Nfa, r: Loc, final: bool, stack: seq<(Loc, Loc, Loc)>)
    requires SinkOk(g1) && SinkOk(g2) && Closed(g1) && Closed(g2) && stack == [(g1.init, g2.init, r)]
    requires final <==> g1.init in g1.final && g2.init in g2.final
    ensures var h, hash := Single(r, final), map[(g1.init, g2.init) := r];
            Product(g1, g2, h, hash) && Pending(hash, {}, stack) && AllComplete(g1, g2, h, hash, {})
  {
    assert CoupleOf(stack[0]) == (g1.init, g2.init);
  }

  lemma BuildingPack(g1: Nfa, g2: Nfa, h: Nfa, hash: CoupleHash, stack: seq<(Loc, Loc, Loc)>, done: set<Couple>, k: Couple)
    requires Product(g1, g2, h, hash) && k in hash && Pending(hash, done + {k}, stack) && AllComplete(g1, g2, h, hash, done)
    ensures Building(g1, g2, h, hash, stack, done, k)
  {
  }

  lemma ProductIsOk(g1: Nfa, g2: Nfa, h: Nfa, hash: CoupleHash)
    requires IsProduct(g1, g2, h, hash)
    ensures SinkOk(h)
  {
  }

}

module Intersections {
  import opened BoolExpr
  import opened Alphabet
  import opened Nfas
  import opened Automata
  import opened AlgoChooser
  import opened CopyGraphs
  import opened LabelSteps
  import opened AcceptingSearch
  import opened AcceptingLanguage
  import opened Accepting
  import opened ProductLanguage
  import opened ProductStates

  /** Find the location for a couple, or create it and push the couple. */
  method IntersectionFindOrCreateLoc(manager: AutomataManager, res: Automaton, hash: CoupleHash, stack: seq<(Loc, Loc, Loc)>,
                                     a1: Automaton, a2: Automaton, dest1: Loc, dest2: Loc, ghost done: set<Couple>, ghost k: Couple)
    returns (hash': CoupleHash, stack': seq<(Loc, Loc, Loc)>, l: Loc)
    requires Working(manager, res, hash, a1, a2, stack, done, k)
    requires dest1 in a1.loc && dest2 in a2.loc
    modifies res, manager
    ensures Working(manager, res, hash', a1, a2, stack', done, k)
    ensures Grows(old(res.Graph()), hash, res.Graph(), hash')
    ensures Dest(a1.Graph(), a2.Graph(), res.Graph(), hash', (dest1, dest2)) == Some(l) && l in res.loc
    ensures forall x :: x in old(res.loc) ==> x in res.loc && res.loc[x] == old(res.loc)[x]
    ensures old(manager.nextLoc) <= manager.nextLoc
  {
    hide *;
    ghost var g1, g2, h := a1.Graph(), a2.Graph(), res.Graph();
    WorkingUnpack(manager, res, hash, a1, a2, stack, done, k);
    BuildingFound(g1, g2, h, hash, stack, done, k, (dest1, dest2));
    hash', stack' := hash, stack;
    var isSink := a1.sink == Some(dest1) || a2.sink == Some(dest2);
    var found: Option<Loc> :=
      if isSink then res.sink
      else if (dest1, dest2) in hash then Some(hash[(dest1, dest2)]) else None;
    if found.None? {
      BuildingCreated(g1, g2, h, hash, stack, done, k, (dest1, dest2), manager.nextLoc);
      l := CreateCouple(manager, res, a1, a2, dest1, dest2, isSink);
      hash' := hash[(dest1, dest2) := l];
      stack' := [(dest1, dest2, l)] + stack;
      WorkingPack(manager, res, hash', a1, a2, stack', done, k);
    } else {
      l := found.value;
      GrowsSame(h, hash);
    }
  }

  method CreateCouple(manager: AutomataManager, res: Automaton, a1: Automaton, a2: Automaton, dest1: Loc, dest2: Loc, isSink: bool)
    returns (l: Loc)
    requires res.Valid() && res.Below(manager) && a1.Valid() && a2.Valid() && res != a1 && res != a2
    requires dest1 in a1.loc && dest2 in a2.loc
    requires isSink <==> IsSinkCouple(a1.Graph(), a2.Graph(), (dest1, dest2))
    modifies res, manager
    ensures res.Valid() && res.Below(manager)
    ensures l == old(manager.nextLoc) && manager.nextLoc == l + 1 && l !in old(res.loc) && l in res.loc
    ensures res.Graph() == WithCouple(a1.Graph(), a2.Graph(), old(res.Graph()), (dest1, dest2), l)
    ensures forall x :: x in old(res.loc) ==> x in res.loc && res.loc[x] == old(res.loc)[x]
  {
    l := res.AddLoc(manager, a1.loc[dest1].final && a2.loc[dest2].final);
    if isSink {
      res.SetSink(l);
    }
  }

  method CreateProductTransition(manager: AutomataManager, res: Automaton, ghost hash: CoupleHash, ghost stack: seq<(Loc, Loc, Loc)>,
                                 a1: Automaton, a2: Automaton, ghost done: set<Couple>, ghost k: Couple, r: Loc, l: Loc, lab: Label)
    requires Working(manager, res, hash, a1, a2, stack, done, k) && k in hash && hash[k] == r && l in res.loc
    requires Building(a1.Graph(), a2.Graph(), WithTrans(res.Graph(), Trans(r, lab, l)), hash, stack, done, k)
    modifies res
    ensures Working(manager, res, hash, a1, a2, stack, done, k)
    ensures res.Graph() == WithTrans(old(res.Graph()), Trans(r, lab, l))
    ensures Trans(r, lab, l) in res.Graph().trans
    ensures r in old(res.loc) && r in res.loc
    ensures res.loc[r].transitions == [Transition(lab, l)] + old(res.loc[r].transitions)
  {
    hide Building, TransOf, SetOf, FinalOf;
    WorkingUnpack(manager, res, hash, a1, a2, stack, done, k);
    res.CreateTransition(r, l, lab);
  }

  method Relabel(manager: AutomataManager, res: Automaton, a1: Automaton, a2: Automaton, r: Loc, n: nat, lab: Label)
    requires res.Valid() && res.Below(manager) && res != a1 && res != a2
    requires r in res.loc && n < |res.loc[r].transitions|
    modifies res
    ensures res.Valid() && res.Below(manager) && r in res.loc
    ensures res.Graph() == old(res.Graph()).(trans := res.Graph().trans)
    ensures Relabelled(old(res.Graph()).trans, res.Graph().trans, r, old(res.loc[r].transitions[n]), lab)
    ensures res.loc[r].transitions == old(res.loc[r].transitions)[n := Transition(lab, old(res.loc[r].transitions[n].end))]
  {
    hide Relabelled, TransOf, SetOf, FinalOf;
    res.SetTransitionLabel(r, n, lab);
  }

  // ----- The step over the alphabet

  /** The two transitions are both models of the symbol: the operands move together on it. */
  method AlphabetMove(manager: AutomataManager, res: Automaton, hash: CoupleHash, stack: seq<(Loc, Loc, Loc)>,
                      a1: Automaton, a2: Automaton, triple: (Loc, Loc, Loc), i: nat, j: nat, symbol: Label, ghost done: set<Couple>)
    returns (hash': CoupleHash, stack': seq<(Loc, Loc, Loc)>)
    requires Working(manager, res, hash, a1, a2, stack, done, CoupleOf(triple))
    requires CoupleOf(triple) in hash && hash[CoupleOf(triple)] == triple.2
    requires triple.0 in a1.loc && i < |a1.loc[triple.0].transitions| && triple.1 in a2.loc && j < |a2.loc[triple.1].transitions|
    requires IsSat(symbol)
    requires forall a :: Holds(symbol, a) ==> Holds(a1.loc[triple.0].transitions[i].lab, a) && Holds(a2.loc[triple.1].transitions[j].lab, a)
    modifies res, manager
    ensures Working(manager, res, hash', a1, a2, stack', done, CoupleOf(triple))
    ensures Grows(old(res.Graph()), hash, res.Graph(), hash') && old(manager.nextLoc) <= manager.nextLoc
    ensures CoupleOf(triple) in hash' && hash'[CoupleOf(triple)] == triple.2
    ensures Complete(a1.Graph(), a2.Graph(), res.Graph(), hash', triple.2, {TransAt(a1, triple.0, i)}, {TransAt(a2, triple.1, j)}, {symbol})
  {
    hide *;
    ghost var g1, g2, h, k := a1.Graph(), a2.Graph(), res.Graph(), CoupleOf(triple);
    var t1, t2 := a1.loc[triple.0].transitions[i], a2.loc[triple.1].transitions[j];
    ghost var u1, u2 := TransAt(a1, triple.0, i), TransAt(a2, triple.1, j);
    CoupleParts(triple);
    WorkingUnpack(manager, res, hash, a1, a2, stack, done, k);
    ListNext(a1, triple.0, i);
    ListNext(a2, triple.1, j);
    var l;
    hash', stack', l := IntersectionFindOrCreateLoc(manager, res, hash, stack, a1, a2, t1.end, t2.end, done, k);
    ghost var h1 := res.Graph();
    WorkingUnpack(manager, res, hash', a1, a2, stack', done, k);
    GrowsAt(h, hash, h1, hash', k);
    BuildingTrans(g1, g2, h1, hash', stack', done, k, u1, u2, symbol, l);
    CreateProductTransition(manager, res, hash', stack', a1, a2, done, k, triple.2, l, symbol);
    GrowsMore(h, hash, h1, hash', res.Graph(), hash');
    CompleteOne(g1, g2, res.Graph(), hash', triple.2, u1, u2, symbol, symbol, l);
  }

  /** The inner loop: a transition of the first operand and a symbol, for all transitions of the second. */
  method AlphabetSecond(manager: AutomataManager, res: Automaton, hash: CoupleHash, stack: seq<(Loc, Loc, Loc)>,
                        a1: Automaton, a2: Automaton, triple: (Loc, Loc, Loc), i: nat, symbol: Label,
                        ghost alphabet: set<Label>, ghost support: set<Prop>, ghost done: set<Couple>)
    returns (hash': CoupleHash, stack': seq<(Loc, Loc, Loc)>)
    requires Working(manager, res, hash, a1, a2, stack, done, CoupleOf(triple))
    requires CoupleOf(triple) in hash && hash[CoupleOf(triple)] == triple.2
    requires triple.0 in a1.loc && i < |a1.loc[triple.0].transitions| && triple.1 in a2.loc
    requires IsAlphabet(alphabet, support) && symbol in alphabet && IsModel(a1.loc[triple.0].transitions[i].lab, symbol)
    requires ListSupport(a1.loc[triple.0].transitions) <= support && ListSupport(a2.loc[triple.1].transitions) <= support
    modifies res, manager
    ensures Working(manager, res, hash', a1, a2, stack', done, CoupleOf(triple))
    ensures Grows(old(res.Graph()), hash, res.Graph(), hash') && old(manager.nextLoc) <= manager.nextLoc
    ensures CoupleOf(triple) in hash' && hash'[CoupleOf(triple)] == triple.2
    ensures Complete(a1.Graph(), a2.Graph(), res.Graph(), hash', triple.2, {TransAt(a1, triple.0, i)}, Leaving(a2.Graph(), {triple.1}), {symbol})
  {
    hide *;
    ghost var g1, g2, h, k := a1.Graph(), a2.Graph(), res.Graph(), CoupleOf(triple);
    ghost var u1, r := TransAt(a1, triple.0, i), triple.2;
    WorkingUnpack(manager, res, hash, a1, a2, stack, done, k);
    hash', stack' := hash, stack;
    var ts := a2.loc[triple.1].transitions;
    ListStart(a2, triple.1);
    GrowsSame(h, hash);
    CompleteNone(g1, g2, h, hash, r, {u1}, {}, {symbol});
    SupportCovers(a1.loc[triple.0].transitions, i, support);
    var j := 0;
    while j < |ts|
      invariant 0 <= j <= |ts|
      invariant Working(manager, res, hash', a1, a2, stack', done, k) && k in hash' && hash'[k] == r
      invariant a1.loc == old(a1.loc) && a2.loc == old(a2.loc) && a1.Graph() == g1 && a2.Graph() == g2
      invariant Grows(h, hash, res.Graph(), hash') && old(manager.nextLoc) <= manager.nextLoc
      invariant Complete(g1, g2, res.Graph(), hash', r, {u1}, TransFrom(triple.1, ts[..j]), {symbol})
    {
      ghost var h1, hash1, u2 := res.Graph(), hash', TransAt(a2, triple.1, j);
      WorkingUnpack(manager, res, hash', a1, a2, stack', done, k);
      ListNext(a1, triple.0, i);
      ListNext(a2, triple.1, j);
      if IsModel(ts[j].lab, symbol) {
        SupportCovers(ts, j, support);
        SymbolImplies(alphabet, support, symbol, a1.loc[triple.0].transitions[i].lab, ts[j].lab);
        hash', stack' := AlphabetMove(manager, res, hash', stack', a1, a2, triple, i, j, symbol, done);
        GrowsMore(h, hash, h1, hash1, res.Graph(), hash');
        CompleteKept(g1, g2, h1, hash1, res.Graph(), hash', r, {u1}, TransFrom(triple.1, ts[..j]), {symbol});
      } else {
        NotModel(ts[j].lab, symbol);
        CompleteUnsat(g1, g2, h1, hash1, r, {u1}, {u2}, symbol);
      }
      CompleteMore(g1, g2, res.Graph(), hash', r, {u1}, TransFrom(triple.1, ts[..j]), {symbol}, {u1}, {u2}, {symbol});
      j := j + 1;
    }
  }

  /** The middle loop: a symbol, for all transitions of the first operand. */
  method AlphabetFirst(manager: AutomataManager, res: Automaton, hash: CoupleHash, stack: seq<(Loc, Loc, Loc)>,
                       a1: Automaton, a2: Automaton, triple: (Loc, Loc, Loc), symbol: Label,
                       ghost alphabet: set<Label>, ghost support: set<Prop>, ghost done: set<Couple>)
    returns (hash': CoupleHash, stack': seq<(Loc, Loc, Loc)>)
    requires Working(manager, res, hash, a1, a2, stack, done, CoupleOf(triple))
    requires CoupleOf(triple) in hash && hash[CoupleOf(triple)] == triple.2
    requires triple.0 in a1.loc && triple.1 in a2.loc
    requires IsAlphabet(alphabet, support) && symbol in alphabet
    requires ListSupport(a1.loc[triple.0].transitions) <= support && ListSupport(a2.loc[triple.1].transitions) <= support
    modifies res, manager
    ensures Working(manager, res, hash', a1, a2, stack', done, CoupleOf(triple))
    ensures Grows(old(res.Graph()), hash, res.Graph(), hash') && old(manager.nextLoc) <= manager.nextLoc
    ensures CoupleOf(triple) in hash' && hash'[CoupleOf(triple)] == triple.2
    ensures Complete(a1.Graph(), a2.Graph(), res.Graph(), hash', triple.2,
                     Leaving(a1.Graph(), {triple.0}), Leaving(a2.Graph(), {triple.1}), {symbol})
  {
    hide *;
    ghost var g1, g2, h, k := a1.Graph(), a2.Graph(), res.Graph(), CoupleOf(triple);
    ghost var r, c2 := triple.2, Leaving(a2.Graph(), {triple.1});
    WorkingUnpack(manager, res, hash, a1, a2, stack, done, k);
    hash', stack' := hash, stack;
    var ts := a1.loc[triple.0].transitions;
    ListStart(a1, triple.0);
    GrowsSame(h, hash);
    CompleteNone(g1, g2, h, hash, r, {}, c2, {symbol});
    var i := 0;
    while i < |ts|
      invariant 0 <= i <= |ts|
      invariant Working(manager, res, hash', a1, a2, stack', done, k) && k in hash' && hash'[k] == r
      invariant a1.loc == old(a1.loc) && a2.loc == old(a2.loc) && a1.Graph() == g1 && a2.Graph() == g2
      invariant Grows(h, hash, res.Graph(), hash') && old(manager.nextLoc) <= manager.nextLoc
      invariant Complete(g1, g2, res.Graph(), hash', r, TransFrom(triple.0, ts[..i]), c2, {symbol})
    {
      ghost var h1, hash1, u1 := res.Graph(), hash', TransAt(a1, triple.0, i);
      WorkingUnpack(manager, res, hash', a1, a2, stack', done, k);
      ListNext(a1, triple.0, i);
      if IsModel(ts[i].lab, symbol) {
        hash', stack' := AlphabetSecond(manager, res, hash', stack', a1, a2, triple, i, symbol, alphabet, support, done);
        GrowsMore(h, hash, h1, hash1, res.Graph(), hash');
        CompleteKept(g1, g2, h1, hash1, res.Graph(), hash', r, TransFrom(triple.0, ts[..i]), c2, {symbol});
      } else {
        NotModel(ts[i].lab, symbol);
        CompleteUnsat(g1, g2, h1, hash1, r, {u1}, c2, symbol);
      }
      CompleteMore(g1, g2, res.Graph(), hash', r, TransFrom(triple.0, ts[..i]), c2, {symbol}, {u1}, c2, {symbol});
      i := i + 1;
    }
  }

  /** The alphabet step: for every symbol, both operands move together on it. */
  method AlphabetStep(manager: AutomataManager, res: Automaton, hash: CoupleHash, stack: seq<(Loc, Loc, Loc)>,
                      a1: Automaton, a2: Automaton, triple: (Loc, Loc, Loc), support: set<Prop>, ghost done: set<Couple>)
    returns (hash': CoupleHash, stack': seq<(Loc, Loc, Loc)>)
    requires Working(manager, res, hash, a1, a2, stack, done, CoupleOf(triple))
    requires CoupleOf(triple) in hash && hash[CoupleOf(triple)] == triple.2
    requires triple.0 in a1.loc && triple.1 in a2.loc
    requires ListSupport(a1.loc[triple.0].transitions) <= support && ListSupport(a2.loc[triple.1].transitions) <= support
    modifies res, manager
    ensures Working(manager, res, hash', a1, a2, stack', done, CoupleOf(triple))
    ensures Grows(old(res.Graph()), hash, res.Graph(), hash') && old(manager.nextLoc) <= manager.nextLoc
    ensures CoupleOf(triple) in hash' && hash'[CoupleOf(triple)] == triple.2
    ensures Complete(a1.Graph(), a2.Graph(), res.Graph(), hash', triple.2,
                     Leaving(a1.Graph(), {triple.0}), Leaving(a2.Graph(), {triple.1}), {True})
  {
    hide *;
    ghost var g1, g2, h, k := a1.Graph(), a2.Graph(), res.Graph(), CoupleOf(triple);
    ghost var r, c1, c2 := triple.2, Leaving(a1.Graph(), {triple.0}), Leaving(a2.Graph(), {triple.1});
    var alphabet := GetAlphabet(support);
    hash', stack' := hash, stack;
    GrowsSame(h, hash);
    CompleteNone(g1, g2, h, hash, r, c1, c2, {});
    var rest := alphabet;
    assert alphabet - rest == {};
    while rest != {}
      invariant rest <= alphabet
      invariant Working(manager, res, hash', a1, a2, stack', done, k) && k in hash' && hash'[k] == r
      invariant a1.loc == old(a1.loc) && a2.loc == old(a2.loc) && a1.Graph() == g1 && a2.Graph() == g2
      invariant Grows(h, hash, res.Graph(), hash') && old(manager.nextLoc) <= manager.nextLoc
      invariant Complete(g1, g2, res.Graph(), hash', r, c1, c2, alphabet - rest)
      decreases rest
    {
      var symbol :| symbol in rest;
      ghost var h1, hash1 := res.Graph(), hash';
      WorkingUnpack(manager, res, hash', a1, a2, stack', done, k);
      hash', stack' := AlphabetFirst(manager, res, hash', stack', a1, a2, triple, symbol, alphabet, support, done);
      GrowsMore(h, hash, h1, hash1, res.Graph(), hash');
      CompleteKept(g1, g2, h1, hash1, res.Graph(), hash', r, c1, c2, alphabet - rest);
      CompleteMore(g1, g2, res.Graph(), hash', r, c1, c2, alphabet - rest, c1, c2, {symbol});
      assert alphabet - (rest - {symbol}) == (alphabet - rest) + {symbol};
      rest := rest - {symbol};
    }
    assert alphabet - rest == alphabet;
    AlphabetAdmits(alphabet, support);
    CompleteForAll(g1, g2, res.Graph(), hash', r, c1, c2, alphabet);
  }

  // ----- The step over the transitions

  /** The conjunction of two labels is satisfiable: the operands move together on it.  A transition
      already created for the same couple of locations gets the disjunction of the labels; it is
      known by the number of transitions created before it. */
  method TransitionsMove(manager: AutomataManager, res: Automaton, hash: CoupleHash, stack: seq<(Loc, Loc, Loc)>,
                         a1: Automaton, a2: Automaton, triple: (Loc, Loc, Loc), i: nat, j: nat, merged: map<Loc, nat>, ghost done: set<Couple>)
    returns (hash': CoupleHash, stack': seq<(Loc, Loc, Loc)>, merged': map<Loc, nat>)
    requires Working(manager, res, hash, a1, a2, stack, done, CoupleOf(triple))
    requires CoupleOf(triple) in hash && hash[CoupleOf(triple)] == triple.2 && triple.2 in res.loc
    requires triple.0 in a1.loc && i < |a1.loc[triple.0].transitions| && triple.1 in a2.loc && j < |a2.loc[triple.1].transitions|
    requires IsSat(And(a1.loc[triple.0].transitions[i].lab, a2.loc[triple.1].transitions[j].lab))
    requires Numbered(res.loc[triple.2].transitions, merged)
    modifies res, manager
    ensures Working(manager, res, hash', a1, a2, stack', done, CoupleOf(triple))
    ensures Grows(old(res.Graph()), hash, res.Graph(), hash') && old(manager.nextLoc) <= manager.nextLoc
    ensures CoupleOf(triple) in hash' && hash'[CoupleOf(triple)] == triple.2 && triple.2 in res.loc
    ensures Numbered(res.loc[triple.2].transitions, merged')
    ensures Complete(a1.Graph(), a2.Graph(), res.Graph(), hash', triple.2, {TransAt(a1, triple.0, i)}, {TransAt(a2, triple.1, j)}, {True})
  {
    hide *;
    ghost var g1, g2, h, k, r := a1.Graph(), a2.Graph(), res.Graph(), CoupleOf(triple), triple.2;
    var t1, t2 := a1.loc[triple.0].transitions[i], a2.loc[triple.1].transitions[j];
    ghost var u1, u2 := TransAt(a1, triple.0, i), TransAt(a2, triple.1, j);
    CoupleParts(triple);
    WorkingUnpack(manager, res, hash, a1, a2, stack, done, k);
    ListNext(a1, triple.0, i);
    ListNext(a2, triple.1, j);
    var andLabel := And(t1.lab, t2.lab);
    AndHolds(t1.lab, t2.lab);
    var l;
    hash', stack', l := IntersectionFindOrCreateLoc(manager, res, hash, stack, a1, a2, t1.end, t2.end, done, k);
    ghost var h1 := res.Graph();
    WorkingUnpack(manager, res, hash', a1, a2, stack', done, k);
    GrowsAt(h, hash, h1, hash', k);
    merged' := merged;
    ghost var ts := res.loc[triple.2].transitions;
    if l !in merged {
      BuildingTrans(g1, g2, h1, hash', stack', done, k, u1, u2, andLabel, l);
      NumberedPush(ts, merged, Transition(andLabel, l));
      merged' := merged[l := |res.loc[triple.2].transitions|];
      CreateProductTransition(manager, res, hash', stack', a1, a2, done, k, triple.2, l, andLabel);
      CompleteOne(g1, g2, res.Graph(), hash', r, u1, u2, True, andLabel, l);
    } else {
      NumberedAt(ts, merged, l);
      var n := |res.loc[triple.2].transitions| - 1 - merged[l];
      var oldLabel := res.loc[triple.2].transitions[n].lab;
      Relabel(manager, res, a1, a2, triple.2, n, Or(oldLabel, andLabel));
      NumberedSet(ts, merged, n, Transition(Or(oldLabel, andLabel), l));
      BuildingRelabel(g1, g2, h1, hash', stack', done, k, u1, u2, andLabel, oldLabel, l, res.Graph());
      WorkingPack(manager, res, hash', a1, a2, stack', done, k);
      RelabelSteps(h1, res.Graph(), r, oldLabel, andLabel, l);
      OrHolds(oldLabel, andLabel);
      CompleteOne(g1, g2, res.Graph(), hash', r, u1, u2, True, Or(oldLabel, andLabel), l);
    }
    GrowsMore(h, hash, h1, hash', res.Graph(), hash');
  }

  /** The inner loop: a transition of the first operand, for all transitions of the second. */
  method TransitionsSecond(manager: AutomataManager, res: Automaton, hash: CoupleHash, stack: seq<(Loc, Loc, Loc)>,
                           a1: Automaton, a2: Automaton, triple: (Loc, Loc, Loc), i: nat, merged: map<Loc, nat>, ghost done: set<Couple>)
    returns (hash': CoupleHash, stack': seq<(Loc, Loc, Loc)>, merged': map<Loc, nat>)
    requires Working(manager, res, hash, a1, a2, stack, done, CoupleOf(triple))
    requires CoupleOf(triple) in hash && hash[CoupleOf(triple)] == triple.2 && triple.2 in res.loc
    requires triple.0 in a1.loc && i < |a1.loc[triple.0].transitions| && triple.1 in a2.loc
    requires Numbered(res.loc[triple.2].transitions, merged)
    modifies res, manager
    ensures Working(manager, res, hash', a1, a2, stack', done, CoupleOf(triple))
    ensures Grows(old(res.Graph()), hash, res.Graph(), hash') && old(manager.nextLoc) <= manager.nextLoc
    ensures CoupleOf(triple) in hash' && hash'[CoupleOf(triple)] == triple.2 && triple.2 in res.loc
    ensures Numbered(res.loc[triple.2].transitions, merged')
    ensures Complete(a1.Graph(), a2.Graph(), res.Graph(), hash', triple.2, {TransAt(a1, triple.0, i)}, Leaving(a2.Graph(), {triple.1}), {True})
  {
    hide *;
    ghost var g1, g2, h, k := a1.Graph(), a2.Graph(), res.Graph(), CoupleOf(triple);
    ghost var u1, r := TransAt(a1, triple.0, i), triple.2;
    WorkingUnpack(manager, res, hash, a1, a2, stack, done, k);
    hash', stack', merged' := hash, stack, merged;
    var ts := a2.loc[triple.1].transitions;
    ListStart(a2, triple.1);
    GrowsSame(h, hash);
    CompleteNone(g1, g2, h, hash, r, {u1}, {}, {True});
    var j := 0;
    while j < |ts|
      invariant 0 <= j <= |ts|
      invariant Working(manager, res, hash', a1, a2, stack', done, k) && k in hash' && hash'[k] == r && triple.2 in res.loc
      invariant a1.loc == old(a1.loc) && a2.loc == old(a2.loc) && a1.Graph() == g1 && a2.Graph() == g2
      invariant Grows(h, hash, res.Graph(), hash') && old(manager.nextLoc) <= manager.nextLoc
      invariant Numbered(res.loc[triple.2].transitions, merged')
      invariant Complete(g1, g2, res.Graph(), hash', r, {u1}, TransFrom(triple.1, ts[..j]), {True})
    {
      ghost var h1, hash1, u2 := res.Graph(), hash', TransAt(a2, triple.1, j);
      WorkingUnpack(manager, res, hash', a1, a2, stack', done, k);
      ListNext(a1, triple.0, i);
      ListNext(a2, triple.1, j);
      if IsSat(And(a1.loc[triple.0].transitions[i].lab, ts[j].lab)) {
        hash', stack', merged' := TransitionsMove(manager, res, hash', stack', a1, a2, triple, i, j, merged', done);
        GrowsMore(h, hash, h1, hash1, res.Graph(), hash');
        CompleteKept(g1, g2, h1, hash1, res.Graph(), hash', r, {u1}, TransFrom(triple.1, ts[..j]), {True});
      } else {
        NotSat(a1.loc[triple.0].transitions[i].lab, ts[j].lab);
        CompleteUnsat(g1, g2, h1, hash1, r, {u1}, {u2}, True);
      }
      CompleteMore(g1, g2, res.Graph(), hash', r, {u1}, TransFrom(triple.1, ts[..j]), {True}, {u1}, {u2}, {True});
      j := j + 1;
    }
  }

  /** The transitions step: every two transitions with compatible labels are combined. */
  method TransitionsStep(manager: AutomataManager, res: Automaton, hash: CoupleHash, stack: seq<(Loc, Loc, Loc)>,
                         a1: Automaton, a2: Automaton, triple: (Loc, Loc, Loc), ghost done: set<Couple>)
    returns (hash': CoupleHash, stack': seq<(Loc, Loc, Loc)>)
    requires Working(manager, res, hash, a1, a2, stack, done, CoupleOf(triple))
    requires CoupleOf(triple) in hash && hash[CoupleOf(triple)] == triple.2 && triple.2 in res.loc
    requires triple.0 in a1.loc && triple.1 in a2.loc
    modifies res, manager
    ensures Working(manager, res, hash', a1, a2, stack', done, CoupleOf(triple))
    ensures Grows(old(res.Graph()), hash, res.Graph(), hash') && old(manager.nextLoc) <= manager.nextLoc
    ensures CoupleOf(triple) in hash' && hash'[CoupleOf(triple)] == triple.2
    ensures Complete(a1.Graph(), a2.Graph(), res.Graph(), hash', triple.2,
                     Leaving(a1.Graph(), {triple.0}), Leaving(a2.Graph(), {triple.1}), {True})
  {
    hide *;
    ghost var g1, g2, h, k := a1.Graph(), a2.Graph(), res.Graph(), CoupleOf(triple);
    ghost var r, c2 := triple.2, Leaving(a2.Graph(), {triple.1});
    WorkingUnpack(manager, res, hash, a1, a2, stack, done, k);
    hash', stack' := hash, stack;
    var merged: map<Loc, nat> := map[];
    NumberedNone(res.loc[triple.2].transitions);
    var ts := a1.loc[triple.0].transitions;
    ListStart(a1, triple.0);
    GrowsSame(h, hash);
    CompleteNone(g1, g2, h, hash, r, {}, c2, {True});
    var i := 0;
    while i < |ts|
      invariant 0 <= i <= |ts|
      invariant Working(manager, res, hash', a1, a2, stack', done, k) && k in hash' && hash'[k] == r && triple.2 in res.loc
      invariant a1.loc == old(a1.loc) && a2.loc == old(a2.loc) && a1.Graph() == g1 && a2.Graph() == g2
      invariant Grows(h, hash, res.Graph(), hash') && old(manager.nextLoc) <= manager.nextLoc
      invariant Numbered(res.loc[triple.2].transitions, merged)
      invariant Complete(g1, g2, res.Graph(), hash', r, TransFrom(triple.0, ts[..i]), c2, {True})
    {
      ghost var h1, hash1, u1 := res.Graph(), hash', TransAt(a1, triple.0, i);
      WorkingUnpack(manager, res, hash', a1, a2, stack', done, k);
      ListNext(a1, triple.0, i);
      hash', stack', merged := TransitionsSecond(manager, res, hash', stack', a1, a2, triple, i, merged, done);
      GrowsMore(h, hash, h1, hash1, res.Graph(), hash');
      CompleteKept(g1, g2, h1, hash1, res.Graph(), hash', r, TransFrom(triple.0, ts[..i]), c2, {True});
      CompleteMore(g1, g2, res.Graph(), hash', r, TransFrom(triple.0, ts[..i]), c2, {True}, {u1}, c2, {True});
      i := i + 1;
    }
  }

  // ----- The operation

  /** The body of the loop: one couple is expanded, by either step. */
  method IntersectLocations(manager: AutomataManager, res: Automaton, hash: CoupleHash, stack: seq<(Loc, Loc, Loc)>,
                            a1: Automaton, a2: Automaton, triple: (Loc, Loc, Loc), ghost done: set<Couple>)
    returns (hash': CoupleHash, stack': seq<(Loc, Loc, Loc)>)
    requires Working(manager, res, hash, a1, a2, stack, done, CoupleOf(triple))
    requires CoupleOf(triple) in hash && hash[CoupleOf(triple)] == triple.2
    modifies res, manager
    ensures Working(manager, res, hash', a1, a2, stack', done, CoupleOf(triple))
    ensures old(manager.nextLoc) <= manager.nextLoc && CoupleOf(triple) in hash'
    ensures Complete(a1.Graph(), a2.Graph(), res.Graph(), hash', hash'[CoupleOf(triple)],
                     Leaving(a1.Graph(), {triple.0}), Leaving(a2.Graph(), {triple.1}), {True})
  {
    hide *;
    hash', stack' := hash, stack;
    CoupleParts(triple);
    WorkingUnpack(manager, res, hash, a1, a2, stack, done, CoupleOf(triple));
    var s1, s2 := a1.loc[triple.0], a2.loc[triple.1];
    if |s1.transitions| > 0 && |s2.transitions| > 0 {
      var chooser := new AutomataAlgoChooser();
      var methodType := chooser.ChooseFromLocationCouple(manager, s1, s2);
      if methodType == AlphabetBased {
        hash', stack' := AlphabetStep(manager, res, hash, stack, a1, a2, triple, chooser.lastSupport, done);
      } else {
        hash', stack' := TransitionsStep(manager, res, hash, stack, a1, a2, triple, done);
      }
    } else {
      ListStart(a1, triple.0);
      ListStart(a2, triple.1);
      assert |s1.transitions| == 0 ==> s1.transitions == s1.transitions[..0];
      assert |s2.transitions| == 0 ==> s2.transitions == s2.transitions[..0];
      CompleteNone(a1.Graph(), a2.Graph(), res.Graph(), hash, triple.2, Leaving(a1.Graph(), {triple.0}), Leaving(a2.Graph(), {triple.1}), {True});
    }
  }

  /** The product construction. */
  method BuildProduct(manager: AutomataManager, a1: Automaton, a2: Automaton) returns (res: Automaton, ghost hash: CoupleHash)
    requires a1.Usable(manager) && a2.Usable(manager)
    modifies manager
    ensures fresh(res) && res.Usable(manager) && old(manager.nextLoc) <= manager.nextLoc
    ensures IsProduct(a1.Graph(), a2.Graph(), res.Graph(), hash) && LabelsSat(res.Graph())
  {
    hide *;
    UsableUnpack(manager, a1);
    UsableUnpack(manager, a2);
    ghost var g1, g2 := a1.Graph(), a2.Graph();
    var isFinal := a1.loc[a1.initial].final && a2.loc[a2.initial].final;
    res := NewResult(manager, isFinal);
    var triple := (a1.initial, a2.initial, res.initial);
    var locationMap: CoupleHash := map[(a1.initial, a2.initial) := res.initial];
    var stack := [triple];
    ghost var done: set<Couple> := {};
    BuildingStart(g1, g2, res.initial, isFinal, stack);
    while stack != []
      invariant res != a1 && res != a2 && res.Valid() && res.Below(manager) && a1.Valid() && a2.Valid()
      invariant a1.Graph() == g1 && a2.Graph() == g2 && old(manager.nextLoc) <= manager.nextLoc
      invariant Product(g1, g2, res.Graph(), locationMap) && Pending(locationMap, done, stack) && AllComplete(g1, g2, res.Graph(), locationMap, done)
      decreases AllCouples(g1, g2) - done
    {
      triple := stack[0];
      ghost var k := CoupleOf(triple);
      PendingPop(locationMap, done, stack);
      CouplesBounded(g1, g2, res.Graph(), locationMap);
      stack := stack[1..];
      BuildingPack(g1, g2, res.Graph(), locationMap, stack, done, k);
      WorkingPack(manager, res, locationMap, a1, a2, stack, done, k);
      locationMap, stack := IntersectLocations(manager, res, locationMap, stack, a1, a2, triple, done);
      WorkingUnpack(manager, res, locationMap, a1, a2, stack, done, k);
      CoupleParts(triple);
      BuildingNext(g1, g2, res.Graph(), locationMap, stack, done, k);
      done := done + {k};
    }
    PendingDone(locationMap, done);
    FinishedIsProduct(g1, g2, res.Graph(), locationMap);
    ProductIsOk(g1, g2, res.Graph(), locationMap);
    UsablePack(manager, res);
    hash := locationMap;
  }

  method Intersection(manager: AutomataManager, a1: Automaton, a2: Automaton) returns (res: Automaton)
    requires a1.Usable(manager) && a2.Usable(manager)
    modifies manager
    ensures fresh(res) && res.Usable(manager) && old(manager.nextLoc) <= manager.nextLoc
    ensures forall l :: l in res.loc ==> old(manager.nextLoc) <= l
    ensures Lang(res.Graph()) == Lang(a1.Graph()) * Lang(a2.Graph())
    ensures Returns(res.Graph()) == if Lang(res.Graph()) == iset{} then iset{[]} else Returns(a1.Graph()) * Returns(a2.Graph())
    ensures LabelsSat(res.Graph()) && Trim(res.Graph()) && res.sink.None?
  {
    hide *;
    var product;
    ghost var hash;
    product, hash := BuildProduct(manager, a1, a2);
    UsableUnpack(manager, product);
    ProductMeans(a1.Graph(), a2.Graph(), product.Graph(), hash);
    EmptyIffCannotAccept(product.Graph());
    res := PruneNonAcceptingPaths(manager, product);
  }
}
