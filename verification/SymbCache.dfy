/** What iterating over the array visits. */
module SymbIteration {
  import opened SymbTables
  import opened SymbCells

  /** The cell holds a declared name of a category of the mask. */
  ghost predicate CellMatches(c: Cell, decls: map<Name, Decl>, mask: set<Category>) {
    c.Sym? && c.name in decls && decls[c.name].category in mask
  }

  /** The names that match among the first cells. */
  ghost function Visited(cells: seq<Cell>, decls: map<Name, Decl>, mask: set<Category>, n: nat): seq<Name>
    requires n <= |cells|
  {
    Matching(Live(cells[..n]), decls, mask)
  }

  lemma MatchingPush(order: seq<Name>, decls: map<Name, Decl>, mask: set<Category>, x: Name)
    ensures Matching(order + [x], decls, mask) ==
            Matching(order, decls, mask) + if x in decls && decls[x].category in mask then [x] else []
  {
    assert (order + [x])[..|order|] == order;
  }

  lemma VisitedNext(cells: seq<Cell>, decls: map<Name, Decl>, mask: set<Category>, n: nat)
    requires n < |cells|
    ensures Visited(cells, decls, mask, n + 1) ==
            Visited(cells, decls, mask, n) + if CellMatches(cells[n], decls, mask) then [cells[n].name] else []
  {
    assert cells[..n + 1] == cells[..n] + [cells[n]];
    LivePush(cells[..n], cells[n]);
    if cells[n].Sym? {
      MatchingPush(Live(cells[..n]), decls, mask, cells[n].name);
    } else {
      assert Live(cells[..n]) + [] == Live(cells[..n]);
    }
  }

  lemma {:induction false} VisitedSkip(cells: seq<Cell>, decls: map<Name, Decl>, mask: set<Category>, i: nat, j: nat)
    requires i <= j <= |cells| && forall k :: i <= k < j ==> !CellMatches(cells[k], decls, mask)
    ensures Visited(cells, decls, mask, j) == Visited(cells, decls, mask, i)
    decreases j - i
  {
    if i < j {
      VisitedSkip(cells, decls, mask, i, j - 1);
      VisitedNext(cells, decls, mask, j - 1);
    }
  }

  /** Exactly the names whose category is in the mask, each once, in the order of the map. */
  lemma MatchingExact(order: seq<Name>, decls: map<Name, Decl>, mask: set<Category>)
    requires forall i, j :: 0 <= i < j < |order| ==> order[i] != order[j]
    ensures var m := Matching(order, decls, mask);
            && (forall x :: x in m <==> x in order && x in decls && decls[x].category in mask)
            && (forall i, j :: 0 <= i < j < |m| ==> m[i] != m[j])
            && (exists at: seq<nat> :: Picks(order, m, at))
  {
    MatchingMembers(order, decls, mask);
    MatchingPicks(order, decls, mask);
    hide Matching;
    var m := Matching(order, decls, mask);
    var at: seq<nat> :| Picks(order, m, at);
    assert forall i, j :: 0 <= i < j < |m| ==> m[i] == order[at[i]] && m[j] == order[at[j]] && at[i] < at[j];
  }

  lemma {:induction false} MatchingMembers(order: seq<Name>, decls: map<Name, Decl>, mask: set<Category>)
    ensures forall x :: x in Matching(order, decls, mask) <==> x in order && x in decls && decls[x].category in mask
    decreases |order|
  {
    if order != [] {
      MatchingMembers(order[..|order| - 1], decls, mask);
      assert order == order[..|order| - 1] + [order[|order| - 1]];
    }
  }

  lemma {:induction false} MatchingPicks(order: seq<Name>, decls: map<Name, Decl>, mask: set<Category>)
    ensures exists at: seq<nat> :: Picks(order, Matching(order, decls, mask), at)
    decreases |order|
  {
    if order == [] {
      assert Picks(order, Matching(order, decls, mask), []);
    } else {
      var rest, x := order[..|order| - 1], order[|order| - 1];
      MatchingPicks(rest, decls, mask);
      assert order == rest + [x];
      MatchingPush(rest, decls, mask, x);
      hide Matching;
      var at: seq<nat> :| Picks(rest, Matching(rest, decls, mask), at);
      PicksPush(rest, Matching(rest, decls, mask), at, x);
      if x in decls && decls[x].category in mask {
        assert Picks(order, Matching(order, decls, mask), at + [|rest|]);
      } else {
        assert Matching(order, decls, mask) == Matching(rest, decls, mask);
      }
    }
  }

  lemma PicksPush(order: seq<Name>, m: seq<Name>, at: seq<nat>, x: Name)
    requires Picks(order, m, at)
    ensures Picks(order + [x], m, at) && Picks(order + [x], m + [x], at + [|order|])
  {
  }

  /** One sequence is made of the elements of another at increasing positions. */
  ghost predicate Picks(order: seq<Name>, m: seq<Name>, at: seq<nat>) {
    && |at| == |m|
    && (forall i :: 0 <= i < |at| ==> at[i] < |order| && order[at[i]] == m[i])
    && (forall i, j :: 0 <= i < j < |at| ==> at[i] < at[j])
  }
}

/** The symbol cache. */
module SymbCaches {
  import opened SymbTables
  import opened SymbCells
  import opened SymbIteration

  const INITIAL_SYMBOLS_ARRAY_SIZE := 128
  const SYMBOL_INFO_CHUNK_SIZE := 1024

  /** The sizes that the array takes. */
  ghost predicate Sized(n: nat) {
    n == INITIAL_SYMBOLS_ARRAY_SIZE || (n > INITIAL_SYMBOLS_ARRAY_SIZE && n % 2 == 0 && Sized(n / 2))
  }

  datatype SymbTableIter = SymbTableIter(index: nat, mask: set<Category>)

  /** The categories of the declarations that are not constants. */
  predicate Declarable(c: Category) {
    c != NoCategory && c != Constant
  }

  lemma {:induction false} SizedDouble(n: nat)
    requires Sized(n)
    ensures Sized(n * 2) && n >= INITIAL_SYMBOLS_ARRAY_SIZE
    decreases n
  {
    if n != INITIAL_SYMBOLS_ARRAY_SIZE {
      SizedDouble(n / 2);
    }
    assert n * 2 / 2 == n;
  }

  /** When more than three quarters of an array are holes, what is left fits half of it. */
  lemma LiveFitsHalf(size: nat, used: nat, empty: nat)
    requires Sized(size) && size > INITIAL_SYMBOLS_ARRAY_SIZE && used <= size && 4 * empty > 3 * size
    ensures Sized(size / 2) && size / 2 < size && used - empty < size / 2
  {
  }

  lemma {:induction false} LivePrefix(cells: seq<Cell>, n: nat)
    requires n <= |cells|
    ensures |Live(cells[..n])| <= |Live(cells)|
    ensures n < |cells| && cells[n].Sym? ==> |Live(cells[..n])| < |Live(cells)|
    decreases |cells|
  {
    if n == |cells| {
      assert cells[..n] == cells;
    } else {
      var rest := cells[..|cells| - 1];
      LivePrefix(rest, n);
      assert rest[..n] == cells[..n];
    }
  }

  lemma EmptyPooled()
    ensures Pooled(map[], map[], 0, [], 1, {}) && Live([]) == []
  {
  }

  /** Nothing is declared. */
  lemma EmptyOk(counters: map<Category, int>)
    requires forall c :: c != NoCategory ==> c in counters && counters[c] == 0
    ensures var d := Data([], 0, map[], map[], counters, 0, [], 1, {}); DataOk(d, {}) && TableOf(d) == Table([], map[])
  {
    var d := Data([], 0, map[], map[], counters, 0, [], 1, {});
    assert Decls(d.hash, d.info) == map[];
    assert forall c :: Named(map[], c) == {};
    assert Counted(map[], counters);
    assert Consistent([], map[], map[]) && Typed(map[], map[], {});
    hide *;
    EmptyPooled();
  }

  /** A name in a cell is declared, and comes next in the new array. */
  lemma ShrinkStep(d: Data, info: Records, j: nat)
    requires DataOk(d, {}) && j < |d.cells| && Repositioned(d.info, info, d.hash, Live(d.cells[..j]))
    ensures var order := Live(d.cells[..j]);
            if d.cells[j] == Nil then Live(d.cells[..j + 1]) == order
            else
              var x := d.cells[j].name;
              && IsDeclared(d.hash, x) && d.hash[x].ref in info
              && Live(d.cells[..j + 1]) == order + [x]
              && Repositioned(d.info, info[d.hash[x].ref := info[d.hash[x].ref].(position := |order|)], d.hash, order + [x])
  {
    hide Repositioned;
    var cells := d.cells;
    assert cells[..j + 1] == cells[..j] + [cells[j]];
    LivePush(cells[..j], cells[j]);
    if cells[j] == Nil {
      assert Live(cells[..j]) + [] == Live(cells[..j]);
    } else {
      ConsistentOnce(cells, d.hash, d.info);
      LiveMembers(cells[..j]);
      assert cells[j] == Sym(cells[j].name);
      assert cells[j] !in cells[..j];
      RepositionNext(cells, d.hash, d.info, info, Live(cells[..j]), cells[j].name);
    }
  }

  lemma ShrinkStart(d: Data)
    ensures Live(d.cells[..0]) == [] && Compact(Live(d.cells[..0])) == []
    ensures Repositioned(d.info, d.info, d.hash, Live(d.cells[..0]))
  {
  }

  lemma BatchStart(t: Table, batch: seq<Cell>)
    ensures Live(batch[..0]) == [] && Removable(t, []) && RemoveAll(t, []) == t
  {
  }

  /** The removals of a batch go on with the next cell. */
  lemma BatchStep(t: Table, batch: seq<Cell>, i: nat)
    requires i < |batch| && Removable(t, Live(batch))
    ensures Removable(t, Live(batch[..i])) && Removable(t, Live(batch[..i + 1]))
    ensures if batch[i] == Nil then Live(batch[..i + 1]) == Live(batch[..i])
            else
              && batch[i].name in RemoveAll(t, Live(batch[..i])).decls
              && RemoveAll(t, Live(batch[..i + 1])) == Remove(RemoveAll(t, Live(batch[..i])), batch[i].name)
  {
    RemovablePrefix(t, batch, i);
    RemovablePrefix(t, batch, i + 1);
    assert batch[..i + 1] == batch[..i] + [batch[i]];
    LivePush(batch[..i], batch[i]);
    hide Live, Remove;
    var done := Live(batch[..i]);
    if batch[i] == Nil {
      assert done + [] == done;
    } else {
      var x := batch[i].name;
      assert (done + [x])[..|done + [x]| - 1] == done;
    }
  }

  lemma {:induction false} RemovablePrefix(t: Table, batch: seq<Cell>, i: nat)
    requires i <= |batch| && Removable(t, Live(batch))
    ensures Removable(t, Live(batch[..i]))
    decreases |batch|
  {
    if i == |batch| {
      assert batch[..i] == batch;
    } else {
      var rest, last := batch[..|batch| - 1], batch[|batch| - 1];
      assert batch == rest + [last];
      LivePush(rest, last);
      assert last.Sym? ==> Live(batch)[..|Live(batch)| - 1] == Live(rest);
      assert last.Nil? ==> Live(batch) == Live(rest);
      RemovablePrefix(t, rest, i);
      assert rest[..i] == batch[..i];
    }
  }

  /** A cell matches exactly if the code finds it so. */
  lemma CellDecl(d: Data, i: nat, mask: set<Category>)
    requires DataOk(d, {}) && i < |d.cells|
    ensures d.cells[i].Sym? ==> IsDeclared(d.hash, d.cells[i].name) && d.hash[d.cells[i].name].ref in d.info
    ensures CellMatches(d.cells[i], TableOf(d).decls, mask) <==>
            d.cells[i].Sym? && d.info[d.hash[d.cells[i].name].ref].category in mask
  {
    hide Live, Pooled, Counted;
  }

  lemma TableOrder(d: Data)
    ensures TableOf(d).order == Live(d.cells)
  {
  }

  /** What the data say of one name. */
  lemma RecordOk(d: Data, x: Name)
    requires DataOk(d, {})
    ensures x in TableOf(d).decls <==> IsDeclared(d.hash, x)
    ensures IsDeclared(d.hash, x) ==>
              && d.hash[x].ref in d.info && d.info[d.hash[x].ref].category != NoCategory && Cached(d.info[d.hash[x].ref], x in d.damaged)
              && TableOf(d).decls[x] == DeclOf(d.info[d.hash[x].ref])
              && (d.info[d.hash[x].ref].category == Constant ==>
                    d.info[d.hash[x].ref].field1.Int? && d.info[d.hash[x].ref].field1.n >= 1 && d.info[d.hash[x].ref].field3 == Null)
  {
    hide Live, Pooled, Counted, Cached;
  }

  lemma BlankNext(a: Ref, b: Ref)
    ensures Blank(a).(next := b) == Blank(b)
  {
  }

  predicate Within(r: Ref, base: Ref) {
    base <= r < base + SYMBOL_INFO_CHUNK_SIZE
  }

  lemma ChunkMade(records: Records, base: Ref)
    requires forall r: Ref :: r in records <==> base <= r < base + SYMBOL_INFO_CHUNK_SIZE
    requires forall r: Ref :: base <= r < base + SYMBOL_INFO_CHUNK_SIZE ==>
               records[r] == Blank(if r < base + SYMBOL_INFO_CHUNK_SIZE - 1 then r + 1 else 0)
    ensures IsChunk(records, base, SYMBOL_INFO_CHUNK_SIZE)
  {
    hide Blank;
  }

  lemma ChunkAdded(info: Records, chunk: Records, base: Ref)
    requires IsChunk(chunk, base, SYMBOL_INFO_CHUNK_SIZE) && forall r :: r in info ==> r < base
    requires forall r: Ref :: r in chunk <==> base <= r < base + SYMBOL_INFO_CHUNK_SIZE
    ensures IsChunk(info + chunk, base, SYMBOL_INFO_CHUNK_SIZE)
    ensures forall r: Ref :: r in info + chunk <==> r in info || base <= r < base + SYMBOL_INFO_CHUNK_SIZE
    ensures forall r :: r in info ==> (info + chunk)[r] == info[r]
  {
    hide Blank;
  }

  lemma AddToCount(s: Slot, k: int)
    ensures s.Int? ==> Add(s, k) == Int(s.n + k)
  {
  }

  /** What adding a constant does to the declaration of a name. */
  lemma ConstantAdded(d: Data, x: Name)
    requires DataOk(d, {})
    ensures var t, u := TableOf(d), AddConstant(TableOf(d), x);
            if x !in t.decls then u.order == t.order + [x] && u.decls == t.decls[x := Decl(Constant, Int(1), Null)]
            else
              && u.order == t.order && x in u.decls && u.decls == t.decls[x := t.decls[x].(field1 := u.decls[x].field1)]
              && (t.decls[x].category == Constant ==> t.decls[x].field1.Int? && u.decls[x].field1 == Int(t.decls[x].field1.n + 1))
  {
    DataTable(d, {});
    hide DataOk, TableOf;
  }

  lemma SymbolRemoved(d: Data, x: Name)
    requires DataOk(d, {}) && x in TableOf(d).decls
    ensures WellFormed(TableOf(d))
  {
    DataTable(d, {});
  }

  /** Addresses are used once. */
  lemma RecordsBelow(d: Data)
    requires DataOk(d, {})
    ensures d.nextRef > 0 && forall r :: r in d.info ==> r < d.nextRef
  {
    hide Live, Consistent, Typed, Counted;
  }

  lemma IterStart(d: Data, mask: set<Category>, n: nat)
    requires n <= |d.cells| && forall k :: 0 <= k < n ==> !CellMatches(d.cells[k], TableOf(d).decls, mask)
    ensures Visited(d.cells, TableOf(d).decls, mask, n) == []
  {
    VisitedSkip(d.cells, TableOf(d).decls, mask, 0, n);
  }

  lemma IterEnd(d: Data, mask: set<Category>)
    ensures Visited(d.cells, TableOf(d).decls, mask, |d.cells|) == Matching(TableOf(d).order, TableOf(d).decls, mask)
  {
    assert d.cells[..|d.cells|] == d.cells;
  }

  class SymbCache {
    var symbolHash: SymbolHash
    var symbols: array<Cell>
    var symbolsIndex: nat
    var symbolsEmpty: nat
    var symbolsAllocated: nat
    var counters: map<Category, int>
    var info: Records
    var symbolInfoPool: Ref
    /** The address from which the next chunk is taken. */
    var nextRef: Ref
    /** The records of the pool, first to last. */
    ghost var free: seq<Ref>
    /** The names that were added as constants while they were declared as something else. */
    ghost var damaged: set<Name>

    ghost function State(): Data
      requires symbolsIndex <= symbols.Length
      reads this, symbols
    {
      Data(symbols[..symbolsIndex], symbolsEmpty, symbolHash, info, counters, symbolInfoPool, free, nextRef, damaged)
    }

    /** Everything holds, but some records are neither in use nor in the pool. */
    ghost predicate ValidBut(out: set<Ref>)
      reads this, symbols
    {
      && symbolsAllocated == symbols.Length && Sized(symbolsAllocated) && symbolsIndex <= symbolsAllocated
      && DataOk(State(), out)
    }

    ghost predicate Valid()
      reads this, symbols
    {
      ValidBut({})
    }

    /** The ordered map for which the cache stands. */
    ghost function Abs(): Table
      requires symbolsIndex <= symbols.Length
      reads this, symbols
    {
      TableOf(State())
    }

    constructor ()
      ensures Valid() && fresh(symbols) && Abs() == Table([], map[]) && damaged == {}
    {
      symbolHash, info, counters := map[], map[],
        map[Constant := 0, StateVar := 0, InputVar := 0, FrozenVar := 0, Define := 0, ArrayDefine := 0,
            Parameter := 0, Function := 0, VariableArray := 0];
      symbolsAllocated, symbolsIndex, symbolsEmpty := INITIAL_SYMBOLS_ARRAY_SIZE, 0, 0;
      symbols := new Cell[INITIAL_SYMBOLS_ARRAY_SIZE];
      symbolInfoPool, nextRef, free, damaged := 0, 1, [], {};
      new;
      EmptyOk(counters);
      assert State() == Data([], 0, map[], map[], counters, 0, [], 1, {});
      hide DataOk, TableOf;
    }

    /** A chunk of cleared records, each linked to the next one. */
    method AllocChunk() returns (records: Records)
      ensures forall r: Ref :: r in records <==> nextRef <= r < nextRef + SYMBOL_INFO_CHUNK_SIZE
      ensures IsChunk(records, nextRef, SYMBOL_INFO_CHUNK_SIZE)
    {
      hide Blank, IsChunk;
      records := map r: Ref | nextRef <= r < nextRef + SYMBOL_INFO_CHUNK_SIZE && Within(r, nextRef) :: Blank(0);
      var i := 0;
      while i < SYMBOL_INFO_CHUNK_SIZE - 1
        invariant 0 <= i <= SYMBOL_INFO_CHUNK_SIZE - 1
        invariant forall r: Ref :: r in records <==> nextRef <= r < nextRef + SYMBOL_INFO_CHUNK_SIZE
        invariant forall r: Ref :: nextRef <= r < nextRef + SYMBOL_INFO_CHUNK_SIZE ==>
                    records[r] == Blank(if r < nextRef + i then r + 1 else 0)
      {
        BlankNext(0, nextRef + i + 1);
        records := records[nextRef + i := records[nextRef + i].(next := nextRef + i + 1)];
        i := i + 1;
      }
      ChunkMade(records, nextRef);
    }

    /** Refills the pool with a chunk. */
    method RefillPool()
      requires Valid() && symbolInfoPool == 0
      modifies this`info, this`symbolInfoPool, this`nextRef, this`free
      ensures Valid() && Abs() == old(Abs()) && symbolInfoPool != 0
    {
      hide DataOk, TableOf, Sized, Blank, IsChunk, ChunkRefs;
      ghost var d := State();
      var chunk := AllocChunk();
      RecordsBelow(d);
      ChunkAdded(info, chunk, nextRef);
      info, symbolInfoPool, nextRef, free := info + chunk, nextRef, nextRef + SYMBOL_INFO_CHUNK_SIZE, ChunkRefs(nextRef, SYMBOL_INFO_CHUNK_SIZE);
      RefillOk(d, info, SYMBOL_INFO_CHUNK_SIZE);
    }

    method AllocSymbInfo() returns (res: Ref)
      requires Valid()
      modifies this`info, this`symbolInfoPool, this`nextRef, this`free
      ensures ValidBut({res}) && Abs() == old(Abs())
      ensures res in info && info[res] == Blank(info[res].next)
    {
      hide DataOk, TableOf, Sized, Blank;
      if symbolInfoPool == 0 {
        RefillPool();
      }
      AllocOk(State());
      res := symbolInfoPool;
      symbolInfoPool, free := info[res].next, free[1..];
    }

    method FreeSymbInfo(si: Ref)
      requires ValidBut({si})
      modifies this`info, this`symbolInfoPool, this`free
      ensures Valid() && Abs() == old(Abs())
    {
      hide DataOk, TableOf, Sized, Blank;
      FreeOk(State(), si);
      var tmp := symbolInfoPool;
      symbolInfoPool, info, free := si, info[si := Blank(tmp)], [si] + free;
    }

    method NewSymbol(sym: Name, r: Ref)
      requires ValidBut({r}) && !IsDeclared(symbolHash, sym)
      requires r in info && info[r].category != NoCategory && info[r].field3 == Null
      requires info[r].category == Constant ==> info[r].field1.Int? && info[r].field1.n >= 1
      modifies this, symbols
      ensures Valid() && (symbols == old(symbols) || fresh(symbols)) && damaged == old(damaged)
      ensures Abs() == Declare(old(Abs()), sym, old(DeclOf(info[r])))
      ensures Abs().order == old(Abs()).order + [sym] && Abs().decls == old(Abs()).decls[sym := old(DeclOf(info[r]))]
    {
      hide DataOk, TableOf, Sized, IsDeclared, DeclOf;
      ghost var d := State();
      DeclareOk(d, sym, r);
      symbolHash := symbolHash[sym := Info(r)];
      info := info[r := info[r].(position := symbolsIndex)];
      AppendCell(Sym(sym));
      var c := info[r].category;
      counters := counters[c := counters[c] + 1];
    }

    /** Puts a cell at the end of the array, which doubles if it is full. */
    method AppendCell(c: Cell)
      requires symbolsAllocated == symbols.Length && Sized(symbolsAllocated) && symbolsIndex <= symbolsAllocated
      modifies this`symbols, this`symbolsAllocated, this`symbolsIndex, symbols
      ensures symbolsAllocated == symbols.Length && Sized(symbolsAllocated) && symbolsIndex <= symbolsAllocated
      ensures symbols[..symbolsIndex] == old(symbols[..symbolsIndex]) + [c]
      ensures symbols == old(symbols) || fresh(symbols)
      ensures symbolsAllocated == if old(symbolsIndex < symbolsAllocated) then old(symbolsAllocated) else 2 * old(symbolsAllocated)
    {
      hide Sized;
      var index := symbolsIndex;
      SizedDouble(symbolsAllocated);
      if index == symbolsAllocated {
        symbolsAllocated := symbolsAllocated * 2;
        var grown := new Cell[symbolsAllocated];
        forall i | 0 <= i < symbols.Length { grown[i] := symbols[i]; }
        symbols := grown;
      }
      assert symbols[..index] == old(symbols[..symbolsIndex]);
      symbols[index] := c;
      symbolsIndex := symbolsIndex + 1;
      assert symbols[..symbolsIndex] == symbols[..index] + [c];
      assert symbols[..index] == old(symbols[..symbolsIndex]);
    }

    /** Declares a name that is not declared: a variable, a define, a parameter, a function or an array. */
    method NewDeclaration(name: Name, c: Category, field1: Slot, field2: Slot)
      requires Valid() && name !in Abs().decls && Declarable(c)
      modifies this, symbols
      ensures Valid() && (symbols == old(symbols) || fresh(symbols)) && damaged == old(damaged)
      ensures Abs() == Declare(old(Abs()), name, Decl(c, field1, field2))
      ensures Abs().order == old(Abs()).order + [name] && Abs().decls == old(Abs()).decls[name := Decl(c, field1, field2)]
    {
      hide DataOk, TableOf, Sized, IsDeclared;
      RecordOk(State(), name);
      var si := AllocSymbInfo();
      FillOk(State(), si, info[si].(category := c, field1 := field1, field2 := field2));
      info := info[si := info[si].(category := c, field1 := field1, field2 := field2)];
      NewSymbol(name, si);
    }

    method NewConstant(name: Name)
      requires Valid()
      modifies this, symbols
      ensures Valid() && (symbols == old(symbols) || fresh(symbols))
      ensures Abs() == AddConstant(old(Abs()), name)
      ensures if name !in old(Abs()).decls
              then Abs().order == old(Abs()).order + [name] && Abs().decls == old(Abs()).decls[name := Decl(Constant, Int(1), Null)]
              else
                var d := old(Abs()).decls[name];
                && Abs().order == old(Abs()).order && name in Abs().decls
                && Abs().decls == old(Abs()).decls[name := d.(field1 := Abs().decls[name].field1)]
                && (d.category == Constant ==> d.field1.Int? && Abs().decls[name].field1 == Int(d.field1.n + 1))
      ensures damaged == old(damaged) +
                if name in old(Abs().decls) && old(Abs().decls)[name].category != Constant then {name} else {}
    {
      hide DataOk, TableOf, Sized, IsDeclared, Add;
      ghost var d := State();
      RecordOk(d, name);
      ConstantAdded(d, name);
      if !IsDeclared(symbolHash, name) {
        var si := AllocSymbInfo();
        FillOk(State(), si, info[si].(category := Constant, field1 := Int(1)));
        info := info[si := info[si].(category := Constant, field1 := Int(1))];
        NewSymbol(name, si);
      } else {
        AddUse(name);
      }
    }

    /** Counts one more use, whatever has been declared. */
    method AddUse(name: Name)
      requires Valid() && IsDeclared(symbolHash, name)
      modifies this`info, this`damaged
      ensures Valid() && name in old(Abs().decls) && Abs() == AddConstant(old(Abs()), name)
      ensures damaged == old(damaged) + if old(Abs().decls)[name].category != Constant then {name} else {}
    {
      hide DataOk, TableOf, Sized, IsDeclared, Add;
      ghost var d := State();
      RecordOk(d, name);
      var r := RefOf(name);
      AddToCount(info[r].field1, 1);
      var si := info[r].(field1 := Add(info[r].field1, 1));
      ghost var worse := if si.category == Constant then damaged else damaged + {name};
      ChangeOk(d, name, si, worse);
      info, damaged := info[r := si], worse;
    }

    /** The record of a declared name. */
    function RefOf(name: Name): (r: Ref)
      requires IsDeclared(symbolHash, name)
      reads this
      ensures symbolHash[name] == Info(r)
    {
      symbolHash[name].ref
    }

    method RedeclareStateAsFrozenVar(name: Name)
      requires Valid() && name in Abs().decls && Abs().decls[name].category == StateVar
      modifies this`info, this`counters
      ensures Valid() && Abs() == Redeclare(old(Abs()), name)
      ensures name in Abs().decls && Abs().decls[name].category == FrozenVar
      ensures Abs().order == old(Abs()).order
      ensures Abs().decls == old(Abs()).decls[name := old(Abs()).decls[name].(category := FrozenVar)]
    {
      hide DataOk, TableOf, Sized, IsDeclared;
      ghost var d := State();
      RecordOk(d, name);
      var r := RefOf(name);
      var si := info[r].(category := FrozenVar);
      ChangeOk(d, name, si, damaged);
      info := info[r := si];
      counters := counters[FrozenVar := counters[FrozenVar] + 1];
      counters := counters[StateVar := counters[StateVar] - 1];
    }

    method RemoveSymbol(sym: Name, shrinkIfNeeded: bool)
      requires Valid() && sym in Abs().decls
      modifies this, symbols
      ensures Valid() && (symbols == old(symbols) || fresh(symbols)) && damaged <= old(damaged)
      ensures Abs() == Remove(old(Abs()), sym)
      ensures var d := old(Abs()).decls[sym];
              if d.category == Constant && d.field1 != Int(1)
              then
                && Abs().order == old(Abs()).order && d.field1.Int?
                && Abs().decls == old(Abs()).decls[sym := d.(field1 := Int(d.field1.n - 1))]
              else
                && sym !in Abs().decls && Abs().decls == old(Abs()).decls - {sym}
                && exists i: nat :: i < |old(Abs()).order| && old(Abs()).order[i] == sym &&
                                    Abs().order == old(Abs()).order[..i] + old(Abs()).order[i + 1..]
      ensures shrinkIfNeeded && sym !in Abs().decls ==> !MustShrink()
      ensures !shrinkIfNeeded ==> symbols == old(symbols) && symbolsIndex == old(symbolsIndex)
    {
      hide DataOk, TableOf, Sized, IsDeclared, Without, Blank, Add, WellFormed;
      ghost var d := State();
      RecordOk(d, sym);
      SymbolRemoved(d, sym);
      RemoveExact(Abs(), sym);
      var r := RefOf(sym);
      AddToCount(info[r].field1, -1);
      if info[r].category == Constant {
        var count := Add(info[r].field1, -1);
        info := info[r := info[r].(field1 := count)];
        if count.Int? && count.n > 0 {
          ChangeOk(d, sym, info[r], damaged);
          return;
        }
      }
      DropSymbol(d, sym, r);
      if shrinkIfNeeded {
        CheckAndShrinkSymbols();
      }
    }

    /** Takes a symbol out, whose record may have changed from what it was in a valid state. */
    method DropSymbol(ghost d: Data, sym: Name, r: Ref)
      requires symbolsAllocated == symbols.Length && Sized(symbolsAllocated) && symbolsIndex <= symbolsAllocated
      requires DataOk(d, {}) && IsDeclared(d.hash, sym) && d.hash[sym] == Info(r) && r in d.info
      requires r in info && State() == d.(info := d.info[r := info[r]])
      requires info[r].category == d.info[r].category && info[r].position == d.info[r].position
      modifies this`symbolHash, this`counters, this`symbolsEmpty, this`damaged, this`info, this`symbolInfoPool, this`free, symbols
      ensures Valid() && damaged <= old(damaged)
      ensures Abs() == Table(Without(TableOf(d).order, sym), TableOf(d).decls - {sym})
    {
      hide DataOk, TableOf, Sized, IsDeclared, Without, Blank;
      RemoveOk(d, sym, info[r]);
      var c := info[r].category;
      counters := counters[c := counters[c] - 1];
      symbolHash := symbolHash[sym := Removed];
      symbols[info[r].position] := Nil;
      symbolsEmpty, damaged := symbolsEmpty + 1, damaged - {sym};
      assert symbols[..symbolsIndex] == d.cells[info[r].position := Nil];
      FreeSymbInfo(r);
    }

    /** Removes the names of a batch of cells; the array shrinks at the end only. */
    method RemoveSymbols(batch: seq<Cell>)
      requires Valid() && Removable(Abs(), Live(batch))
      modifies this, symbols
      ensures Valid() && (symbols == old(symbols) || fresh(symbols)) && damaged <= old(damaged)
      ensures Abs() == RemoveAll(old(Abs()), Live(batch)) && !MustShrink()
    {
      hide DataOk, TableOf, Sized, Live, Remove;
      ghost var t := Abs();
      var i := 0;
      BatchStart(t, batch);
      while i < |batch|
        invariant 0 <= i <= |batch|
        invariant Valid() && (symbols == old(symbols) || fresh(symbols)) && damaged <= old(damaged)
        invariant Removable(t, Live(batch[..i])) && Abs() == RemoveAll(t, Live(batch[..i]))
      {
        BatchStep(t, batch, i);
        if batch[i] != Nil {
          RemoveSymbol(batch[i].name, false);
        }
        i := i + 1;
      }
      assert batch[..i] == batch;
      CheckAndShrinkSymbols();
    }

    /** More than three quarters of the array are holes. */
    predicate MustShrink()
      reads this
    {
      symbolsAllocated > INITIAL_SYMBOLS_ARRAY_SIZE && 4 * symbolsEmpty > 3 * symbolsAllocated
    }

    /** Halves the array when more than three quarters of it are holes: the declared names fit, and keep
        their order. */
    method CheckAndShrinkSymbols()
      requires Valid()
      modifies this`symbols, this`symbolsAllocated, this`symbolsIndex, this`symbolsEmpty, this`info
      ensures Valid() && Abs() == old(Abs())
      ensures old(MustShrink()) <==> old(symbolsAllocated) > 128 && 4 * old(symbolsEmpty) > 3 * old(symbolsAllocated)
      ensures if old(MustShrink())
              then fresh(symbols) && symbolsAllocated == old(symbolsAllocated) / 2 && symbolsEmpty == 0 &&
                   symbols[..symbolsIndex] == Compact(Abs().order)
              else symbols == old(symbols) && State() == old(State())
    {
      hide DataOk, TableOf, Sized, Compact, Live, Repositioned;
      if MustShrink() {
        DataTable(State(), {});
        LiveFitsHalf(symbolsAllocated, symbolsIndex, symbolsEmpty);
        symbolsAllocated := symbolsAllocated / 2;
        var newSymbols := new Cell[symbolsAllocated];
        ghost var d := State();
        var i := CopySymbols(newSymbols);
        ShrinkOk(d, info);
        TableOrder(d);
        symbols, symbolsIndex, symbolsEmpty := newSymbols, i, 0;
      }
    }

    /** Copies the names without the holes to another array, and updates their positions. */
    method CopySymbols(newSymbols: array<Cell>) returns (i: nat)
      requires symbolsIndex <= symbols.Length && DataOk(State(), {}) && newSymbols != symbols
      requires |Live(symbols[..symbolsIndex])| <= newSymbols.Length
      modifies this`info, newSymbols
      ensures i <= newSymbols.Length && newSymbols[..i] == Compact(Live(symbols[..symbolsIndex]))
      ensures Repositioned(old(info), info, symbolHash, Live(symbols[..symbolsIndex]))
    {
      hide DataOk, TableOf, Sized, Compact, Live, Repositioned;
      ghost var d := State();
      i := 0;
      var j := 0;
      ShrinkStart(d);
      while j < symbolsIndex
        invariant 0 <= j <= symbolsIndex && i == |Live(d.cells[..j])| && i <= newSymbols.Length
        invariant newSymbols[..i] == Compact(Live(d.cells[..j]))
        invariant Repositioned(d.info, info, symbolHash, Live(d.cells[..j]))
      {
        var sym := symbols[j];
        assert sym == d.cells[j];
        ShrinkStep(d, info, j);
        if sym != Nil {
          LivePrefix(d.cells, j);
          CompactPush(Live(d.cells[..j]), sym.name);
          var si := RefOf(sym.name);
          newSymbols[i] := sym;
          info := info[si := info[si].(position := i)];
          i := i + 1;
        }
        j := j + 1;
      }
      assert d.cells[..j] == d.cells;
    }

    /** The number of declared names of a category. */
    method Count(c: Category) returns (n: int)
      requires Valid() && c != NoCategory
      ensures n == |set x | x in Abs().decls && Abs().decls[x].category == c|
    {
      hide DataOk, TableOf, Sized;
      DataTable(State(), {});
      assert Named(Abs().decls, c) == set x | x in Abs().decls && Abs().decls[x].category == c;
      n := counters[c];
    }

    /** The actual parameter in its context, made once. */
    method GetFlattenActualParameter(name: Name) returns (flat: Slot)
      requires Valid() && name in Abs().decls && Abs().decls[name].category == Parameter
      modifies this`info
      ensures Valid() && Abs() == old(Abs())
      ensures name !in damaged ==> flat == InContext(Abs().decls[name].field1, Abs().decls[name].field2)
      ensures IsDeclared(symbolHash, name) && old(RefOf(name) in info) && RefOf(name) in info && info[RefOf(name)].field3 == flat
      ensures flat == if old(info[RefOf(name)].field3) != Null then old(info[RefOf(name)].field3)
                      else InContext(Abs().decls[name].field1, Abs().decls[name].field2)
    {
      hide DataOk, TableOf, Sized, IsDeclared;
      ghost var d := State();
      RecordOk(d, name);
      var si := RefOf(name);
      if info[si].field3 == Null {
        flat := InContext(info[si].field1, info[si].field2);
        ChangeOk(d, name, info[si].(field3 := flat), damaged);
        info := info[si := info[si].(field3 := flat)];
        assert Abs().decls == old(Abs().decls);
      }
      flat := info[si].field3;
    }

    // ----- Iterators

    ghost predicate MatchAt(i: nat, mask: set<Category>)
      requires symbolsIndex <= symbols.Length && i < symbolsIndex
      reads this, symbols
    {
      CellMatches(symbols[i], Abs().decls, mask)
    }

    /** An iterator is at a matching cell or at the end. */
    ghost predicate IterOk(iter: SymbTableIter)
      reads this, symbols
    {
      symbolsIndex <= symbols.Length && iter.index <= symbolsIndex && (iter.index < symbolsIndex ==> MatchAt(iter.index, iter.mask))
    }

    predicate IsIterEnd(iter: SymbTableIter)
      reads this
    {
      symbolsIndex == iter.index
    }

    /** The first matching cell. */
    method GenIter(mask: set<Category>) returns (iter: SymbTableIter)
      requires Valid()
      ensures IterOk(iter) && iter.mask == mask
      ensures forall k :: 0 <= k < iter.index ==> !MatchAt(k, mask)
    {
      hide DataOk, TableOf, Sized, CellMatches;
      ghost var d := State();
      var index := 0;
      if index != symbolsIndex {
        var sym := symbols[index];
        CellDecl(d, index, mask);
        while sym == Nil || info[RefOf(sym.name)].category !in mask
          invariant 0 <= index < symbolsIndex && sym == symbols[index] && sym == d.cells[index]
          invariant sym.Sym? ==> IsDeclared(symbolHash, sym.name) && symbolHash[sym.name].ref in info
          invariant MatchAt(index, mask) <==> sym.Sym? && info[symbolHash[sym.name].ref].category in mask
          invariant forall k :: 0 <= k < index ==> !MatchAt(k, mask)
          decreases symbolsIndex - index
        {
          index := index + 1;
          if index == symbolsIndex {
            break;
          }
          sym := symbols[index];
          CellDecl(d, index, mask);
        }
      }
      iter := SymbTableIter(index, mask);
    }

    /** The next matching cell. */
    method NextIter(iter: SymbTableIter) returns (next: SymbTableIter)
      requires Valid() && IterOk(iter) && !IsIterEnd(iter)
      ensures IterOk(next) && next.mask == iter.mask && next.index > iter.index
      ensures forall k :: iter.index < k < next.index ==> !MatchAt(k, iter.mask)
    {
      hide DataOk, TableOf, Sized, CellMatches;
      ghost var d := State();
      var index := iter.index;
      var found := false;
      while !found
        invariant iter.index <= index <= symbolsIndex && (!found ==> index < symbolsIndex) && (found ==> iter.index < index)
        invariant found && index < symbolsIndex ==> MatchAt(index, iter.mask)
        invariant forall k :: iter.index < k < index ==> !MatchAt(k, iter.mask)
        invariant !found && index > iter.index ==> !MatchAt(index, iter.mask)
        decreases symbolsIndex - index, !found
      {
        index := index + 1;
        if index == symbolsIndex {
          found := true;
        } else {
          CellDecl(d, index, iter.mask);
          var sym := symbols[index];
          assert sym == d.cells[index];
          found := sym != Nil && info[RefOf(sym.name)].category in iter.mask;
        }
      }
      next := SymbTableIter(index, iter.mask);
    }

    method IterGetSymbol(iter: SymbTableIter) returns (sym: Name)
      requires Valid() && IterOk(iter) && !IsIterEnd(iter)
      ensures symbols[iter.index] == Sym(sym)
    {
      hide DataOk, TableOf, Sized;
      sym := symbols[iter.index].name;
    }

    /** Iterating to the end visits exactly the declared names of the mask, in the order of the map. */
    method ForEach(mask: set<Category>) returns (names: seq<Name>)
      requires Valid()
      ensures names == Matching(Abs().order, Abs().decls, mask)
    {
      hide DataOk, TableOf, Sized, Visited, CellMatches;
      ghost var d := State();
      names := [];
      var iter := GenIter(mask);
      forall k | 0 <= k < iter.index ensures !CellMatches(d.cells[k], TableOf(d).decls, mask) {
        assert !MatchAt(k, mask);
      }
      IterStart(d, mask, iter.index);
      while !IsIterEnd(iter)
        invariant IterOk(iter) && iter.mask == mask && iter.index <= |d.cells|
        invariant names == Visited(d.cells, Abs().decls, mask, iter.index)
        decreases symbolsIndex - iter.index
      {
        var sym := IterGetSymbol(iter);
        names := names + [sym];
        VisitedNext(d.cells, Abs().decls, mask, iter.index);
        ghost var from := iter.index + 1;
        iter := NextIter(iter);
        forall k | from <= k < iter.index ensures !CellMatches(d.cells[k], TableOf(d).decls, mask) {
          assert !MatchAt(k, mask);
        }
        VisitedSkip(d.cells, Abs().decls, mask, from, iter.index);
      }
      IterEnd(d, mask);
    }
  }
}
