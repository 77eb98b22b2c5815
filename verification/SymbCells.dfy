/** The data of the symbol cache: an array with holes, a hash, records and a pool of free records. */
module SymbCells {
  import opened SymbTables

  datatype Cell = Nil | Sym(name: Name)

  /** The address of a record; 0 is the null pointer. */
  type Ref = nat

  datatype SymbolInfo = SymbolInfo(category: Category, field1: Slot, field2: Slot, field3: Slot, next: Ref, position: nat)

  /** What the hash knows of a name that has been declared: that it was removed, or its record. */
  datatype Entry = Removed | Info(ref: Ref)

  type SymbolHash = map<Name, Entry>
  type Records = map<Ref, SymbolInfo>

  /** A record after the memory is cleared. */
  function Blank(next: Ref): SymbolInfo {
    SymbolInfo(NoCategory, Null, Null, Null, next, 0)
  }

  ghost function DeclOf(si: SymbolInfo): Decl {
    Decl(si.category, si.field1, si.field2)
  }

  predicate IsDeclared(hash: SymbolHash, x: Name) {
    x in hash && hash[x].Info?
  }

  ghost function Decls(hash: SymbolHash, info: Records): map<Name, Decl> {
    map x | x in hash && hash[x].Info? && hash[x].ref in info :: DeclOf(info[hash[x].ref])
  }

  /** The names in the cells, in order. */
  ghost function Live(cells: seq<Cell>): seq<Name> {
    if cells == [] then []
    else Live(cells[..|cells| - 1]) + if cells[|cells| - 1].Sym? then [cells[|cells| - 1].name] else []
  }

  /** Cells and records point to each other. */
  ghost predicate Consistent(cells: seq<Cell>, hash: SymbolHash, info: Records) {
    && (forall i :: 0 <= i < |cells| && cells[i].Sym? ==>
          IsDeclared(hash, cells[i].name) && hash[cells[i].name].ref in info && info[hash[cells[i].name].ref].position == i)
    && (forall x :: IsDeclared(hash, x) ==>
          hash[x].ref in info && info[hash[x].ref].position < |cells| && cells[info[hash[x].ref].position] == Sym(x))
  }

  /** The cached flat parameter agrees with context and body, unless the record was damaged. */
  ghost predicate Cached(si: SymbolInfo, damaged: bool) {
    si.field3 == Null || damaged || (si.category == Parameter && si.field3 == InContext(si.field1, si.field2))
  }

  ghost predicate Typed(hash: SymbolHash, info: Records, damaged: set<Name>) {
    forall x :: IsDeclared(hash, x) && hash[x].ref in info ==>
      var si := info[hash[x].ref];
      && si.category != NoCategory
      && (si.category == Constant ==> si.field1.Int? && si.field1.n >= 1 && si.field3 == Null)
      && Cached(si, x in damaged)
  }

  ghost predicate InUse(hash: SymbolHash, r: Ref) {
    exists x :: x in hash && hash[x] == Info(r)
  }

  ghost predicate Chain(info: Records, head: Ref, free: seq<Ref>)
    decreases |free|
  {
    if free == [] then head == 0
    else head == free[0] && head in info && Chain(info, info[head].next, free[1..])
  }

  /** The pooled records are linked, cleared and not in use; every record is in use or pooled, except
      for those that are on their way between the two. */
  ghost predicate Pooled(hash: SymbolHash, info: Records, pool: Ref, free: seq<Ref>, nextRef: Ref, out: set<Ref>) {
    && Chain(info, pool, free) && nextRef > 0
    && (forall i, j :: 0 <= i < j < |free| ==> free[i] != free[j])
    && (forall r :: r in free ==> r in info && info[r] == Blank(info[r].next) && !InUse(hash, r))
    && (forall r :: r in info ==> 0 < r < nextRef && (r in free || InUse(hash, r) || r in out))
    && (forall r :: r in out ==> r in info && r !in free && !InUse(hash, r))
  }

  ghost function Named(decls: map<Name, Decl>, c: Category): set<Name> {
    set x | x in decls && decls[x].category == c
  }

  /** The counters are exact. */
  ghost predicate Counted(decls: map<Name, Decl>, counters: map<Category, int>) {
    forall c :: c != NoCategory ==> c in counters && counters[c] == |Named(decls, c)|
  }

  // ----- The cells in order

  lemma {:induction false} LiveMembers(cells: seq<Cell>)
    ensures |Live(cells)| <= |cells|
    ensures forall x :: x in Live(cells) <==> Sym(x) in cells
    decreases |cells|
  {
    if cells != [] {
      LiveMembers(cells[..|cells| - 1]);
      assert cells == cells[..|cells| - 1] + [cells[|cells| - 1]];
    }
  }

  lemma LivePush(cells: seq<Cell>, c: Cell)
    ensures Live(cells + [c]) == Live(cells) + if c.Sym? then [c.name] else []
  {
    assert (cells + [c])[..|cells|] == cells;
  }

  ghost predicate Once(cells: seq<Cell>) {
    forall i, j :: 0 <= i < j < |cells| && cells[i].Sym? && cells[j].Sym? ==> cells[i] != cells[j]
  }

  lemma {:induction false} LiveDistinct(cells: seq<Cell>)
    requires Once(cells)
    ensures forall i, j :: 0 <= i < j < |Live(cells)| ==> Live(cells)[i] != Live(cells)[j]
    decreases |cells|
  {
    if cells != [] {
      var rest, last := cells[..|cells| - 1], cells[|cells| - 1];
      LiveDistinct(rest);
      LiveMembers(rest);
      assert last.Sym? ==> last !in rest;
    }
  }

  lemma ConsistentOnce(cells: seq<Cell>, hash: SymbolHash, info: Records)
    requires Consistent(cells, hash, info)
    ensures Once(cells)
  {
  }

  /** Emptying a cell takes its name out of the order. */
  lemma {:induction false} LiveEmptied(cells: seq<Cell>, pos: nat, x: Name)
    requires pos < |cells| && cells[pos] == Sym(x) && Once(cells)
    ensures Live(cells[pos := Nil]) == Without(Live(cells), x)
    decreases |cells|
  {
    var rest, last := cells[..|cells| - 1], cells[|cells| - 1];
    var cells' := cells[pos := Nil];
    LiveMembers(rest);
    assert cells == rest + [last];
    LivePush(rest, last);
    if pos == |cells| - 1 {
      assert cells' == rest + [Nil] && Sym(x) !in rest;
      LivePush(rest, Nil);
      WithoutAbsent(Live(rest), x);
      WithoutPush(Live(rest), x, x);
    } else {
      LiveEmptied(rest, pos, x);
      assert cells' == rest[pos := Nil] + [last];
      LivePush(rest[pos := Nil], last);
      assert rest[pos] == Sym(x) && last != Sym(x);
      hide Live, Without;
      if last.Sym? {
        WithoutPush(Live(rest), x, last.name);
      } else {
        assert Live(rest) + [] == Live(rest) && Live(rest[pos := Nil]) + [] == Live(rest[pos := Nil]);
      }
    }
  }

  lemma WithoutPush(s: seq<Name>, x: Name, y: Name)
    ensures Without(s + [y], x) == Without(s, x) + if y == x then [] else [y]
  {
    assert (s + [y])[..|s|] == s;
  }

  /** The table that the data stand for is well formed. */
  lemma TableWellFormed(cells: seq<Cell>, hash: SymbolHash, info: Records, damaged: set<Name>)
    requires Consistent(cells, hash, info) && Typed(hash, info, damaged)
    ensures WellFormed(Table(Live(cells), Decls(hash, info)))
  {
    ConsistentOnce(cells, hash, info);
    LiveDistinct(cells);
    LiveMembers(cells);
    var order, decls := Live(cells), Decls(hash, info);
    forall x ensures x in order <==> x in decls {
      if Sym(x) in cells {
        var i :| 0 <= i < |cells| && cells[i] == Sym(x);
      }
      if x in decls {
        assert IsDeclared(hash, x);
      }
    }
  }

  /** Which records are in use when an entry of the hash changes. */
  lemma InUseUpdate(hash: SymbolHash, x: Name, e: Entry)
    ensures forall q :: InUse(hash[x := e], q) ==> InUse(hash, q) || e == Info(q)
    ensures forall q :: InUse(hash, q) && !(x in hash && hash[x] == Info(q)) ==> InUse(hash[x := e], q)
    ensures e.Info? ==> InUse(hash[x := e], e.ref)
  {
    var hash' := hash[x := e];
    forall q | InUse(hash', q) ensures InUse(hash, q) || e == Info(q) {
      var y :| y in hash' && hash'[y] == Info(q);
      assert y != x ==> y in hash && hash[y] == Info(q);
    }
    forall q | InUse(hash, q) && !(x in hash && hash[x] == Info(q)) ensures InUse(hash', q) {
      var y :| y in hash && hash[y] == Info(q);
      assert y in hash' && hash'[y] == Info(q);
    }
    assert x in hash' && hash'[x] == e;
  }

  lemma InUseDeclared(hash: SymbolHash, info: Records, r: Ref)
    requires (forall x :: IsDeclared(hash, x) ==> hash[x].ref in info) && InUse(hash, r)
    ensures r in info
  {
    var x :| x in hash && hash[x] == Info(r);
    assert IsDeclared(hash, x);
  }

  // ----- Declaring a name

  lemma DeclareCells(cells: seq<Cell>, hash: SymbolHash, info: Records, x: Name, r: Ref, si: SymbolInfo)
    requires Consistent(cells, hash, info) && !IsDeclared(hash, x) && !InUse(hash, r) && si.position == |cells|
    ensures Consistent(cells + [Sym(x)], hash[x := Info(r)], info[r := si])
  {
    var hash', info' := hash[x := Info(r)], info[r := si];
    forall y | IsDeclared(hash', y)
      ensures hash'[y].ref in info' && info'[hash'[y].ref].position < |cells| + 1 && (cells + [Sym(x)])[info'[hash'[y].ref].position] == Sym(y)
    {
      if y != x {
        assert IsDeclared(hash, y);
      }
    }
  }

  lemma DeclareDecls(hash: SymbolHash, info: Records, x: Name, r: Ref, si: SymbolInfo)
    requires !InUse(hash, r) && !IsDeclared(hash, x)
    ensures Decls(hash[x := Info(r)], info[r := si]) == Decls(hash, info)[x := DeclOf(si)]
  {
  }

  lemma DeclareTyped(hash: SymbolHash, info: Records, damaged: set<Name>, x: Name, r: Ref, si: SymbolInfo)
    requires Typed(hash, info, damaged) && !InUse(hash, r) && !IsDeclared(hash, x)
    requires si.category != NoCategory && si.field3 == Null
    requires si.category == Constant ==> si.field1.Int? && si.field1.n >= 1
    ensures Typed(hash[x := Info(r)], info[r := si], damaged)
  {
  }

  lemma DeclareCounted(decls: map<Name, Decl>, counters: map<Category, int>, x: Name, d: Decl)
    requires Counted(decls, counters) && x !in decls && d.category != NoCategory
    ensures Counted(decls[x := d], counters[d.category := counters[d.category] + 1])
  {
    hide Named;
    forall c | c != NoCategory ensures |Named(decls[x := d], c)| == |Named(decls, c)| + if d.category == c then 1 else 0 {
      NamedNew(decls, x, d, c);
    }
  }

  lemma NamedNew(decls: map<Name, Decl>, x: Name, d: Decl, c: Category)
    requires x !in decls
    ensures Named(decls[x := d], c) == Named(decls, c) + if d.category == c then {x} else {}
    ensures x !in Named(decls, c)
  {
  }

  // ----- Changing a record in place

  lemma ChangeCells(cells: seq<Cell>, hash: SymbolHash, info: Records, r: Ref, si: SymbolInfo)
    requires Consistent(cells, hash, info) && r in info && si.position == info[r].position
    ensures Consistent(cells, hash, info[r := si])
  {
  }

  lemma SameRecord(cells: seq<Cell>, hash: SymbolHash, info: Records, x: Name, y: Name)
    requires Consistent(cells, hash, info) && IsDeclared(hash, x) && IsDeclared(hash, y) && hash[x].ref == hash[y].ref
    ensures x == y
  {
  }

  lemma ChangeDecls(cells: seq<Cell>, hash: SymbolHash, info: Records, x: Name, si: SymbolInfo)
    requires Consistent(cells, hash, info) && IsDeclared(hash, x)
    ensures hash[x].ref in info
    ensures Decls(hash, info[hash[x].ref := si]) == Decls(hash, info)[x := DeclOf(si)]
    ensures x in Decls(hash, info) && Decls(hash, info)[x] == DeclOf(info[hash[x].ref])
  {
    forall y | IsDeclared(hash, y) && hash[y].ref == hash[x].ref ensures y == x {
      SameRecord(cells, hash, info, x, y);
    }
  }

  lemma ChangeTyped(cells: seq<Cell>, hash: SymbolHash, info: Records, damaged: set<Name>, damaged': set<Name>, x: Name, si: SymbolInfo)
    requires Consistent(cells, hash, info) && Typed(hash, info, damaged) && IsDeclared(hash, x) && hash[x].ref in info
    requires damaged <= damaged' <= damaged + {x}
    requires si.category != NoCategory && Cached(si, x in damaged')
    requires si.category == Constant ==> si.field1.Int? && si.field1.n >= 1 && si.field3 == Null
    ensures Typed(hash, info[hash[x].ref := si], damaged')
  {
    forall y | IsDeclared(hash, y) && hash[y].ref == hash[x].ref ensures y == x {
      SameRecord(cells, hash, info, x, y);
    }
  }

  lemma {:induction false} ChainKept(info: Records, head: Ref, free: seq<Ref>, r: Ref, si: SymbolInfo)
    requires Chain(info, head, free) && r !in free
    ensures Chain(info[r := si], head, free)
    decreases |free|
  {
    if free != [] {
      assert free == [free[0]] + free[1..];
      ChainKept(info, info[head].next, free[1..], r, si);
    }
  }

  lemma ChangePooled(hash: SymbolHash, info: Records, pool: Ref, free: seq<Ref>, nextRef: Ref, x: Name, si: SymbolInfo)
    requires Pooled(hash, info, pool, free, nextRef, {}) && IsDeclared(hash, x) && hash[x].ref in info
    ensures Pooled(hash, info[hash[x].ref := si], pool, free, nextRef, {})
  {
    assert InUse(hash, hash[x].ref);
    ChainKept(info, pool, free, hash[x].ref, si);
  }

  lemma NamedChange(decls: map<Name, Decl>, x: Name, d: Decl, c: Category)
    requires x in decls
    ensures Named(decls[x := d], c) == (Named(decls, c) - if decls[x].category == c then {x} else {}) + if d.category == c then {x} else {}
    ensures decls[x].category == c <==> x in Named(decls, c)
  {
  }

  lemma RecategorizeCounted(decls: map<Name, Decl>, counters: map<Category, int>, x: Name, d: Decl)
    requires Counted(decls, counters) && x in decls && d.category != NoCategory && decls[x].category != NoCategory
    ensures d.category == decls[x].category ==> Counted(decls[x := d], counters)
    ensures d.category != decls[x].category ==>
              Counted(decls[x := d], counters[d.category := counters[d.category] + 1][decls[x].category := counters[decls[x].category] - 1])
  {
    hide Named;
    forall c | c != NoCategory
      ensures |Named(decls[x := d], c)| ==
              |Named(decls, c)| - (if decls[x].category == c then 1 else 0) + if d.category == c then 1 else 0
    {
      NamedChange(decls, x, d, c);
    }
  }

  // ----- Removing a name

  lemma RemoveCells(cells: seq<Cell>, hash: SymbolHash, info: Records, x: Name, si: SymbolInfo)
    requires Consistent(cells, hash, info) && IsDeclared(hash, x) && hash[x].ref in info
    ensures var r := hash[x].ref;
            info[r].position < |cells| && Consistent(cells[info[r].position := Nil], hash[x := Removed], info[r := si])
    ensures Live(cells[info[hash[x].ref].position := Nil]) == Without(Live(cells), x)
    ensures |Live(cells[info[hash[x].ref].position := Nil])| == |Live(cells)| - 1
  {
    var r := hash[x].ref;
    var pos := info[r].position;
    RemoveLive(cells, hash, info, x);
    hide Live, Without;
    forall y | IsDeclared(hash[x := Removed], y)
      ensures hash[y].ref in info && hash[y].ref != r && info[hash[y].ref].position < |cells| && info[hash[y].ref].position != pos
    {
      assert IsDeclared(hash, y);
    }
  }

  lemma RemoveLive(cells: seq<Cell>, hash: SymbolHash, info: Records, x: Name)
    requires Consistent(cells, hash, info) && IsDeclared(hash, x) && hash[x].ref in info
    ensures info[hash[x].ref].position < |cells|
    ensures Live(cells[info[hash[x].ref].position := Nil]) == Without(Live(cells), x)
    ensures |Live(cells[info[hash[x].ref].position := Nil])| == |Live(cells)| - 1
  {
    ConsistentOnce(cells, hash, info);
    assert cells[info[hash[x].ref].position] == Sym(x);
    hide *;
    LiveEmptied(cells, info[hash[x].ref].position, x);
    LiveDistinct(cells);
    LiveMembers(cells);
    WithoutMembers(Live(cells), x);
  }

  lemma RemoveDecls(cells: seq<Cell>, hash: SymbolHash, info: Records, x: Name, si: SymbolInfo)
    requires Consistent(cells, hash, info) && IsDeclared(hash, x) && hash[x].ref in info
    ensures Decls(hash[x := Removed], info[hash[x].ref := si]) == Decls(hash, info) - {x}
  {
    forall y | IsDeclared(hash, y) && hash[y].ref == hash[x].ref ensures y == x {
      SameRecord(cells, hash, info, x, y);
    }
  }

  lemma RemoveTyped(cells: seq<Cell>, hash: SymbolHash, info: Records, damaged: set<Name>, x: Name, si: SymbolInfo)
    requires Consistent(cells, hash, info) && Typed(hash, info, damaged) && IsDeclared(hash, x) && hash[x].ref in info
    ensures Typed(hash[x := Removed], info[hash[x].ref := si], damaged - {x})
  {
    forall y | IsDeclared(hash, y) && hash[y].ref == hash[x].ref ensures y == x {
      SameRecord(cells, hash, info, x, y);
    }
    forall y | IsDeclared(hash[x := Removed], y) ensures y != x && IsDeclared(hash, y) {
    }
  }

  lemma RemoveCounted(decls: map<Name, Decl>, counters: map<Category, int>, x: Name)
    requires Counted(decls, counters) && x in decls && decls[x].category != NoCategory
    ensures Counted(decls - {x}, counters[decls[x].category := counters[decls[x].category] - 1])
  {
    var b := decls[x].category;
    forall c | c != NoCategory ensures Named(decls - {x}, c) == Named(decls, c) - if b == c then {x} else {} {
    }
    assert x in Named(decls, b);
  }

  /** The record of a removed name is on its way to the pool. */
  lemma RemovePooled(cells: seq<Cell>, hash: SymbolHash, info: Records, pool: Ref, free: seq<Ref>, nextRef: Ref, x: Name, si: SymbolInfo)
    requires Consistent(cells, hash, info) && Pooled(hash, info, pool, free, nextRef, {}) && IsDeclared(hash, x)
    ensures hash[x].ref in info
    ensures Pooled(hash[x := Removed], info[hash[x].ref := si], pool, free, nextRef, {hash[x].ref})
  {
    ChangePooled(hash, info, pool, free, nextRef, x, si);
    assert InUse(hash, hash[x].ref);
    InUseUpdate(hash, x, Removed);
    RemovedUnused(cells, hash, info, x);
    hide InUse, Consistent;
  }

  /** It is cleared and becomes the first of the pool. */
  lemma FreePooled(hash: SymbolHash, info: Records, pool: Ref, free: seq<Ref>, nextRef: Ref, r: Ref)
    requires Pooled(hash, info, pool, free, nextRef, {r})
    ensures r in info && Pooled(hash, info[r := Blank(pool)], r, [r] + free, nextRef, {})
  {
    ChainKept(info, pool, free, r, Blank(pool));
    ChainPush(info[r := Blank(pool)], pool, free, r);
    hide InUse, Chain;
    assert forall q :: q in [r] + free <==> q == r || q in free;
  }

  lemma ChainPush(info: Records, pool: Ref, free: seq<Ref>, r: Ref)
    requires Chain(info, pool, free) && r in info && info[r] == Blank(pool)
    ensures Chain(info, r, [r] + free)
  {
    assert ([r] + free)[1..] == free;
  }

  lemma RemovedUnused(cells: seq<Cell>, hash: SymbolHash, info: Records, x: Name)
    requires Consistent(cells, hash, info) && IsDeclared(hash, x)
    ensures !InUse(hash[x := Removed], hash[x].ref)
  {
    forall y | IsDeclared(hash, y) && hash[y].ref == hash[x].ref ensures y == x {
      SameRecord(cells, hash, info, x, y);
    }
    assert forall y :: y in hash[x := Removed] && hash[x := Removed][y].Info? ==> y != x && IsDeclared(hash, y);
  }

  // ----- Allocating a record

  /** The first record of the pool is handed out; it is cleared. */
  lemma AllocPooled(hash: SymbolHash, info: Records, pool: Ref, free: seq<Ref>, nextRef: Ref)
    requires Pooled(hash, info, pool, free, nextRef, {}) && pool != 0
    ensures free != [] && pool in info && info[pool] == Blank(info[pool].next) && !InUse(hash, pool)
    ensures Pooled(hash, info, info[pool].next, free[1..], nextRef, {pool})
  {
    var rest := free[1..];
    assert free == [pool] + rest;
    hide InUse;
    assert forall q :: q in free <==> q == pool || q in rest;
  }

  /** It goes to a name. */
  lemma UsePooled(hash: SymbolHash, info: Records, pool: Ref, free: seq<Ref>, nextRef: Ref, x: Name, r: Ref, si: SymbolInfo)
    requires Pooled(hash, info, pool, free, nextRef, {r}) && !IsDeclared(hash, x)
    ensures r in info && !InUse(hash, r)
    ensures Pooled(hash[x := Info(r)], info[r := si], pool, free, nextRef, {})
  {
    ChainKept(info, pool, free, r, si);
    InUseUpdate(hash, x, Info(r));
    hide InUse;
  }

  /** A chunk of cleared records, each linked to the next one. */
  ghost predicate IsChunk(info: Records, base: Ref, size: nat) {
    forall r :: base <= r < base + size ==> r in info && info[r] == Blank(if r + 1 < base + size then r + 1 else 0)
  }

  ghost function ChunkRefs(base: Ref, size: nat): seq<Ref> {
    seq(size, i requires 0 <= i => base + i)
  }

  lemma {:induction false} ChunkChain(info: Records, base: Ref, size: nat, head: Ref)
    requires IsChunk(info, base, size) && base <= head < base + size
    ensures Chain(info, head, ChunkRefs(head, base + size - head))
    decreases base + size - head
  {
    var refs := ChunkRefs(head, base + size - head);
    assert refs[0] == head;
    if head + 1 < base + size {
      ChunkChain(info, base, size, head + 1);
      assert refs[1..] == ChunkRefs(head + 1, base + size - head - 1);
    } else {
      assert refs[1..] == [];
    }
  }

  /** A chunk refills an empty pool. */
  lemma RefillPooled(hash: SymbolHash, info: Records, info': Records, free: seq<Ref>, nextRef: Ref, size: nat)
    requires Pooled(hash, info, 0, free, nextRef, {}) && size > 0
    requires forall x :: IsDeclared(hash, x) ==> hash[x].ref in info
    requires IsChunk(info', nextRef, size) && (forall r :: r in info' <==> r in info || nextRef <= r < nextRef + size)
    requires forall r :: r in info ==> info'[r] == info[r]
    ensures Pooled(hash, info', nextRef, ChunkRefs(nextRef, size), nextRef + size, {})
  {
    var refs := ChunkRefs(nextRef, size);
    ChunkChain(info', nextRef, size, nextRef);
    assert forall r :: r in free ==> r in info && r > 0;
    forall r | r in info' ensures r in refs || InUse(hash, r) {
      if r !in info {
        assert refs[r - nextRef] == r;
      }
    }
    forall r | InUse(hash, r) ensures r in info {
      InUseDeclared(hash, info, r);
    }
    assert forall r :: r in refs ==> r !in info;
    hide InUse;
  }

  lemma SameRecords(cells: seq<Cell>, hash: SymbolHash, info: Records, info': Records, damaged: set<Name>)
    requires Consistent(cells, hash, info) && Typed(hash, info, damaged)
    requires forall r :: r in info ==> r in info' && info'[r] == info[r]
    ensures Consistent(cells, hash, info') && Typed(hash, info', damaged) && Decls(hash, info') == Decls(hash, info)
  {
  }

  // ----- Shrinking

  ghost function Compact(order: seq<Name>): seq<Cell> {
    seq(|order|, i requires 0 <= i < |order| => Sym(order[i]))
  }

  lemma CompactPush(order: seq<Name>, x: Name)
    ensures Compact(order + [x]) == Compact(order) + [Sym(x)]
  {
  }

  lemma {:induction false} LiveCompact(order: seq<Name>)
    ensures Live(Compact(order)) == order
    decreases |order|
  {
    if order != [] {
      var rest, x := order[..|order| - 1], order[|order| - 1];
      LiveCompact(rest);
      assert order == rest + [x];
      CompactPush(rest, x);
      LivePush(Compact(rest), Sym(x));
    }
  }

  /** Only positions have changed, and those of the names of the prefix are their new ones. */
  ghost predicate Repositioned(info0: Records, info: Records, hash: SymbolHash, prefix: seq<Name>) {
    && info.Keys == info0.Keys
    && (forall r :: r in info ==> info[r].(position := 0) == info0[r].(position := 0))
    && (forall r :: r in info && !InUse(hash, r) ==> info[r] == info0[r])
    && (forall i :: 0 <= i < |prefix| ==> IsDeclared(hash, prefix[i]) && hash[prefix[i]].ref in info && info[hash[prefix[i]].ref].position == i)
  }

  lemma RepositionNext(cells: seq<Cell>, hash: SymbolHash, info0: Records, info: Records, prefix: seq<Name>, x: Name)
    requires Consistent(cells, hash, info0) && Repositioned(info0, info, hash, prefix)
    requires IsDeclared(hash, x) && x !in prefix
    ensures hash[x].ref in info
    ensures Repositioned(info0, info[hash[x].ref := info[hash[x].ref].(position := |prefix|)], hash, prefix + [x])
  {
    var r := hash[x].ref;
    assert InUse(hash, r);
    forall y | IsDeclared(hash, y) && hash[y].ref == r ensures y == x {
      SameRecord(cells, hash, info0, y, x);
    }
  }

  /** After shrinking, cells and records point to each other again, and nothing else has changed. */
  lemma ShrinkCells(cells: seq<Cell>, hash: SymbolHash, info0: Records, info: Records, damaged: set<Name>)
    requires Consistent(cells, hash, info0) && Typed(hash, info0, damaged) && Repositioned(info0, info, hash, Live(cells))
    ensures Consistent(Compact(Live(cells)), hash, info) && Typed(hash, info, damaged)
    ensures Decls(hash, info) == Decls(hash, info0) && Live(Compact(Live(cells))) == Live(cells)
  {
    var order := Live(cells);
    LiveCompact(order);
    LiveMembers(cells);
    hide Live, Cached;
    forall x | IsDeclared(hash, x)
      ensures hash[x].ref in info && info[hash[x].ref].position < |order| && Compact(order)[info[hash[x].ref].position] == Sym(x)
    {
      assert Sym(x) in cells;
      var i :| 0 <= i < |order| && order[i] == x;
    }
    ShrinkTyped(hash, info0, info, damaged, order);
  }

  lemma ShrinkTyped(hash: SymbolHash, info0: Records, info: Records, damaged: set<Name>, order: seq<Name>)
    requires Typed(hash, info0, damaged) && Repositioned(info0, info, hash, order)
    ensures Typed(hash, info, damaged) && Decls(hash, info) == Decls(hash, info0)
  {
    forall r | r in info
      ensures info[r].category == info0[r].category && info[r].field1 == info0[r].field1
      ensures info[r].field2 == info0[r].field2 && info[r].field3 == info0[r].field3
    {
      assert info[r].(position := 0) == info0[r].(position := 0);
    }
  }

  lemma {:induction false} ChainSame(info0: Records, info: Records, head: Ref, free: seq<Ref>)
    requires Chain(info0, head, free) && forall r :: r in free ==> r in info && r in info0 && info[r] == info0[r]
    ensures Chain(info, head, free)
    decreases |free|
  {
    if free != [] {
      assert free == [free[0]] + free[1..];
      ChainSame(info0, info, info0[head].next, free[1..]);
    }
  }

  lemma ShrinkPooled(hash: SymbolHash, info0: Records, info: Records, pool: Ref, free: seq<Ref>, nextRef: Ref, prefix: seq<Name>)
    requires Pooled(hash, info0, pool, free, nextRef, {}) && Repositioned(info0, info, hash, prefix)
    ensures Pooled(hash, info, pool, free, nextRef, {})
  {
    ChainSame(info0, info, pool, free);
  }

  // ----- All of it

  /** The data of the cache, as values. */
  datatype Data = Data(cells: seq<Cell>, empty: nat, hash: SymbolHash, info: Records, counters: map<Category, int>,
                       pool: Ref, free: seq<Ref>, nextRef: Ref, damaged: set<Name>)

  ghost predicate DataOk(d: Data, out: set<Ref>) {
    && Consistent(d.cells, d.hash, d.info) && Typed(d.hash, d.info, d.damaged)
    && Pooled(d.hash, d.info, d.pool, d.free, d.nextRef, out)
    && Counted(Decls(d.hash, d.info), d.counters)
    && d.empty + |Live(d.cells)| == |d.cells|
  }

  /** The table for which the data stand. */
  ghost function TableOf(d: Data): Table {
    Table(Live(d.cells), Decls(d.hash, d.info))
  }

  lemma DataTable(d: Data, out: set<Ref>)
    requires DataOk(d, out)
    ensures WellFormed(TableOf(d))
    ensures forall x :: x in TableOf(d).decls <==> IsDeclared(d.hash, x)
    ensures forall x :: IsDeclared(d.hash, x) ==> d.hash[x].ref in d.info && TableOf(d).decls[x] == DeclOf(d.info[d.hash[x].ref])
    ensures forall x :: IsDeclared(d.hash, x) ==> d.info[d.hash[x].ref].position < |d.cells|
    ensures |Live(d.cells)| <= |d.cells| && d.empty == |d.cells| - |Live(d.cells)|
    ensures forall c :: c != NoCategory ==> c in d.counters && d.counters[c] == |Named(TableOf(d).decls, c)|
  {
    TableWellFormed(d.cells, d.hash, d.info, d.damaged);
    LiveMembers(d.cells);
  }

  /** The position of a name is where it is in the array, and nowhere else. */
  lemma PositionsExact(d: Data, out: set<Ref>, x: Name, i: nat)
    requires DataOk(d, out) && i < |d.cells|
    ensures d.cells[i] == Sym(x) <==> IsDeclared(d.hash, x) && d.hash[x].ref in d.info && d.info[d.hash[x].ref].position == i
  {
    hide Live, Typed, Pooled, Counted;
  }

  /** A record in the pool belongs to no name and has no cached body, two names never share a record, and
      no record is lost. */
  lemma RecordsAccounted(d: Data, r: Ref)
    requires DataOk(d, {})
    ensures r in d.free ==> r in d.info && d.info[r].field3 == Null && forall x :: IsDeclared(d.hash, x) ==> d.hash[x].ref != r
    ensures forall x, y :: IsDeclared(d.hash, x) && IsDeclared(d.hash, y) && d.hash[x].ref == d.hash[y].ref ==> x == y
    ensures r in d.info && r !in d.free ==> exists x :: IsDeclared(d.hash, x) && d.hash[x].ref == r
  {
    hide Live, Typed, Counted;
    if r in d.free {
      UnusedElsewhere(d.hash, r);
    }
    forall x, y | IsDeclared(d.hash, x) && IsDeclared(d.hash, y) && d.hash[x].ref == d.hash[y].ref ensures x == y {
      SameRecord(d.cells, d.hash, d.info, x, y);
    }
    if r in d.info && r !in d.free {
      var x :| x in d.hash && d.hash[x] == Info(r);
      assert IsDeclared(d.hash, x);
    }
  }

  lemma AllocOk(d: Data)
    requires DataOk(d, {}) && d.pool != 0
    ensures d.pool in d.info && d.free != [] && d.info[d.pool] == Blank(d.info[d.pool].next)
    ensures var e := d.(pool := d.info[d.pool].next, free := d.free[1..]);
            DataOk(e, {d.pool}) && TableOf(e) == TableOf(d)
  {
    AllocPooled(d.hash, d.info, d.pool, d.free, d.nextRef);
  }

  lemma RefillOk(d: Data, info': Records, size: nat)
    requires DataOk(d, {}) && d.pool == 0 && size > 0
    requires IsChunk(info', d.nextRef, size) && (forall r :: r in info' <==> r in d.info || d.nextRef <= r < d.nextRef + size)
    requires forall r :: r in d.info ==> info'[r] == d.info[r]
    ensures var e := d.(info := info', pool := d.nextRef, free := ChunkRefs(d.nextRef, size), nextRef := d.nextRef + size);
            DataOk(e, {}) && TableOf(e) == TableOf(d)
  {
    RefillPooled(d.hash, d.info, info', d.free, d.nextRef, size);
    SameRecords(d.cells, d.hash, d.info, info', d.damaged);
  }

  /** The fields of a record on its way to a name are set. */
  lemma FillOk(d: Data, r: Ref, si: SymbolInfo)
    requires DataOk(d, {r})
    ensures r in d.info
    ensures var e := d.(info := d.info[r := si]); DataOk(e, {r}) && TableOf(e) == TableOf(d)
  {
    ChainKept(d.info, d.pool, d.free, r, si);
    FillSame(d, r, si);
    hide Live, Counted;
  }

  lemma FillSame(d: Data, r: Ref, si: SymbolInfo)
    requires Consistent(d.cells, d.hash, d.info) && Typed(d.hash, d.info, d.damaged) && !InUse(d.hash, r)
    ensures Consistent(d.cells, d.hash, d.info[r := si]) && Typed(d.hash, d.info[r := si], d.damaged)
    ensures Decls(d.hash, d.info[r := si]) == Decls(d.hash, d.info)
  {
    hide *;
    UnusedElsewhere(d.hash, r);
    FillCells(d.cells, d.hash, d.info, r, si);
    FillTyped(d.hash, d.info, d.damaged, r, si);
  }

  lemma UnusedElsewhere(hash: SymbolHash, r: Ref)
    requires !InUse(hash, r)
    ensures forall x :: IsDeclared(hash, x) ==> hash[x].ref != r
  {
    assert forall x :: IsDeclared(hash, x) ==> hash[x] == Info(hash[x].ref);
  }

  lemma FillCells(cells: seq<Cell>, hash: SymbolHash, info: Records, r: Ref, si: SymbolInfo)
    requires Consistent(cells, hash, info) && forall x :: IsDeclared(hash, x) ==> hash[x].ref != r
    ensures Consistent(cells, hash, info[r := si])
  {
  }

  lemma FillTyped(hash: SymbolHash, info: Records, damaged: set<Name>, r: Ref, si: SymbolInfo)
    requires Typed(hash, info, damaged) && forall x :: IsDeclared(hash, x) ==> hash[x].ref != r
    ensures Typed(hash, info[r := si], damaged) && Decls(hash, info[r := si]) == Decls(hash, info)
  {
    hide Cached, DeclOf;
    assert forall x :: x in hash && hash[x].Info? ==> IsDeclared(hash, x);
  }

  lemma DeclareOk(d: Data, x: Name, r: Ref)
    requires DataOk(d, {r}) && !IsDeclared(d.hash, x) && r in d.info
    requires d.info[r].category != NoCategory && d.info[r].field3 == Null
    requires d.info[r].category == Constant ==> d.info[r].field1.Int? && d.info[r].field1.n >= 1
    ensures d.info[r].category in d.counters
    ensures var si := d.info[r].(position := |d.cells|);
            var e := d.(cells := d.cells + [Sym(x)], hash := d.hash[x := Info(r)], info := d.info[r := si],
                        counters := d.counters[si.category := d.counters[si.category] + 1]);
            DataOk(e, {}) && TableOf(e) == Declare(TableOf(d), x, DeclOf(d.info[r]))
  {
    var si := d.info[r].(position := |d.cells|);
    UsePooled(d.hash, d.info, d.pool, d.free, d.nextRef, x, r, si);
    DeclareCells(d.cells, d.hash, d.info, x, r, si);
    DeclareDecls(d.hash, d.info, x, r, si);
    DeclareTyped(d.hash, d.info, d.damaged, x, r, si);
    DeclareCounted(Decls(d.hash, d.info), d.counters, x, DeclOf(si));
    LivePush(d.cells, Sym(x));
  }

  /** The fields of the record of a name change, and maybe its category. */
  lemma ChangeOk(d: Data, x: Name, si: SymbolInfo, damaged': set<Name>)
    requires DataOk(d, {}) && IsDeclared(d.hash, x) && d.hash[x].ref in d.info
    requires si.position == d.info[d.hash[x].ref].position && si.category != NoCategory
    requires d.damaged <= damaged' <= d.damaged + {x} && Cached(si, x in damaged')
    requires si.category == Constant ==> si.field1.Int? && si.field1.n >= 1 && si.field3 == Null
    ensures var b := d.info[d.hash[x].ref].category;
            && b in d.counters && si.category in d.counters
            && var e := d.(info := d.info[d.hash[x].ref := si], damaged := damaged',
                           counters := if b == si.category then d.counters
                                       else d.counters[si.category := d.counters[si.category] + 1][b := d.counters[b] - 1]);
               DataOk(e, {}) && TableOf(e) == TableOf(d).(decls := TableOf(d).decls[x := DeclOf(si)])
  {
    var r := d.hash[x].ref;
    ChangeCells(d.cells, d.hash, d.info, r, si);
    ChangeDecls(d.cells, d.hash, d.info, x, si);
    ChangeTyped(d.cells, d.hash, d.info, d.damaged, damaged', x, si);
    ChangePooled(d.hash, d.info, d.pool, d.free, d.nextRef, x, si);
    assert d.info[r].category != NoCategory;
    RecategorizeCounted(Decls(d.hash, d.info), d.counters, x, DeclOf(si));
    hide Live, Pooled, Consistent, Typed;
  }

  /** A name is removed; the fields of its record may have changed on the way. */
  lemma RemoveOk(d: Data, x: Name, si: SymbolInfo)
    requires DataOk(d, {}) && IsDeclared(d.hash, x) && d.hash[x].ref in d.info
    ensures var r := d.hash[x].ref;
            var c := d.info[r].category;
            && c in d.counters && d.info[r].position < |d.cells|
            && var e := d.(cells := d.cells[d.info[r].position := Nil], empty := d.empty + 1, hash := d.hash[x := Removed],
                           info := d.info[r := si], counters := d.counters[c := d.counters[c] - 1], damaged := d.damaged - {x});
               DataOk(e, {r}) && TableOf(e) == Table(Without(TableOf(d).order, x), TableOf(d).decls - {x})
  {
    var r := d.hash[x].ref;
    hide *;
    DataParts(d, {});
    RemoveCells(d.cells, d.hash, d.info, x, si);
    RemoveDecls(d.cells, d.hash, d.info, x, si);
    RemoveTyped(d.cells, d.hash, d.info, d.damaged, x, si);
    RemovePooled(d.cells, d.hash, d.info, d.pool, d.free, d.nextRef, x, si);
    CategoryKnown(d.cells, d.hash, d.info, d.damaged, d.counters, x);
    RemoveCounted(Decls(d.hash, d.info), d.counters, x);
    var e := d.(cells := d.cells[d.info[r].position := Nil], empty := d.empty + 1, hash := d.hash[x := Removed],
                info := d.info[r := si], counters := d.counters[d.info[r].category := d.counters[d.info[r].category] - 1],
                damaged := d.damaged - {x});
    DataParts(e, {r});
  }

  lemma DataParts(d: Data, out: set<Ref>)
    ensures DataOk(d, out) <==>
              && Consistent(d.cells, d.hash, d.info) && Typed(d.hash, d.info, d.damaged)
              && Pooled(d.hash, d.info, d.pool, d.free, d.nextRef, out)
              && Counted(Decls(d.hash, d.info), d.counters)
              && d.empty + |Live(d.cells)| == |d.cells|
    ensures TableOf(d) == Table(Live(d.cells), Decls(d.hash, d.info))
  {
    hide Consistent, Typed, Pooled, Counted, Live, Decls;
  }

  /** The category of a declared name is one that is counted. */
  lemma CategoryKnown(cells: seq<Cell>, hash: SymbolHash, info: Records, damaged: set<Name>, counters: map<Category, int>, x: Name)
    requires Consistent(cells, hash, info) && Typed(hash, info, damaged) && Counted(Decls(hash, info), counters)
    requires IsDeclared(hash, x) && hash[x].ref in info
    ensures info[hash[x].ref].category != NoCategory && info[hash[x].ref].category in counters
    ensures x in Decls(hash, info) && Decls(hash, info)[x].category == info[hash[x].ref].category
  {
    hide Named;
  }

  lemma FreeOk(d: Data, r: Ref)
    requires DataOk(d, {r})
    ensures r in d.info
    ensures var e := d.(info := d.info[r := Blank(d.pool)], pool := r, free := [r] + d.free);
            DataOk(e, {}) && TableOf(e) == TableOf(d)
  {
    FreePooled(d.hash, d.info, d.pool, d.free, d.nextRef, r);
    FillSame(d, r, Blank(d.pool));
  }

  lemma ShrinkOk(d: Data, info': Records)
    requires DataOk(d, {}) && Repositioned(d.info, info', d.hash, Live(d.cells))
    ensures var e := d.(cells := Compact(Live(d.cells)), empty := 0, info := info');
            DataOk(e, {}) && TableOf(e) == TableOf(d)
  {
    ShrinkCells(d.cells, d.hash, d.info, info', d.damaged);
    ShrinkPooled(d.hash, d.info, info', d.pool, d.free, d.nextRef, Live(d.cells));
  }
}
