/** The symbol table as a plain ordered map: what the symbol cache must agree with. */
module SymbTables {

  type Name = nat

  datatype Category =
    | NoCategory | Constant | StateVar | InputVar | FrozenVar | Define | ArrayDefine | Parameter | Function | VariableArray

  /** An untyped field of a record: a pointer, a number, a number added to a pointer, or the node that
      a context and a body make. */
  datatype Slot = Null | Ptr(p: nat) | Int(n: int) | Skewed(slot: Slot, offset: int) | InContext(ctx: Slot, body: Slot)

  /** Adding to a field that is meant to hold a number. */
  function Add(s: Slot, k: int): Slot {
    match s
    case Null => Int(k)
    case Int(n) => Int(n + k)
    case Skewed(t, n) => if n + k == 0 then t else Skewed(t, n + k)
    case _ => if k == 0 then s else Skewed(s, k)
  }

  /** A declaration: its category, and type, context or number of uses, and body. */
  datatype Decl = Decl(category: Category, field1: Slot, field2: Slot)

  /** The declared names in the order of their latest declaration, and their declarations. */
  datatype Table = Table(order: seq<Name>, decls: map<Name, Decl>)

  ghost predicate WellFormed(t: Table) {
    && (forall i, j :: 0 <= i < j < |t.order| ==> t.order[i] != t.order[j])
    && (forall x :: x in t.order <==> x in t.decls)
    && (forall x :: x in t.decls && t.decls[x].category == Constant ==> t.decls[x].field1.Int? && t.decls[x].field1.n >= 1)
    && (forall x :: x in t.decls ==> t.decls[x].category != NoCategory)
  }

  ghost function Without(s: seq<Name>, x: Name): seq<Name> {
    if s == [] then [] else Without(s[..|s| - 1], x) + if s[|s| - 1] == x then [] else [s[|s| - 1]]
  }

  ghost function Declare(t: Table, x: Name, d: Decl): Table {
    Table(t.order + [x], t.decls[x := d])
  }

  /** Declaring a constant once more only counts. */
  ghost function AddConstant(t: Table, x: Name): Table {
    if x !in t.decls then Declare(t, x, Decl(Constant, Int(1), Null))
    else t.(decls := t.decls[x := t.decls[x].(field1 := Add(t.decls[x].field1, 1))])
  }

  /** A constant declared several times is counted down; anything else disappears. */
  ghost function Remove(t: Table, x: Name): Table
    requires x in t.decls
  {
    var d := t.decls[x];
    if d.category == Constant && d.field1 != Int(1) then t.(decls := t.decls[x := d.(field1 := Add(d.field1, -1))])
    else Table(Without(t.order, x), t.decls - {x})
  }

  ghost function Redeclare(t: Table, x: Name): Table
    requires x in t.decls
  {
    t.(decls := t.decls[x := t.decls[x].(category := FrozenVar)])
  }

  /** The names of a batch are removed one after the other. */
  ghost predicate Removable(t: Table, batch: seq<Name>)
    decreases |batch|, 0
  {
    batch == [] || (Removable(t, batch[..|batch| - 1]) && batch[|batch| - 1] in RemoveAll(t, batch[..|batch| - 1]).decls)
  }

  ghost function RemoveAll(t: Table, batch: seq<Name>): Table
    requires Removable(t, batch)
    decreases |batch|, 1
  {
    if batch == [] then t else Remove(RemoveAll(t, batch[..|batch| - 1]), batch[|batch| - 1])
  }

  /** The names of a set of categories, in order. */
  ghost function Matching(order: seq<Name>, decls: map<Name, Decl>, mask: set<Category>): seq<Name> {
    if order == [] then []
    else
      var x := order[|order| - 1];
      Matching(order[..|order| - 1], decls, mask) + if x in decls && decls[x].category in mask then [x] else []
  }

  // ----- The operations keep the map well formed

  lemma {:induction false} WithoutMembers(s: seq<Name>, x: Name)
    requires forall i, j :: 0 <= i < j < |s| ==> s[i] != s[j]
    ensures var w := Without(s, x);
            && (forall y :: y in w <==> y in s && y != x)
            && (forall i, j :: 0 <= i < j < |w| ==> w[i] != w[j])
            && |w| == |s| - if x in s then 1 else 0
    decreases |s|
  {
    if s != [] {
      var r, y := s[..|s| - 1], s[|s| - 1];
      WithoutMembers(r, x);
      assert s == r + [y];
      assert y !in r;
    }
  }

  lemma {:induction false} WithoutAbsent(s: seq<Name>, x: Name)
    requires x !in s
    ensures Without(s, x) == s
    decreases |s|
  {
    if s != [] {
      WithoutAbsent(s[..|s| - 1], x);
      assert s == s[..|s| - 1] + [s[|s| - 1]];
    }
  }

  lemma {:induction false} WithoutAt(s: seq<Name>, i: nat)
    requires i < |s| && forall j, k :: 0 <= j < k < |s| ==> s[j] != s[k]
    ensures Without(s, s[i]) == s[..i] + s[i + 1..]
    decreases |s|
  {
    var rest, last := s[..|s| - 1], s[|s| - 1];
    assert s == rest + [last];
    if i == |s| - 1 {
      WithoutAbsent(rest, last);
      assert s[i + 1..] == [];
    } else {
      WithoutAt(rest, i);
      assert rest[..i] == s[..i] && rest[i + 1..] + [last] == s[i + 1..];
    }
  }

  /** A constant with several uses loses one of them; anything else is taken out of the map and of the
      order.  No other name is touched. */
  lemma RemoveExact(t: Table, x: Name)
    requires WellFormed(t) && x in t.decls
    ensures t.decls[x].category == Constant && t.decls[x].field1 != Int(1) ==>
              && t.decls[x].field1.Int?
              && Remove(t, x) == Table(t.order, t.decls[x := t.decls[x].(field1 := Int(t.decls[x].field1.n - 1))])
    ensures t.decls[x].category != Constant || t.decls[x].field1 == Int(1) ==>
              && x !in Remove(t, x).decls && Remove(t, x).decls == t.decls - {x}
              && exists i: nat :: i < |t.order| && t.order[i] == x && Remove(t, x).order == t.order[..i] + t.order[i + 1..]
  {
    var i: nat :| i < |t.order| && t.order[i] == x;
    WithoutAt(t.order, i);
    hide Without;
  }

  /** A state variable becomes a frozen one; nothing else changes. */
  lemma RedeclareExact(t: Table, x: Name)
    requires WellFormed(t) && x in t.decls
    ensures WellFormed(Redeclare(t, x)) && Redeclare(t, x).order == t.order
    ensures Redeclare(t, x).decls == t.decls[x := Decl(FrozenVar, t.decls[x].field1, t.decls[x].field2)]
  {
  }

  lemma RemoveWellFormed(t: Table, x: Name)
    requires WellFormed(t) && x in t.decls
    ensures WellFormed(Remove(t, x))
  {
    hide Without;
    WithoutMembers(t.order, x);
  }

  lemma DeclareWellFormed(t: Table, x: Name, d: Decl)
    requires WellFormed(t) && x !in t.decls && d.category != NoCategory
    requires d.category == Constant ==> d.field1.Int? && d.field1.n >= 1
    ensures WellFormed(Declare(t, x, d))
  {
    var o := t.order + [x];
    assert forall y :: y in o <==> y in t.order || y == x;
  }

  lemma AddConstantWellFormed(t: Table, x: Name)
    requires WellFormed(t)
    ensures WellFormed(AddConstant(t, x))
  {
    if x !in t.decls {
      DeclareWellFormed(t, x, Decl(Constant, Int(1), Null));
    }
  }

  /** The machine word in a field, given the addresses of pointers and of nodes. */
  ghost function WordOf(s: Slot, address: nat -> int, node: (Slot, Slot) -> int): int {
    match s
    case Null => 0
    case Ptr(p) => address(p)
    case Int(n) => n
    case Skewed(t, k) => WordOf(t, address, node) + k
    case InContext(c, b) => node(c, b)
  }

  /** Adding to a field adds to the word in it, whatever the field is meant to hold. */
  lemma AddIsAddition(s: Slot, k: int, address: nat -> int, node: (Slot, Slot) -> int)
    ensures WordOf(Add(s, k), address, node) == WordOf(s, address, node) + k
  {
  }

  /** Adding a constant where something is declared adds one to the word in its first field and keeps the
      rest: the number of uses of a constant, but a pointer of anything else. */
  lemma AddConstantShifts(t: Table, x: Name, address: nat -> int, node: (Slot, Slot) -> int)
    requires x in t.decls
    ensures var u := AddConstant(t, x);
            && u.order == t.order && u.decls.Keys == t.decls.Keys
            && (forall y :: y in t.decls && y != x ==> u.decls[y] == t.decls[y])
            && u.decls[x].category == t.decls[x].category && u.decls[x].field2 == t.decls[x].field2
            && WordOf(u.decls[x].field1, address, node) == WordOf(t.decls[x].field1, address, node) + 1
  {
    AddIsAddition(t.decls[x].field1, 1, address, node);
    hide Add;
  }

  /** Adding a constant makes the name a constant and touches nothing else exactly if the name was not
      declared or was a constant; otherwise the declaration is damaged. */
  lemma AddConstantExact(t: Table, x: Name)
    requires WellFormed(t)
    ensures (x in AddConstant(t, x).decls && AddConstant(t, x).decls[x].category == Constant) <==>
            (x !in t.decls || t.decls[x].category == Constant)
    ensures x in t.decls && t.decls[x].category != Constant ==> AddConstant(t, x).decls[x] != t.decls[x]
  {
  }

  // ----- Runs, as one constant sees them

  /** A use or a removal of the constant, or an operation on another name. */
  datatype ConstantOp = Use | Drop | Other

  /** The number of uses minus the number of removals. */
  ghost function Balance(ops: seq<ConstantOp>): int {
    if ops == [] then 0
    else
      Balance(ops[..|ops| - 1]) + Change(ops[|ops| - 1])
  }

  /** Only a declared constant is removed. */
  ghost predicate Legal(ops: seq<ConstantOp>) {
    ops == [] || (Legal(ops[..|ops| - 1]) && (ops[|ops| - 1] == Drop ==> Balance(ops[..|ops| - 1]) > 0))
  }

  /** What a run makes of a map. */
  ghost predicate Reaches(t: Table, x: Name, ops: seq<ConstantOp>, u: Table)
    decreases |ops|
  {
    if ops == [] then u == t
    else
      var before, op := ops[..|ops| - 1], ops[|ops| - 1];
      exists v :: Reaches(t, x, before, v) && StepsTo(v, x, op, u)
  }

  ghost predicate StepsTo(v: Table, x: Name, op: ConstantOp, u: Table) {
    match op
    case Use => u == AddConstant(v, x)
    case Drop => x in v.decls && u == Remove(v, x)
    case Other => exists y :: y != x && Touches(v, y, u)
  }

  /** Some operation on a name. */
  ghost predicate Touches(v: Table, y: Name, u: Table) {
    || u == AddConstant(v, y)
    || (y in v.decls && u == Remove(v, y))
    || (y in v.decls && v.decls[y].category == StateVar && u == Redeclare(v, y))
    || (y !in v.decls && exists d: Decl :: d.category != NoCategory && d.category != Constant && u == Declare(v, y, d))
  }

  lemma TouchedWellFormed(v: Table, y: Name, u: Table)
    requires WellFormed(v) && Touches(v, y, u)
    ensures WellFormed(u)
  {
    hide WellFormed, Without, AddConstant, Remove, Redeclare, Declare;
    AddConstantWellFormed(v, y);
    if y in v.decls {
      RemoveWellFormed(v, y);
      RedeclareExact(v, y);
    } else if d: Decl :| d.category != NoCategory && d.category != Constant && u == Declare(v, y, d) {
      DeclareWellFormed(v, y, d);
    }
  }

  /** An operation on a name leaves the declarations of the others alone. */
  lemma TouchedOthers(v: Table, y: Name, u: Table)
    requires Touches(v, y, u)
    ensures forall x :: x != y ==> (x in u.decls <==> x in v.decls) && (x in u.decls ==> u.decls[x] == v.decls[x])
  {
    hide Without, Add;
  }

  /** A name is declared as a constant with this count, or not at all if it is zero. */
  ghost predicate CountIs(t: Table, x: Name, n: int) {
    && n >= 0 && (x in t.decls <==> n > 0)
    && (x in t.decls ==> t.decls[x].category == Constant && t.decls[x].field1 == Int(n))
  }

  ghost function Change(op: ConstantOp): int {
    if op == Use then 1 else if op == Drop then -1 else 0
  }

  lemma ConstantStep(v: Table, x: Name, op: ConstantOp, u: Table, n: int)
    requires WellFormed(v) && CountIs(v, x, n) && StepsTo(v, x, op, u)
    ensures WellFormed(u) && CountIs(u, x, n + Change(op))
  {
    hide WellFormed, Touches, Without;
    match op
    case Use =>
      AddConstantWellFormed(v, x);
    case Drop =>
      RemoveWellFormed(v, x);
    case Other =>
      var y :| y != x && Touches(v, y, u);
      TouchedWellFormed(v, y, u);
      TouchedOthers(v, y, u);
  }

  /** A constant is declared exactly if it has been used more often than removed, whatever happens to
      other names in between, and its counter is the difference. */
  lemma {:induction false} ConstantDeclared(t: Table, x: Name, ops: seq<ConstantOp>, u: Table)
    requires WellFormed(t) && x !in t.decls && Legal(ops) && Reaches(t, x, ops, u)
    ensures WellFormed(u) && Balance(ops) >= 0
    ensures x in u.decls <==> Balance(ops) > 0
    ensures x in u.decls ==> u.decls[x].category == Constant && u.decls[x].field1 == Int(Balance(ops))
    decreases |ops|
  {
    hide WellFormed, StepsTo;
    if ops != [] {
      var v :| Reaches(t, x, ops[..|ops| - 1], v) && StepsTo(v, x, ops[|ops| - 1], u);
      ConstantDeclared(t, x, ops[..|ops| - 1], v);
      ConstantStep(v, x, ops[|ops| - 1], u, Balance(ops[..|ops| - 1]));
    }
  }
}
