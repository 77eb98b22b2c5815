/** Boolean expressions over an arbitrary type of atoms.

  The automata package uses them as transition labels (an atom is a proposition) and
  the bounded model checker as formulas over timed variables.  A valuation is the set
  of the atoms that it makes true. */
module BoolExpr {

  datatype Expr<V> =
    | True
    | False
    | Atom(v: V)
    | Not(e: Expr<V>)
    | And(l: Expr<V>, r: Expr<V>)
    | Or(l: Expr<V>, r: Expr<V>)
    | Xor(l: Expr<V>, r: Expr<V>)

  predicate Holds<V(==)>(e: Expr<V>, a: set<V>) {
    match e
    case True => true
    case False => false
    case Atom(v) => v in a
    case Not(f) => !Holds(f, a)
    case And(l, r) => Holds(l, a) && Holds(r, a)
    case Or(l, r) => Holds(l, a) || Holds(r, a)
    case Xor(l, r) => Holds(l, a) != Holds(r, a)
  }

  /** The atoms that occur in an expression. */
  function Support<V(==)>(e: Expr<V>): set<V> {
    match e
    case True => {}
    case False => {}
    case Atom(v) => {v}
    case Not(f) => Support(f)
    case And(l, r) => Support(l) + Support(r)
    case Or(l, r) => Support(l) + Support(r)
    case Xor(l, r) => Support(l) + Support(r)
  }

  /** The satisfiability test: it searches the valuations of the support only. */
  predicate IsSat<V(==)>(e: Expr<V>) {
    exists a | a <= Support(e) :: Holds(e, a)
  }

  lemma {:induction false} HoldsOnSupport<V>(e: Expr<V>, a: set<V>, b: set<V>)
    requires forall v :: v in Support(e) ==> (v in a <==> v in b)
    ensures Holds(e, a) == Holds(e, b)
  {
    match e
    case True =>
    case False =>
    case Atom(v) =>
    case Not(f) => HoldsOnSupport(f, a, b);
    case And(l, r) => HoldsOnSupport(l, a, b); HoldsOnSupport(r, a, b);
    case Or(l, r) => HoldsOnSupport(l, a, b); HoldsOnSupport(r, a, b);
    case Xor(l, r) => HoldsOnSupport(l, a, b); HoldsOnSupport(r, a, b);
  }

  /** A valuation that satisfies an expression is found by the test, wherever it comes from. */
  lemma HoldsIsSat<V>(e: Expr<V>, a: set<V>)
    requires Holds(e, a)
    ensures IsSat(e)
  {
    var b := a * Support(e);
    HoldsOnSupport(e, a, b);
  }
}
