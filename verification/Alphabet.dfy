/** Labels and the minterm alphabet of the automata manager. */
module Alphabet {
  import opened BoolExpr
  import opened Sets

  type Prop = nat
  type Letter = set<Prop>
  type Label = Expr<Prop>

  /** A symbol of the alphabet is a model of a label when their conjunction is satisfiable. */
  predicate IsModel(lab: Label, symbol: Label) {
    IsSat(And(lab, symbol))
  }

  ghost function SetOf<T>(s: seq<T>): set<T> {
    set x | x in s
  }

  ghost predicate Distinct<T>(s: seq<T>) {
    forall i, j :: 0 <= i < j < |s| ==> s[i] != s[j]
  }

  /** The conjunctions of `props` and their negations, nested as the alphabet builder nests them. */
  ghost function Minterms(props: seq<Prop>): set<Label> {
    if |props| == 0 then {True}
    else if |props| == 1 then {Atom(props[0]), Not(Atom(props[0]))}
    else Extended(Minterms(props[1..]), props[0])
  }

  ghost function Extended(symbols: set<Label>, p: Prop): set<Label> {
    (set m | m in symbols :: And(m, Atom(p))) + (set m | m in symbols :: And(m, Not(Atom(p))))
  }

  /** What the two literals of a proposition add to a symbol. */
  lemma LiteralMeaning(m: Label, p: Prop, a: Letter)
    ensures Holds(And(m, Atom(p)), a) <==> Holds(m, a) && p in a
    ensures Holds(And(m, Not(Atom(p))), a) <==> Holds(m, a) && p !in a
    ensures Support(And(m, Atom(p))) == Support(And(m, Not(Atom(p)))) == Support(m) + {p}
  {
    assert Holds(Not(Atom(p)), a) <==> p !in a;
    assert Support(Not(Atom(p))) == {p};
  }

  /** The recursive alphabet builder, with its two base cases and its loop over the
      alphabet of the remaining propositions. */
  method AlphabetFromIter(props: seq<Prop>) returns (alphabet: set<Label>)
    ensures alphabet == Minterms(props)
  {
    if |props| == 0 {
      alphabet := {True};
    } else if |props| == 1 {
      alphabet := {Atom(props[0]), Not(Atom(props[0]))};
    } else {
      var previous := AlphabetFromIter(props[1..]);
      var rest := previous;
      alphabet := {};
      while rest != {}
        invariant rest <= previous
        invariant alphabet == Extended(previous - rest, props[0])
        decreases rest
      {
        var oldSymbol :| oldSymbol in rest;
        assert previous - (rest - {oldSymbol}) == (previous - rest) + {oldSymbol};
        alphabet := alphabet + {And(oldSymbol, Atom(props[0]))};
        alphabet := alphabet + {And(oldSymbol, Not(Atom(props[0])))};
        rest := rest - {oldSymbol};
      }
      assert previous - rest == previous;
    }
  }

  /** The minterm that a letter satisfies. */
  ghost function MintermOf(props: seq<Prop>, a: Letter): (m: Label) {
    if |props| == 0 then True
    else
      var literal := if props[0] in a then Atom(props[0]) else Not(Atom(props[0]));
      if |props| == 1 then literal else And(MintermOf(props[1..], a), literal)
  }

  /** The alphabet is a partition of the letters: each letter satisfies one symbol and no other. */
  lemma {:induction false} AlphabetPartition(props: seq<Prop>, a: Letter)
    ensures MintermOf(props, a) in Minterms(props)
    ensures forall m :: m in Minterms(props) ==> (Holds(m, a) <==> m == MintermOf(props, a))
  {
    if |props| > 1 {
      AlphabetPartition(props[1..], a);
      forall m | m in Minterms(props)
        ensures Holds(m, a) <==> m == MintermOf(props, a)
      {
        var n :| n in Minterms(props[1..]) && (m == And(n, Atom(props[0])) || m == And(n, Not(Atom(props[0]))));
        LiteralMeaning(n, props[0], a);
      }
    }
  }

  /** Every symbol is satisfiable, and two letters satisfy the same symbol only if they
      agree on all the propositions. */
  lemma {:induction false} MintermSeparates(props: seq<Prop>, m: Label, a: Letter, b: Letter)
    requires m in Minterms(props) && Holds(m, a) && Holds(m, b)
    ensures forall p :: p in props ==> (p in a <==> p in b)
  {
    if |props| == 1 {
      assert props == [props[0]];
    } else if |props| > 1 {
      var n :| n in Minterms(props[1..]) && (m == And(n, Atom(props[0])) || m == And(n, Not(Atom(props[0]))));
      MintermSeparates(props[1..], n, a, b);
      LiteralMeaning(n, props[0], a);
      LiteralMeaning(n, props[0], b);
      assert props == [props[0]] + props[1..];
    }
  }

  lemma {:induction false} MintermSatisfiable(props: seq<Prop>, m: Label)
    requires m in Minterms(props) && Distinct(props)
    ensures exists a: Letter :: a <= SetOf(props) && Holds(m, a)
  {
    if |props| == 0 {
      assert Holds(m, {});
    } else if |props| == 1 {
      assert Holds(m, {}) || Holds(m, {props[0]});
    } else {
      var n :| n in Minterms(props[1..]) && (m == And(n, Atom(props[0])) || m == And(n, Not(Atom(props[0]))));
      MintermSatisfiable(props[1..], n);
      var b: Letter :| b <= SetOf(props[1..]) && Holds(n, b);
      MintermSupport(props[1..], n);
      HoldsOnSupport(n, b, b + {props[0]});
      LiteralMeaning(n, props[0], b);
      LiteralMeaning(n, props[0], b + {props[0]});
      assert props[0] !in props[1..];
      assert Holds(m, b) || Holds(m, b + {props[0]});
      assert SetOf(props[1..]) <= SetOf(props);
    }
  }

  lemma {:induction false} MintermSupport(props: seq<Prop>, m: Label)
    requires m in Minterms(props)
    ensures Support(m) == SetOf(props)
  {
    if |props| == 1 {
      assert props == [props[0]];
    } else if |props| > 1 {
      var n :| n in Minterms(props[1..]) && (m == And(n, Atom(props[0])) || m == And(n, Not(Atom(props[0]))));
      MintermSupport(props[1..], n);
      LiteralMeaning(n, props[0], {});
      assert props == [props[0]] + props[1..];
    }
  }

  /** Over n propositions there are exactly 2^n symbols. */
  lemma {:induction false} AlphabetSize(props: seq<Prop>)
    ensures |Minterms(props)| == Pow2(|props|)
  {
    if |props| == 1 {
      assert Pow2(1) == 2 * Pow2(0);
    } else if |props| > 1 {
      AlphabetSize(props[1..]);
      ExtendedSize(Minterms(props[1..]), props[0]);
    }
  }

  lemma {:induction false} ExtendedSize(symbols: set<Label>, p: Prop)
    ensures |Extended(symbols, p)| == 2 * |symbols|
  {
    if symbols != {} {
      var m :| m in symbols;
      ExtendedSize(symbols - {m}, p);
      assert Extended(symbols, p) ==
             Extended(symbols - {m}, p) + {And(m, Atom(p)), And(m, Not(Atom(p)))};
    }
  }

  /** A symbol decides every label whose support is covered by the alphabet's propositions:
      being a model of the label means that all the letters of the symbol satisfy it. */
  lemma SymbolDecides(props: seq<Prop>, m: Label, lab: Label, a: Letter)
    requires m in Minterms(props) && Holds(m, a) && Support(lab) <= SetOf(props)
    ensures IsModel(lab, m) <==> Holds(lab, a)
  {
    if Holds(lab, a) {
      HoldsIsSat(And(lab, m), a);
    }
    if IsModel(lab, m) {
      var b: Letter :| b <= Support(And(lab, m)) && Holds(And(lab, m), b);
      MintermSeparates(props, m, a, b);
      HoldsOnSupport(lab, a, b);
    }
  }
}
