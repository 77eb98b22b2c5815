/** Counting finite sets. */
module Sets {

  function Pow2(n: nat): nat {
    if n == 0 then 1 else 2 * Pow2(n - 1)
  }

  ghost function Powerset<T>(s: set<T>): set<set<T>> {
    set t | t <= s
  }

  /** The sets of p, each with one more member. */
  ghost function With<T>(p: set<set<T>>, x: T): set<set<T>> {
    set t | t in p :: t + {x}
  }

  lemma PowersetNone<T>()
    ensures Powerset<T>({}) == {{}}
  {
    assert {} in Powerset<T>({}) && forall t :: t in Powerset<T>({}) ==> t == {};
  }

  lemma {:induction false} PowersetSize<T>(s: set<T>)
    ensures |Powerset(s)| == Pow2(|s|)
  {
    hide With, Powerset;
    PowersetNone<T>();
    if s != {} {
      var x :| x in s;
      var r := s - {x};
      PowersetSize(r);
      PowersetSplit(r, x);
      assert s == r + {x};
      WithSize(Powerset(r), x);
    }
  }

  lemma PowersetSplit<T>(r: set<T>, x: T)
    requires x !in r
    ensures Powerset(r + {x}) == Powerset(r) + With(Powerset(r), x)
    ensures Powerset(r) !! With(Powerset(r), x)
    ensures forall t :: t in Powerset(r) ==> x !in t
  {
    forall t | t in Powerset(r + {x}) ensures t in Powerset(r) + With(Powerset(r), x) {
      if x in t {
        assert (t - {x}) + {x} == t && t - {x} in Powerset(r);
      }
    }
  }

  lemma WithOne<T>(p: set<set<T>>, s: set<T>, x: T)
    requires s in p && forall t :: t in p ==> x !in t
    ensures With(p, x) == With(p - {s}, x) + {s + {x}} && s + {x} !in With(p - {s}, x)
  {
    forall t | t in p - {s} ensures t + {x} != s + {x} {
      assert t == (t + {x}) - {x} && s == (s + {x}) - {x};
    }
  }

  lemma {:induction false} WithSize<T>(p: set<set<T>>, x: T)
    requires forall t :: t in p ==> x !in t
    ensures |With(p, x)| == |p|
  {
    if p == {} {
      assert With(p, x) == {};
    } else {
      var s :| s in p;
      WithSize(p - {s}, x);
      WithOne(p, s, x);
      hide With;
    }
  }

  lemma SubsetSize<T>(s: set<T>, t: set<T>)
    requires s <= t
    ensures |s| <= |t|
  {
    assert t == s + (t - s);
  }
}
