/** Sums over finite sets, in whatever order the elements come. */
module Sums {
  ghost function Sum<T(!new)>(f: T -> int, s: set<T>): int {
    if s == {} then 0
    else
      var x :| x in s;
      f(x) + Sum(f, s - {x})
  }

  lemma {:induction false} SumPick<T(!new)>(f: T -> int, s: set<T>, x: T)
    requires x in s
    ensures Sum(f, s) == f(x) + Sum(f, s - {x})
    decreases s
  {
    var y :| y in s && Sum(f, s) == f(y) + Sum(f, s - {y});
    if y != x {
      SumPick(f, s - {y}, x);
      SumPick(f, s - {x}, y);
      assert s - {y} - {x} == s - {x} - {y};
    }
  }

  lemma {:induction false} SumSame<T(!new)>(f: T -> int, g: T -> int, s: set<T>)
    requires forall x | x in s :: f(x) == g(x)
    ensures Sum(f, s) == Sum(g, s)
    decreases s
  {
    if s != {} {
      var x :| x in s;
      SumPick(f, s, x);
      SumPick(g, s, x);
      SumSame(f, g, s - {x});
    }
  }

  lemma {:induction false} SumAdds<T(!new)>(f: T -> int, g: T -> int, h: T -> int, s: set<T>)
    requires forall x | x in s :: h(x) == f(x) + g(x)
    ensures Sum(h, s) == Sum(f, s) + Sum(g, s)
    decreases s
  {
    if s != {} {
      var x :| x in s;
      SumPick(f, s, x);
      SumPick(g, s, x);
      SumPick(h, s, x);
      SumAdds(f, g, h, s - {x});
    }
  }

  lemma {:induction false} SumSplit<T(!new)>(f: T -> int, a: set<T>, b: set<T>)
    requires a !! b
    ensures Sum(f, a + b) == Sum(f, a) + Sum(f, b)
    decreases a
  {
    if a == {} {
      assert a + b == b;
    } else {
      var x :| x in a;
      SumPick(f, a, x);
      SumPick(f, a + b, x);
      SumSplit(f, a - {x}, b);
      assert a + b - {x} == (a - {x}) + b;
    }
  }

  lemma {:induction false} SumZero<T(!new)>(f: T -> int, s: set<T>)
    requires forall x | x in s :: f(x) == 0
    ensures Sum(f, s) == 0
    decreases s
  {
    if s != {} {
      var x :| x in s;
      SumPick(f, s, x);
      SumZero(f, s - {x});
    }
  }

  lemma {:induction false} SumIsNat<T(!new)>(f: T -> int, s: set<T>)
    requires forall x | x in s :: f(x) >= 0
    ensures Sum(f, s) >= 0
    decreases s
  {
    if s != {} {
      var x :| x in s;
      SumPick(f, s, x);
      SumIsNat(f, s - {x});
    }
  }

  function Image<S, T>(g: S -> T, s: set<S>): set<T> {
    set x | x in s :: g(x)
  }

  /** A sum over the image of a set. */
  lemma {:induction false} SumImage<S(!new), T(!new)>(f: T -> int, g: S -> T, h: S -> int, s: set<S>)
    requires forall x, y | x in s && y in s && x != y :: g(x) != g(y)
    requires forall x | x in s :: h(x) == f(g(x))
    ensures Sum(f, Image(g, s)) == Sum(h, s)
    decreases s
  {
    if s == {} {
      assert Image(g, s) == {};
    } else {
      var x :| x in s;
      SumPick(h, s, x);
      SumPick(f, Image(g, s), g(x));
      assert Image(g, s) - {g(x)} == Image(g, s - {x});
      SumImage(f, g, h, s - {x});
    }
  }

  lemma {:induction false} SubsetSize<T>(a: set<T>, b: set<T>)
    requires a <= b
    ensures |a| <= |b|
    decreases a
  {
    if a != {} {
      var x :| x in a;
      SubsetSize(a - {x}, b - {x});
    }
  }
}
