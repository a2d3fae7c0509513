/** All the basis states of a register, and how many there are. */
module BasisStates {
  import opened Circuits

  function AllBases(n: nat): (r: set<Basis>)
    ensures forall b: Basis :: b in r <==> |b| == n
  {
    if n == 0 then {[]}
    else
      var shorter := AllBases(n - 1);
      ShorterBases(n, shorter);
      Ending(shorter, false) + Ending(shorter, true)
  }

  function Ending(shorter: set<Basis>, bit: bool): set<Basis> {
    set b <- shorter :: b + [bit]
  }

  lemma {:induction false} ShorterBases(n: nat, shorter: set<Basis>)
    requires n > 0 && forall b: Basis :: b in shorter <==> |b| == n - 1
    ensures forall b: Basis :: b in Ending(shorter, false) + Ending(shorter, true) <==> |b| == n
  {
    forall b: Basis | |b| == n ensures b in Ending(shorter, false) + Ending(shorter, true) {
      var c := b[..n - 1];
      assert c in shorter;
      if b[n - 1] {
        assert b == c + [true];
      } else {
        assert b == c + [false];
      }
    }
  }

  /** A row and a column for every basis state. */
  ghost function BasisPairs(n: nat): (r: set<(Basis, Basis)>)
    ensures forall a: Basis, b: Basis :: (a, b) in r <==> |a| == n && |b| == n
  {
    set a, b | a in AllBases(n) && b in AllBases(n) :: (a, b)
  }

  function Power(b: nat, n: nat): nat {
    if n == 0 then 1 else b * Power(b, n - 1)
  }

  /** A register of n qubits has 2^n basis states. */
  lemma {:induction false} BasisCount(n: nat)
    ensures |AllBases(n)| == Power(2, n)
    decreases n
  {
    if n > 0 {
      BasisCount(n - 1);
      var shorter := AllBases(n - 1);
      ShorterBases(n, shorter);
      EndingCount(shorter, false);
      EndingCount(shorter, true);
      EndingsApart(shorter);
    }
  }

  lemma {:induction false} EndingsApart(shorter: set<Basis>)
    ensures Ending(shorter, false) !! Ending(shorter, true)
  {
    LastBit(shorter, false);
    LastBit(shorter, true);
  }

  lemma {:induction false} LastBit(shorter: set<Basis>, bit: bool)
    ensures forall b | b in Ending(shorter, bit) :: b != [] && b[|b| - 1] == bit
  {
  }

  lemma {:induction false} EndingCount(shorter: set<Basis>, bit: bool)
    ensures |Ending(shorter, bit)| == |shorter|
    decreases |shorter|
  {
    if shorter == {} {
      assert Ending(shorter, bit) == {};
    } else {
      var c :| c in shorter;
      var rest := shorter - {c};
      EndingCount(rest, bit);
      assert Ending(shorter, bit) == Ending(rest, bit) + {c + [bit]};
      forall d | d in rest ensures d + [bit] != c + [bit] {
        assert (d + [bit])[..|d|] == d && (c + [bit])[..|c|] == c;
      }
    }
  }

  /** And 4^n pairs of them. */
  lemma {:induction false} PairCount(n: nat)
    ensures |BasisPairs(n)| == |AllBases(n)| * |AllBases(n)| == Power(4, n)
  {
    var all := AllBases(n);
    BasisCount(n);
    PowerOfFour(n);
    RowsCount(all, all);
    assert BasisPairs(n) == Rows(all, all);
  }

  ghost function Rows(rows: set<Basis>, columns: set<Basis>): set<(Basis, Basis)> {
    set a, b | a in rows && b in columns :: (a, b)
  }

  lemma {:induction false} RowsCount(rows: set<Basis>, columns: set<Basis>)
    ensures |Rows(rows, columns)| == |rows| * |columns|
    decreases |rows|
  {
    if rows == {} {
      assert Rows(rows, columns) == {};
    } else {
      var a :| a in rows;
      var rest := rows - {a};
      RowsCount(rest, columns);
      RowCount(a, columns);
      assert Rows(rows, columns) == Rows(rest, columns) + Rows({a}, columns);
      assert Rows(rest, columns) !! Rows({a}, columns);
      OneMore(|rest|, |columns|);
    }
  }

  lemma {:induction false} OneMore(m: nat, n: nat)
    ensures (m + 1) * n == m * n + n
  {
  }

  lemma {:induction false} RowCount(a: Basis, columns: set<Basis>)
    ensures |Rows({a}, columns)| == |columns|
    decreases |columns|
  {
    if columns == {} {
      assert Rows({a}, columns) == {};
    } else {
      var b :| b in columns;
      var rest := columns - {b};
      RowCount(a, rest);
      assert Rows({a}, columns) == Rows({a}, rest) + {(a, b)};
    }
  }

  lemma {:induction false} PowerOfFour(n: nat)
    ensures Power(4, n) == Power(2, n) * Power(2, n)
    decreases n
  {
    if n > 0 {
      PowerOfFour(n - 1);
      var p := Power(2, n - 1);
      assert (2 * p) * (2 * p) == 4 * (p * p);
    }
  }
}
