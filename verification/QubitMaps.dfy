/** The two maps between program and physical qubits, and the steps by which the placement
    pass fills them. */
module QubitMaps {
  import opened CustomSubset

  predicate Placed(id: nat) {
    id != VIRTUAL && id != EXCLUDED
  }

  /** Each map undoes the other, where there is something to undo. */
  ghost predicate Consistent(progToPhys: seq<nat>, physToProg: seq<nat>) {
    && (forall p | 0 <= p < |progToPhys| && Placed(progToPhys[p]) ::
          progToPhys[p] < |physToProg| && physToProg[progToPhys[p]] == p)
    && (forall q | 0 <= q < |physToProg| && physToProg[q] != FREE ::
          physToProg[q] < |progToPhys| && progToPhys[physToProg[q]] == q)
  }

  /** The conventional values are not ids. */
  predicate SmallIds(progToPhys: seq<nat>, physToProg: seq<nat>) {
    |progToPhys| <= FREE && |physToProg| <= FREE
  }

  /** Program qubits that are not excluded. */
  function Counted(progToPhys: seq<nat>): nat {
    if progToPhys == [] then 0 else (if progToPhys[0] != EXCLUDED then 1 else 0) + Counted(progToPhys[1..])
  }

  // ----- Sets of indices -----

  function UpTo(n: nat): (r: set<nat>)
    ensures forall k: nat :: k in r <==> k < n
    ensures |r| == n
  {
    if n == 0 then {} else UpTo(n - 1) + {n - 1}
  }

  ghost predicate Ascending(s: seq<nat>) {
    forall i, j | 0 <= i < j < |s| :: s[i] < s[j]
  }

  function Elements(s: seq<nat>): set<nat> {
    set x | x in s
  }

  lemma {:induction false} AscendingSize(s: seq<nat>)
    requires Ascending(s)
    ensures |Elements(s)| == |s|
    decreases |s|
  {
    if s != [] {
      var front, last := s[..|s| - 1], s[|s| - 1];
      AscendingSize(front);
      assert s == front + [last];
      assert Elements(s) == Elements(front) + {last};
      assert last !in front;
    }
  }

  ghost predicate OneToOne(m: map<nat, nat>) {
    forall a, b | a in m && b in m && a != b :: m[a] != m[b]
  }

  lemma {:induction false} OneToOneSize(m: map<nat, nat>)
    requires OneToOne(m)
    ensures |m.Values| == |m.Keys|
    decreases |m.Keys|
  {
    if m.Keys != {} {
      var k :| k in m.Keys;
      var rest := m - {k};
      assert rest.Keys == m.Keys - {k};
      assert m.Values == rest.Values + {m[k]} by {
        forall v | v in m.Values ensures v in rest.Values + {m[k]} {
          var a :| a in m && m[a] == v;
          assert a != k ==> rest[a] == v;
        }
      }
      assert m[k] !in rest.Values;
      OneToOneSize(rest);
    } else {
      assert m.Values == {};
    }
  }

  // ----- The split into fixed and free qubits -----

  /** `fixed` holds the program qubits that have a physical qubit, `free` the physical
      qubits without a program qubit, in order, and `toPlace` the ids below `total` that
      are not fixed, in order. */
  ghost predicate IsSplit(progToPhys: seq<nat>, physToProg: seq<nat>, total: nat, fixed: map<nat, nat>,
          toPlace: seq<nat>, free: seq<nat>) {
    && (forall p: nat :: p in fixed <==> p < |progToPhys| && Placed(progToPhys[p]))
    && (forall p | p in fixed :: p < |progToPhys| && fixed[p] == progToPhys[p])
    && Ascending(free) && (forall q: nat :: q in free <==> q < |physToProg| && physToProg[q] == FREE)
    && Ascending(toPlace) && (forall p: nat :: p in toPlace <==> p < total && p !in fixed)
  }

  /** The fixed and the free physical qubits are all of them, each once. */
  lemma {:induction false} PhysPartition(pp: seq<nat>, qp: seq<nat>, total: nat, fixed: map<nat, nat>,
          toPlace: seq<nat>, free: seq<nat>)
    requires Consistent(pp, qp) && IsSplit(pp, qp, total, fixed, toPlace, free) && SmallIds(pp, qp)
    ensures fixed.Values + Elements(free) == UpTo(|qp|) && fixed.Values !! Elements(free) && OneToOne(fixed)
  {
    hide UpTo, Ascending;
    forall q | q in UpTo(|qp|) ensures q in fixed.Values + Elements(free) {
      if qp[q] != FREE {
        assert qp[q] in fixed && fixed[qp[q]] == q;
      }
    }
    forall q | q in fixed.Values ensures q in UpTo(|qp|) && q !in free {
      var p :| p in fixed && fixed[p] == q;
      assert qp[q] == p;
    }
    forall x, y | x in fixed && y in fixed && x != y ensures fixed[x] != fixed[y] {
      assert qp[fixed[x]] == x && qp[fixed[y]] == y;
    }
  }

  /** And so are the ids of program qubits below the total. */
  lemma {:induction false} ProgPartition(pp: seq<nat>, qp: seq<nat>, total: nat, fixed: map<nat, nat>,
          toPlace: seq<nat>, free: seq<nat>)
    requires IsSplit(pp, qp, total, fixed, toPlace, free)
    ensures Elements(toPlace) + (fixed.Keys * UpTo(total)) == UpTo(total) && Elements(toPlace) !! fixed.Keys
  {
    hide UpTo, Ascending;
  }

  /** How many there are of each. */
  lemma {:induction false} SplitSizes(pp: seq<nat>, qp: seq<nat>, total: nat, fixed: map<nat, nat>, toPlace: seq<nat>,
          free: seq<nat>)
    requires Consistent(pp, qp) && IsSplit(pp, qp, total, fixed, toPlace, free) && SmallIds(pp, qp)
    ensures |free| + |fixed.Keys| == |qp|
    ensures |toPlace| + |fixed.Keys * UpTo(total)| == total
  {
    PhysPartition(pp, qp, total, fixed, toPlace, free);
    ProgPartition(pp, qp, total, fixed, toPlace, free);
    OneToOneSize(fixed);
    AscendingSize(free);
    AscendingSize(toPlace);
    hide IsSplit, Consistent;
    assert Elements(toPlace) !! (fixed.Keys * UpTo(total));
  }

  /** With a total of at most the physical qubits, enough of them are free exactly if the
      fixed ids that are not below the total do not use up the difference. */
  lemma {:induction false} EnoughFree(pp: seq<nat>, qp: seq<nat>, total: nat, fixed: map<nat, nat>, toPlace: seq<nat>,
          free: seq<nat>)
    requires Consistent(pp, qp) && IsSplit(pp, qp, total, fixed, toPlace, free) && SmallIds(pp, qp)
    ensures |toPlace| <= |free| <==> total + |fixed.Keys - UpTo(total)| <= |qp|
  {
    SplitSizes(pp, qp, total, fixed, toPlace, free);
    hide IsSplit, Consistent;
    assert fixed.Keys == (fixed.Keys * UpTo(total)) + (fixed.Keys - UpTo(total));
  }

  // ----- Excluded ids -----

  /** No excluded id is below the total. */
  ghost predicate NoHoles(pp: seq<nat>, total: nat) {
    forall p | 0 <= p < |pp| && pp[p] == EXCLUDED :: total <= p
  }

  lemma {:induction false} CountedConcat(a: seq<nat>, b: seq<nat>)
    ensures Counted(a + b) == Counted(a) + Counted(b)
    decreases |a|
  {
    if a != [] {
      CountedConcat(a[1..], b);
      assert (a + b)[1..] == a[1..] + b;
    } else {
      assert a + b == b;
    }
  }

  ghost function Included(progToPhys: seq<nat>): set<nat> {
    set i | 0 <= i < |progToPhys| && progToPhys[i] != EXCLUDED
  }

  lemma {:induction false} CountedSize(progToPhys: seq<nat>)
    ensures Counted(progToPhys) == |Included(progToPhys)|
    decreases |progToPhys|
  {
    if progToPhys != [] {
      var n := |progToPhys| - 1;
      var front, last := progToPhys[..n], progToPhys[n];
      assert progToPhys == front + [last];
      CountedConcat(front, [last]);
      CountedSize(front);
      assert Included(progToPhys) == Included(front) + if last != EXCLUDED then {n} else {};
    }
  }

  lemma {:induction false} CountedBounds(a: seq<nat>)
    ensures Counted(a) <= |a|
    ensures Counted(a) == |a| <==> forall i | 0 <= i < |a| :: a[i] != EXCLUDED
    ensures Counted(a) == 0 <==> forall i | 0 <= i < |a| :: a[i] == EXCLUDED
    decreases |a|
  {
    if a != [] {
      CountedBounds(a[1..]);
      assert forall i | 0 < i < |a| :: a[i] == a[1..][i - 1];
    }
  }

  /** Then all the excluded ids come last. */
  lemma {:induction false} ExcludedComeLast(pp: seq<nat>, total: nat)
    requires total == Counted(pp) && NoHoles(pp, total)
    ensures total <= |pp| && forall p | total <= p < |pp| :: pp[p] == EXCLUDED
  {
    CountedBounds(pp);
    assert pp == pp[..total] + pp[total..];
    CountedConcat(pp[..total], pp[total..]);
    CountedBounds(pp[..total]);
    CountedBounds(pp[total..]);
    assert forall p | total <= p < |pp| :: pp[p] == pp[total..][p - total];
  }

  /** The ids to place are the virtual ones exactly if no excluded id is below the total:
      the total counts program qubits, and is then used to bound their ids. */
  lemma {:induction false} PlacesTheVirtual(pp: seq<nat>, qp: seq<nat>, total: nat, fixed: map<nat, nat>,
          toPlace: seq<nat>, free: seq<nat>)
    requires IsSplit(pp, qp, total, fixed, toPlace, free) && total == Counted(pp)
    ensures (forall p: nat :: p in toPlace <==> p < |pp| && pp[p] == VIRTUAL) <==> NoHoles(pp, total)
  {
    CountedBounds(pp);
    if NoHoles(pp, total) {
      ExcludedComeLast(pp, total);
    }
    if forall p: nat :: p in toPlace <==> p < |pp| && pp[p] == VIRTUAL {
      forall p | 0 <= p < |pp| && pp[p] == EXCLUDED ensures total <= p {
        assert p !in fixed && p !in toPlace;
      }
    }
  }

  /** Without such ids there are enough free qubits whenever the total is within the
      physical qubits. */
  lemma {:induction false} EnoughWithoutHoles(pp: seq<nat>, qp: seq<nat>, total: nat, fixed: map<nat, nat>,
          toPlace: seq<nat>, free: seq<nat>)
    requires Consistent(pp, qp) && IsSplit(pp, qp, total, fixed, toPlace, free) && SmallIds(pp, qp)
    requires total == Counted(pp) && NoHoles(pp, total)
    ensures |toPlace| <= |free| <==> total <= |qp|
  {
    EnoughFree(pp, qp, total, fixed, toPlace, free);
    ExcludedComeLast(pp, total);
    assert fixed.Keys - UpTo(total) == {};
  }

  /** Two program qubits after two excluded ids fill a platform of two: nothing is free, and
      yet the two excluded ids are to be placed. */
  lemma {:induction false} HolesCanFail()
    ensures var pp, qp := [EXCLUDED, EXCLUDED, 0, 1], [2, 3];
            var fixed := map[2 := 0, 3 := 1];
            && Counted(pp) == 2 && Consistent(pp, qp) && !NoHoles(pp, 2)
            && IsSplit(pp, qp, 2, fixed, [0, 1], [])
  {
    var pp: seq<nat> := [EXCLUDED, EXCLUDED, 0, 1];
    assert pp[1..] == [EXCLUDED, 0, 1] && pp[1..][1..] == [0, 1] && pp[1..][1..][1..] == [1];
    assert Counted([1]) == 1 && Counted([0, 1]) == 2 && Counted([EXCLUDED, 0, 1]) == 2;
    assert pp[0] == EXCLUDED;
  }

  // ----- Filling in a placement -----

  /** Virtual program qubits get what `custom` has for them. */
  function Filled(pp: seq<nat>, custom: map<nat, nat>): (r: seq<nat>)
    ensures |r| == |pp|
    ensures forall p | 0 <= p < |pp| :: r[p] == if p in custom && pp[p] == VIRTUAL then custom[p] else pp[p]
  {
    seq(|pp|, p requires 0 <= p < |pp| => if p in custom && pp[p] == VIRTUAL then custom[p] else pp[p])
  }

  /** Only virtual program qubits take what `custom` has for them. */
  ghost predicate Writes(pp: seq<nat>, custom: map<nat, nat>, p: nat) {
    p in custom && p < |pp| && pp[p] == VIRTUAL
  }

  ghost predicate Written(pp: seq<nat>, custom: map<nat, nat>, q: nat) {
    exists p :: Writes(pp, custom, p) && custom[p] == q
  }

  /** A physical qubit that is written holds one of the program qubits that take it, and the
      others are as they were. */
  ghost predicate FilledBack(pp: seq<nat>, qp: seq<nat>, custom: map<nat, nat>, r: seq<nat>) {
    |r| == |qp| && forall q: nat | q < |qp| :: FilledAt(pp, qp, custom, r, q)
  }

  ghost predicate FilledAt(pp: seq<nat>, qp: seq<nat>, custom: map<nat, nat>, r: seq<nat>, q: nat)
    requires q < |r| == |qp|
  {
    if Written(pp, custom, q) then Writes(pp, custom, r[q]) && custom[r[q]] == q else r[q] == qp[q]
  }

  /** The indices are in bounds. */
  ghost predicate Fits(pp: seq<nat>, qp: seq<nat>, custom: map<nat, nat>) {
    forall p | p in custom :: p < |pp| && (pp[p] == VIRTUAL ==> custom[p] < |qp|)
  }

  /** No two program qubits take the same physical qubit, nor one that is in use. */
  ghost predicate Apart(pp: seq<nat>, qp: seq<nat>, custom: map<nat, nat>)
    requires Fits(pp, qp, custom)
  {
    && (forall a, b | Writes(pp, custom, a) && Writes(pp, custom, b) && a != b :: custom[a] != custom[b])
    && (forall p | Writes(pp, custom, p) :: qp[custom[p]] == FREE)
  }

  /** A placement keeps the maps consistent exactly if it is apart. */
  lemma {:induction false} FilledConsistentIff(pp: seq<nat>, qp: seq<nat>, custom: map<nat, nat>, r: seq<nat>)
    requires Consistent(pp, qp) && SmallIds(pp, qp) && Fits(pp, qp, custom) && FilledBack(pp, qp, custom, r)
    ensures Consistent(Filled(pp, custom), r) <==> Apart(pp, qp, custom)
  {
    if Apart(pp, qp, custom) {
      FilledConsistent(pp, qp, custom, r);
    }
    if Consistent(Filled(pp, custom), r) {
      ConsistentIsApart(pp, qp, custom, r);
    }
  }

  lemma {:induction false} ConsistentIsApart(pp: seq<nat>, qp: seq<nat>, custom: map<nat, nat>, r: seq<nat>)
    requires Consistent(pp, qp) && SmallIds(pp, qp) && Fits(pp, qp, custom) && |r| == |qp|
    requires Consistent(Filled(pp, custom), r)
    ensures Apart(pp, qp, custom)
  {
    var f := Filled(pp, custom);
    forall p: nat | Writes(pp, custom, p) ensures r[custom[p]] == p && qp[custom[p]] == FREE {
      assert f[p] == custom[p] && Placed(f[p]);
    }
  }

  /** A placement on free qubits keeps the maps consistent. */
  lemma {:induction false} FilledConsistent(pp: seq<nat>, qp: seq<nat>, custom: map<nat, nat>, r: seq<nat>)
    requires Consistent(pp, qp) && SmallIds(pp, qp) && Fits(pp, qp, custom) && FilledBack(pp, qp, custom, r)
    requires Apart(pp, qp, custom)
    ensures Consistent(Filled(pp, custom), r)
  {
    var f := Filled(pp, custom);
    forall p | 0 <= p < |f| && Placed(f[p]) ensures f[p] < |r| && r[f[p]] == p {
      if Writes(pp, custom, p) {
        assert FilledAt(pp, qp, custom, r, custom[p]);
      } else {
        assert qp[pp[p]] == p && !Written(pp, custom, pp[p]);
        assert FilledAt(pp, qp, custom, r, pp[p]);
      }
    }
    forall q | 0 <= q < |r| && r[q] != FREE ensures r[q] < |f| && f[r[q]] == q {
      assert FilledAt(pp, qp, custom, r, q);
      if !Written(pp, custom, q) {
        assert r[q] == qp[q] && pp[qp[q]] == q && Placed(q);
      }
    }
  }

  /** More free physical qubits at the end. */
  lemma {:induction false} WidenedConsistent(pp: seq<nat>, qp: seq<nat>, n: nat)
    requires Consistent(pp, qp)
    ensures Consistent(pp, qp + seq(n, _ => FREE))
  {
    var r := qp + seq(n, _ => FREE);
    assert forall q | 0 <= q < |qp| :: r[q] == qp[q];
    assert forall q | |qp| <= q < |r| :: r[q] == FREE;
  }

  // ----- A mapping for one register -----

  /** The entries before the first placeholder. */
  function BeforeVirtual(subset: seq<nat>): (k: nat)
    ensures k <= |subset| && (forall i | 0 <= i < k :: subset[i] != VIRTUAL) && (k < |subset| ==> subset[k] == VIRTUAL)
  {
    if subset == [] || subset[0] == VIRTUAL then 0 else 1 + BeforeVirtual(subset[1..])
  }

  /** Every entry that is not a placeholder is in the map. */
  ghost predicate Honoured(pp: seq<nat>, subset: seq<nat>, start: nat) {
    start + |subset| <= |pp| && forall i | 0 <= i < |subset| && subset[i] != VIRTUAL :: pp[start + i] == subset[i]
  }

  /** The map with the first `k` entries of the subset written from `start` on. */
  function WithRange(pp: seq<nat>, subset: seq<nat>, start: nat, k: nat): (r: seq<nat>)
    requires start + |subset| <= |pp| && k <= |subset|
    ensures |r| == |pp|
  {
    pp[..start] + subset[..k] + pp[start + k..]
  }

  lemma {:induction false} RangeAt(pp: seq<nat>, subset: seq<nat>, start: nat, k: nat, i: nat)
    requires start + |subset| <= |pp| && k <= |subset| && i < |subset|
    ensures WithRange(pp, subset, start, k)[start + i] == if i < k then subset[i] else pp[start + i]
  {
  }

  lemma {:induction false} RangeNext(pp: seq<nat>, subset: seq<nat>, start: nat, k: nat)
    requires start + |subset| <= |pp| && k < |subset|
    ensures WithRange(pp, subset, start, k)[start + k := subset[k]] == WithRange(pp, subset, start, k + 1)
  {
  }

  /** The physical qubits of the first `k` entries are given back to the program qubits
      from `start` on, and the others are as they were. */
  ghost predicate RangeBack(qp: seq<nat>, r: seq<nat>, subset: seq<nat>, start: nat, k: nat) {
    && k <= |subset| && |r| == |qp|
    && (forall q | 0 <= q < |qp| && q !in subset[..k] :: r[q] == qp[q])
    && (DistinctButVirtual(subset) ==> forall i | 0 <= i < k && subset[i] < |qp| :: r[subset[i]] == start + i)
  }

  lemma {:induction false} RangeBackNext(qp: seq<nat>, r: seq<nat>, subset: seq<nat>, start: nat, k: nat)
    requires RangeBack(qp, r, subset, start, k) && k < |subset| && subset[k] != VIRTUAL && subset[k] < |qp|
    ensures RangeBack(qp, r[subset[k] := start + k], subset, start, k + 1)
  {
    var s := r[subset[k] := start + k];
    assert subset[..k + 1] == subset[..k] + [subset[k]];
    if DistinctButVirtual(subset) {
      forall i | 0 <= i < k + 1 && subset[i] < |qp| ensures s[subset[i]] == start + i {
        if i < k {
          assert subset[i] == VIRTUAL || subset[i] != subset[k];
        }
      }
    }
  }

  lemma {:induction false} NoRange(pp: seq<nat>, qp: seq<nat>, subset: seq<nat>, start: nat)
    requires start + |subset| <= |pp|
    ensures WithRange(pp, subset, start, 0) == pp && RangeBack(qp, qp, subset, start, 0)
  {
  }

  ghost predicate AllVirtual(pp: seq<nat>, start: nat, end: nat) {
    forall x | start <= x < end && x < |pp| :: pp[x] == VIRTUAL
  }

  /** A placeholder that comes first: nothing of the request is written. */
  lemma {:induction false} PlaceholderFirst()
    ensures var pp, subset: seq<nat> := [VIRTUAL, VIRTUAL], [VIRTUAL, 0];
            && AllVirtual(pp, 0, 2) && DistinctButVirtual(subset)
            && WithRange(pp, subset, 0, BeforeVirtual(subset)) == pp
            && !Honoured(WithRange(pp, subset, 0, BeforeVirtual(subset)), subset, 0)
  {
    var pp, subset: seq<nat> := [VIRTUAL, VIRTUAL], [VIRTUAL, 0];
    assert subset[1] != VIRTUAL && pp[0 + 1] != subset[1];
  }

  /** Only the entries before the first placeholder are written: the position in the
      subset does not move past one.  So the request for a fresh register is honoured
      exactly if no entry follows a placeholder. */
  lemma {:induction false} HonouredIffPlaceholdersLast(pp: seq<nat>, subset: seq<nat>, start: nat)
    requires start + |subset| <= |pp| && AllVirtual(pp, start, start + |subset|)
    ensures Honoured(WithRange(pp, subset, start, BeforeVirtual(subset)), subset, start) <==>
            forall i, j | 0 <= i < j < |subset| && subset[i] == VIRTUAL :: subset[j] == VIRTUAL
  {
    hide WithRange;
    var k := BeforeVirtual(subset);
    var r := WithRange(pp, subset, start, k);
    if Honoured(r, subset, start) {
      forall i, j | 0 <= i < j < |subset| && subset[i] == VIRTUAL ensures subset[j] == VIRTUAL {
        RangeAt(pp, subset, start, k, j);
      }
    }
    if forall i, j | 0 <= i < j < |subset| && subset[i] == VIRTUAL :: subset[j] == VIRTUAL {
      forall i | 0 <= i < |subset| && subset[i] != VIRTUAL ensures r[start + i] == subset[i] {
        RangeAt(pp, subset, start, k, i);
      }
    }
  }

  class MapProgToPhysQubits {
    var progToPhys: seq<nat>
    var physToProg: seq<nat>

    method GetNumProgQubits() returns (progQubits: nat)
      ensures progQubits == Counted(progToPhys) == |Included(progToPhys)|
    {
      progQubits := 0;
      var i := 0;
      while i < |progToPhys|
        invariant 0 <= i <= |progToPhys| && progQubits == Counted(progToPhys[..i])
      {
        assert progToPhys[..i + 1] == progToPhys[..i] + [progToPhys[i]];
        CountedConcat(progToPhys[..i], [progToPhys[i]]);
        if progToPhys[i] != EXCLUDED {
          progQubits := progQubits + 1;
        }
        i := i + 1;
      }
      assert progToPhys[..i] == progToPhys;
      CountedSize(progToPhys);
    }

    method IsConsistent() returns (consistent: bool)
      ensures consistent <==> Consistent(progToPhys, physToProg)
    {
      var qProg := 0;
      while qProg < |progToPhys|
        invariant 0 <= qProg <= |progToPhys|
        invariant forall p | 0 <= p < qProg && Placed(progToPhys[p]) ::
                    progToPhys[p] < |physToProg| && physToProg[progToPhys[p]] == p
      {
        var qPhys := progToPhys[qProg];
        if Placed(qPhys) {
          if qPhys >= |physToProg| {
            return false;
          }
          if physToProg[qPhys] != qProg {
            return false;
          }
        }
        qProg := qProg + 1;
      }
      var qPhys := 0;
      while qPhys < |physToProg|
        invariant 0 <= qPhys <= |physToProg|
        invariant forall q | 0 <= q < qPhys && physToProg[q] != FREE ::
                    physToProg[q] < |progToPhys| && progToPhys[physToProg[q]] == q
      {
        var p := physToProg[qPhys];
        if p != FREE {
          if p >= |progToPhys| {
            return false;
          }
          if progToPhys[p] != qPhys {
            return false;
          }
        }
        qPhys := qPhys + 1;
      }
      return true;
    }

    method SetNumPhysQubits(numPhysQubits: nat)
      modifies `physToProg
      ensures physToProg == old(physToProg) +
              seq(if numPhysQubits > |old(physToProg)| then numPhysQubits - |old(physToProg)| else 0, _ => FREE)
      ensures old(Consistent(progToPhys, physToProg)) ==> Consistent(progToPhys, physToProg)
    {
      if numPhysQubits > |physToProg| {
        WidenedIfConsistent(progToPhys, physToProg, numPhysQubits - |physToProg|);
        physToProg := physToProg + seq(numPhysQubits - |physToProg|, _ => FREE);
      } else {
        assert physToProg + seq(0, _ => FREE) == physToProg;
      }
    }

    /** The mapping of one register. */
    method SetCustomRange(physSubset: seq<nat>, startIdx: int, endIdx: int) returns (ok: bool)
      requires startIdx <= endIdx ==> 0 <= startIdx && endIdx <= |progToPhys|
      requires forall i | 0 <= i < |physSubset| && physSubset[i] != VIRTUAL :: physSubset[i] < |physToProg|
      modifies this
      ensures ok <==> startIdx <= endIdx && |physSubset| == endIdx - startIdx
      ensures !ok ==> progToPhys == old(progToPhys) && physToProg == old(physToProg)
      ensures ok ==> progToPhys == WithRange(old(progToPhys), physSubset, startIdx, BeforeVirtual(physSubset))
      ensures ok ==> RangeBack(old(physToProg), physToProg, physSubset, startIdx, BeforeVirtual(physSubset))
    {
      hide WithRange, RangeBack, BeforeVirtual, DistinctButVirtual, Bounded;
      if startIdx > endIdx {
        return false;
      }
      if |physSubset| != endIdx - startIdx {
        return false;
      }
      ghost var before, back, k := progToPhys, physToProg, BeforeVirtual(physSubset);
      var pos := 0;
      var idx := startIdx;
      NoRange(before, back, physSubset, startIdx);
      while idx < endIdx
        invariant startIdx <= idx <= endIdx && 0 <= pos <= k && pos <= idx - startIdx
        invariant pos < k ==> pos == idx - startIdx
        invariant pos == |physSubset| ==> idx == endIdx
        invariant |progToPhys| == |before| && |physToProg| == |back|
        invariant progToPhys == WithRange(before, physSubset, startIdx, pos)
        invariant RangeBack(back, physToProg, physSubset, startIdx, pos)
      {
        if physSubset[pos] != VIRTUAL {
          RangeBackNext(back, physToProg, physSubset, startIdx, pos);
          RangeNext(before, physSubset, startIdx, pos);
          progToPhys := progToPhys[idx := physSubset[pos]];
          physToProg := physToProg[physSubset[pos] := idx];
          pos := pos + 1;
          if pos >= |physSubset| {
            return true;
          }
        }
        idx := idx + 1;
      }
      return true;
    }

    /** The result of a search, in whatever order its entries come. */
    method SetCustomMap(customMap: map<nat, nat>) returns (ok: bool)
      requires Fits(progToPhys, physToProg, customMap)
      modifies this
      ensures ok <==> |old(progToPhys)| <= |old(physToProg)|
      ensures !ok ==> progToPhys == old(progToPhys) && physToProg == old(physToProg)
      ensures ok ==> progToPhys == Filled(old(progToPhys), customMap)
      ensures ok ==> FilledBack(old(progToPhys), old(physToProg), customMap, physToProg)
    {
      hide Filled, FilledBack, Fits;
      if |progToPhys| > |physToProg| {
        return false;
      }
      var left := customMap.Keys;
      ghost var pp, qp := progToPhys, physToProg;
      NothingFilled(pp, qp, customMap);
      while left != {}
        invariant left <= customMap.Keys
        invariant progToPhys == Filled(pp, customMap - left) && FilledBack(pp, qp, customMap - left, physToProg)
        decreases |left|
      {
        var p :| p in left;
        FillNext(pp, qp, customMap, left, p, physToProg);
        if progToPhys[p] == VIRTUAL {
          progToPhys := progToPhys[p := customMap[p]];
          physToProg := physToProg[customMap[p] := p];
        }
        left := left - {p};
      }
      assert customMap - left == customMap;
      ok := true;
    }
  }

  lemma {:induction false} NothingFilled(pp: seq<nat>, qp: seq<nat>, custom: map<nat, nat>)
    ensures Filled(pp, custom - custom.Keys) == pp && FilledBack(pp, qp, custom - custom.Keys, qp)
  {
    assert custom - custom.Keys == map[];
  }

  lemma {:induction false} WidenedIfConsistent(pp: seq<nat>, qp: seq<nat>, n: nat)
    ensures Consistent(pp, qp) ==> Consistent(pp, qp + seq(n, _ => FREE))
  {
    if Consistent(pp, qp) {
      WidenedConsistent(pp, qp, n);
    }
  }

  lemma {:induction false} WrittenGrows(pp: seq<nat>, done: map<nat, nat>, next: map<nat, nat>, p: nat, q: nat)
    requires next.Keys == done.Keys + {p} && forall x | x in done :: next[x] == done[x]
    ensures Written(pp, next, q) <==> Written(pp, done, q) || (Writes(pp, next, p) && next[p] == q)
  {
    if Written(pp, done, q) {
      var x :| Writes(pp, done, x) && done[x] == q;
      assert Writes(pp, next, x) && next[x] == q;
    }
    if Written(pp, next, q) {
      var x :| Writes(pp, next, x) && next[x] == q;
      assert x != p ==> Writes(pp, done, x) && done[x] == q;
    }
  }

  /** One more entry of the placement. */
  lemma {:induction false} FillNext(pp: seq<nat>, qp: seq<nat>, custom: map<nat, nat>, left: set<nat>, p: nat,
                                    r: seq<nat>)
    requires Fits(pp, qp, custom) && p in left && left <= custom.Keys && FilledBack(pp, qp, custom - left, r)
    ensures p < |pp| && Filled(pp, custom - left)[p] == pp[p] && (pp[p] == VIRTUAL ==> custom[p] < |r|)
    ensures Filled(pp, custom - (left - {p})) ==
            if pp[p] == VIRTUAL then Filled(pp, custom - left)[p := custom[p]] else Filled(pp, custom - left)
    ensures FilledBack(pp, qp, custom - (left - {p}), if pp[p] == VIRTUAL then r[custom[p] := p] else r)
  {
    var done, next := custom - left, custom - (left - {p});
    FillBackNext(pp, qp, custom, done, next, p, r);
  }

  lemma {:induction false} FillBackNext(pp: seq<nat>, qp: seq<nat>, custom: map<nat, nat>, done: map<nat, nat>,
                                        next: map<nat, nat>, p: nat, r: seq<nat>)
    requires Fits(pp, qp, custom) && p in custom && p !in done && next.Keys == done.Keys + {p}
    requires (forall x | x in done :: x in custom && done[x] == custom[x]) && forall x | x in next ::
             x in custom && next[x] == custom[x]
    requires FilledBack(pp, qp, done, r)
    ensures pp[p] == VIRTUAL ==> custom[p] < |r|
    ensures FilledBack(pp, qp, next, if pp[p] == VIRTUAL then r[custom[p] := p] else r)
  {
    var s := if pp[p] == VIRTUAL then r[custom[p] := p] else r;
    forall q: nat | q < |qp| ensures FilledAt(pp, qp, next, s, q) {
      assert FilledAt(pp, qp, done, r, q);
      WrittenGrows(pp, done, next, p, q);
    }
  }
}
