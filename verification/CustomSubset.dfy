/** The qubits that the user has mapped by hand: bounds first, then no physical qubit twice,
    across all registers. */
module CustomSubset {
  import opened Options

  /** The conventional values of the program-to-physical maps. */
  const VIRTUAL: nat := 0xFFFF_FFFF
  const EXCLUDED: nat := 0xFFFF_FFFE
  const FREE: nat := 0xFFFF_FFFD

  /** The initializer of a register: an element is an integer, or something else that is
      passed over. */
  type Register = seq<Option<int>>

  // ----- validateCustomSubset -----

  function Flatten(subset: seq<seq<nat>>): seq<nat> {
    if subset == [] then [] else subset[0] + Flatten(subset[1..])
  }

  ghost predicate DistinctButVirtual(ids: seq<nat>) {
    forall i, j | 0 <= i < j < |ids| && ids[i] != VIRTUAL :: ids[i] != ids[j]
  }

  ghost predicate Bounded(ids: seq<nat>, numPhysQubits: nat) {
    forall i | 0 <= i < |ids| && ids[i] != VIRTUAL :: ids[i] < numPhysQubits
  }

  /** Ids met so far, without the virtual ones, are those that are marked. */
  ghost predicate Marked(present: seq<bool>, ids: seq<nat>) {
    && (forall q | 0 <= q < |present| && q != VIRTUAL :: present[q] <==> q in ids)
    && DistinctButVirtual(ids)
  }

  lemma {:induction false} FlattenSnoc(subset: seq<seq<nat>>, i: nat)
    requires i < |subset|
    ensures Flatten(subset[..i + 1]) == Flatten(subset[..i]) + subset[i]
    decreases i
  {
    if i > 0 {
      FlattenSnoc(subset[1..], i - 1);
      assert subset[1..][..i] == subset[..i + 1][1..] && subset[1..][..i - 1] == subset[..i][1..];
    } else {
      assert subset[..1] == [subset[0]] && subset[..0] == [];
      assert Flatten(subset[..1]) == subset[0] + Flatten(subset[..1][1..]);
    }
  }

  lemma {:induction false} FlattenHas(subset: seq<seq<nat>>, i: nat, j: nat)
    requires i < |subset| && j <= |subset[i]|
    ensures Flatten(subset[..i]) + subset[i][..j] <= Flatten(subset)
    decreases |subset| - i
  {
    FlattenSnoc(subset, i);
    if i + 1 < |subset| {
      FlattenHas(subset, i + 1, 0);
    } else {
      assert subset[..i + 1] == subset;
    }
  }

  /** Ends the compilation, here with `ok` false, at the first index that is met again. */
  method ValidateCustomSubset(subset: seq<seq<nat>>, numPhysQubits: nat) returns (ok: bool)
    requires Bounded(Flatten(subset), numPhysQubits)
    ensures ok <==> DistinctButVirtual(Flatten(subset))
  {
    hide Flatten, Bounded, DistinctButVirtual, Marked;
    var present := new bool[numPhysQubits](_ => false);
    NothingMarked(present[..]);
    var i := 0;
    while i < |subset|
      invariant 0 <= i <= |subset| && Marked(present[..], Flatten(subset[..i]))
    {
      var register := subset[i];
      FlattenSnoc(subset, i);
      assert Flatten(subset[..i]) + register[..0] == Flatten(subset[..i]);
      var j := 0;
      while j < |register|
        invariant 0 <= j <= |register| && Marked(present[..], Flatten(subset[..i]) + register[..j])
      {
        ghost var met := Flatten(subset[..i]) + register[..j];
        assert Flatten(subset[..i]) + register[..j + 1] == met + [register[j]];
        FlattenHas(subset, i, j + 1);
        BoundedAt(subset, numPhysQubits, met, register[j]);
        MeetNext(present[..], met, register[j], Flatten(subset));
        if register[j] != VIRTUAL {
          if present[register[j]] {
            return false;
          }
          present[register[j]] := true;
        }
        j := j + 1;
      }
      assert Flatten(subset[..i]) + register[..j] == Flatten(subset[..i + 1]);
      i := i + 1;
    }
    assert subset[..i] == subset;
    MarkedDistinct(present[..], Flatten(subset));
    return true;
  }

  lemma {:induction false} NothingMarked(present: seq<bool>)
    requires forall q | 0 <= q < |present| :: !present[q]
    ensures Marked(present, Flatten([]))
  {
  }

  lemma {:induction false} MarkedDistinct(present: seq<bool>, ids: seq<nat>)
    requires Marked(present, ids)
    ensures DistinctButVirtual(ids)
  {
  }

  lemma {:induction false} BoundedAt(subset: seq<seq<nat>>, numPhysQubits: nat, met: seq<nat>, id: nat)
    requires Bounded(Flatten(subset), numPhysQubits) && met + [id] <= Flatten(subset)
    ensures id != VIRTUAL ==> id < numPhysQubits
  {
    assert Flatten(subset)[|met|] == (met + [id])[|met|];
  }

  /** The next id: marked already means that it was met, and marking it keeps the marks. */
  lemma {:induction false} MeetNext(present: seq<bool>, met: seq<nat>, id: nat, ids: seq<nat>)
    requires Marked(present, met) && met + [id] <= ids && (id != VIRTUAL ==> id < |present|)
    ensures id == VIRTUAL ==> Marked(present, met + [id])
    ensures id != VIRTUAL && present[id] ==> !DistinctButVirtual(ids)
    ensures id != VIRTUAL && !present[id] ==> Marked(present[id := true], met + [id])
  {
    if id != VIRTUAL && present[id] {
      var k :| 0 <= k < |met| && met[k] == id;
      assert ids[k] == (met + [id])[k] && ids[|met|] == (met + [id])[|met|];
    }
  }

  // ----- getCustomSubset -----

  function Zeros(register: Register): nat {
    if register == [] then 0 else (if register[0] == Some(0) then 1 else 0) + Zeros(register[1..])
  }

  predicate TooLarge(register: Register, numPhysQubits: nat) {
    exists i :: 0 <= i < |register| && register[i].Some? && register[i].value > numPhysQubits - 1
  }

  ghost predicate InBounds(register: Register, numPhysQubits: nat) {
    forall j | 0 <= j < |register| && register[j].Some? :: register[j].value < numPhysQubits
  }

  lemma {:induction false} NotTooLarge(register: Register, numPhysQubits: nat)
    ensures !TooLarge(register, numPhysQubits) <==> InBounds(register, numPhysQubits)
  {
  }

  /** Negative indices are placeholders. */
  function Ids(register: Register): (r: seq<nat>) {
    if register == [] then []
    else if register[0].None? then Ids(register[1..])
    else [if register[0].value < 0 then VIRTUAL else register[0].value] + Ids(register[1..])
  }

  /** A register whose elements are all zero counts as one without a mapping. */
  function Requested(registers: seq<Register>): seq<seq<nat>> {
    if registers == [] then []
    else (if Zeros(registers[0]) < |registers[0]| then [Ids(registers[0])] else []) + Requested(registers[1..])
  }

  lemma {:induction false} IdsSnoc(register: Register, i: nat)
    requires i < |register|
    ensures Ids(register[..i + 1]) ==
            Ids(register[..i]) +
            (if register[i].None? then [] else [if register[i].value < 0 then VIRTUAL else register[i].value])
    ensures Zeros(register[..i + 1]) == Zeros(register[..i]) + if register[i] == Some(0) then 1 else 0
    decreases i
  {
    if i > 0 {
      IdsSnoc(register[1..], i - 1);
      assert register[1..][..i] == register[..i + 1][1..] && register[1..][..i - 1] == register[..i][1..];
    } else {
      assert register[..1] == [register[0]] && register[..0] == [];
      assert Ids(register[..1][1..]) == [] && Zeros(register[..1][1..]) == 0;
    }
  }

  lemma {:induction false} RequestedSnoc(registers: seq<Register>, i: nat)
    requires i < |registers|
    ensures Requested(registers[..i + 1]) ==
            Requested(registers[..i]) + if Zeros(registers[i]) < |registers[i]| then [Ids(registers[i])] else []
    decreases i
  {
    if i > 0 {
      RequestedSnoc(registers[1..], i - 1);
      assert registers[1..][..i] == registers[..i + 1][1..] && registers[1..][..i - 1] == registers[..i][1..];
    } else {
      assert registers[..1] == [registers[0]] && registers[..0] == [];
      assert Requested(registers[..1][1..]) == [];
    }
  }

  /** What is requested, said of the parts: registers keep their order, those of zeros only
      are passed over, and so is every element that is not an integer; other elements keep
      their order, with a placeholder for what is negative. */
  lemma {:induction false} RequestedParts(registers: seq<Register>, register: Register, id: Option<int>)
    ensures Requested([]) == [] && Ids([]) == []
    ensures Requested(registers + [register]) ==
            Requested(registers) + if forall i | 0 <= i < |register| ::
              register[i] == Some(0) then [] else [Ids(register)]
    ensures Ids(register + [None]) == Ids(register)
    ensures id.Some? ==> Ids(register + [id]) == Ids(register) + [if id.value < 0 then 0xFFFF_FFFF else id.value]
  {
    hide Ids, Requested, Zeros;
    NoIds();
    EmptyRequest(0);
    var all := registers + [register];
    assert all[..|registers| + 1] == all && all[..|registers|] == registers;
    RequestedSnoc(all, |registers|);
    ZerosOnly(register);
    OneMoreId(register, None);
    OneMoreId(register, id);
  }

  lemma {:induction false} OneMoreId(register: Register, id: Option<int>)
    ensures Ids(register + [id]) ==
            Ids(register) + if id.None? then [] else [if id.value < 0 then VIRTUAL else id.value]
  {
    var longer := register + [id];
    assert longer[..|register| + 1] == longer && longer[..|register|] == register;
    hide Ids;
    IdsSnoc(longer, |register|);
  }

  lemma {:induction false} ZerosOnly(register: Register)
    ensures Zeros(register) <= |register|
    ensures Zeros(register) == |register| <==> forall i | 0 <= i < |register| :: register[i] == Some(0)
    decreases |register|
  {
    if register != [] {
      ZerosOnly(register[1..]);
      assert forall i | 0 < i < |register| :: register[i] == register[1..][i - 1];
    }
  }

  lemma {:induction false} IdsBounded(register: Register, numPhysQubits: nat)
    requires !TooLarge(register, numPhysQubits)
    ensures Bounded(Ids(register), numPhysQubits)
    decreases |register|
  {
    if register != [] {
      TooLargeTail(register, numPhysQubits);
      IdsBounded(register[1..], numPhysQubits);
      assert register[0].Some? ==> !(register[0].value > numPhysQubits - 1);
    }
  }

  lemma {:induction false} TooLargeTail(register: Register, numPhysQubits: nat)
    requires register != []
    ensures TooLarge(register[1..], numPhysQubits) ==> TooLarge(register, numPhysQubits)
  {
    var tail := register[1..];
    assert forall k | 0 <= k < |tail| :: tail[k] == register[k + 1];
  }

  lemma {:induction false} BoundedConcat(a: seq<nat>, b: seq<nat>, numPhysQubits: nat)
    requires Bounded(a, numPhysQubits) && Bounded(b, numPhysQubits)
    ensures Bounded(a + b, numPhysQubits)
  {
  }

  /** Reads the mapping that the user gives and validates it: the bound on every index is
      checked before it indexes anything. */
  method GetCustomSubset(registers: seq<Register>, numPhysQubits: nat) returns (ok: bool, customSubset: seq<seq<nat>>)
    ensures ok <==>
            (forall i, j | 0 <= i < |registers| && 0 <= j < |registers[i]| && registers[i][j].Some? ::
               registers[i][j].value < numPhysQubits) &&
            DistinctButVirtual(Flatten(Requested(registers)))
    ensures ok ==> customSubset == Requested(registers) && Bounded(Flatten(customSubset), numPhysQubits)
  {
    hide Flatten, Bounded, DistinctButVirtual, Ids, Requested, Zeros, TooLarge;
    customSubset := [];
    EmptyRequest(numPhysQubits);
    var r := 0;
    while r < |registers|
      invariant 0 <= r <= |registers| && customSubset == Requested(registers[..r])
      invariant forall i | 0 <= i < r :: !TooLarge(registers[i], numPhysQubits)
      invariant Bounded(Flatten(customSubset), numPhysQubits)
    {
      var fits, toAdd, numZeros := ReadRegister(registers[r], numPhysQubits);
      if !fits {
        NotTooLarge(registers[r], numPhysQubits);
        return false, customSubset;
      }
      RequestedSnoc(registers, r);
      IdsBounded(registers[r], numPhysQubits);
      if numZeros < |registers[r]| {
        AddedBounded(customSubset, toAdd, numPhysQubits);
        customSubset := customSubset + [toAdd];
      }
      r := r + 1;
    }
    assert registers[..r] == registers;
    forall i | 0 <= i < |registers| ensures InBounds(registers[i], numPhysQubits) {
      NotTooLarge(registers[i], numPhysQubits);
    }
    ok := ValidateCustomSubset(customSubset, numPhysQubits);
  }

  lemma {:induction false} EmptyRequest(numPhysQubits: nat)
    ensures Requested([]) == [] && Bounded(Flatten([]), numPhysQubits)
  {
  }

  lemma {:induction false} AddedBounded(subset: seq<seq<nat>>, register: seq<nat>, numPhysQubits: nat)
    requires Bounded(Flatten(subset), numPhysQubits) && Bounded(register, numPhysQubits)
    ensures Bounded(Flatten(subset + [register]), numPhysQubits)
  {
    hide Flatten, Bounded;
    FlattenSnoc(subset + [register], |subset|);
    assert (subset + [register])[..|subset| + 1] == subset + [register] && (subset + [register])[..|subset|] == subset;
    BoundedConcat(Flatten(subset), register, numPhysQubits);
  }

  method ReadRegister(register: Register, numPhysQubits: nat) returns (fits: bool, toAdd: seq<nat>, numZeros: nat)
    ensures fits <==> !TooLarge(register, numPhysQubits)
    ensures fits ==> toAdd == Ids(register) && numZeros == Zeros(register)
  {
    hide Ids, Zeros;
    toAdd, numZeros := [], 0;
    NoIds();
    var i := 0;
    while i < |register|
      invariant 0 <= i <= |register| && toAdd == Ids(register[..i]) && numZeros == Zeros(register[..i])
      invariant forall k | 0 <= k < i && register[k].Some? :: register[k].value <= numPhysQubits - 1
    {
      IdsSnoc(register, i);
      if register[i].Some? {
        var idx := register[i].value;
        if idx == 0 {
          numZeros := numZeros + 1;
        }
        if idx > numPhysQubits - 1 {
          return false, toAdd, numZeros;
        } else if idx < 0 {
          toAdd := toAdd + [VIRTUAL];
        } else {
          toAdd := toAdd + [idx];
        }
      }
      i := i + 1;
    }
    assert register[..i] == register;
    fits := true;
  }

  lemma {:induction false} NoIds()
    ensures Ids([]) == [] && Zeros([]) == 0
  {
  }
}
