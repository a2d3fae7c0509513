/** The gate iterator of a quantum basic block: the block's gates in order, and a
    cursor that stands on a gate or just past the last one. */
module QbbIter {
  import opened Circuits
  import opened Gates

  function Splice(gs: seq<Gate>, i: nat, g: Gate): seq<Gate>
    requires i <= |gs|
  {
    gs[..i] + [g] + gs[i..]
  }

  class QBBIter {
    var gates: seq<Gate>
    var cursor: nat

    ghost predicate Valid()
      reads this
    {
      cursor <= |gates|
    }

    constructor (block: seq<Gate>)
      ensures Valid() && gates == block && cursor == 0
    {
      gates, cursor := block, 0;
    }

    predicate IsBegin()
      reads this
    {
      cursor == 0
    }

    predicate IsEnd()
      reads this
    {
      cursor == |gates|
    }

    function GetIdentifier(): GateId
      requires Valid() && !IsEnd()
      reads this
    {
      gates[cursor].id
    }

    function GetQubitOperands(): seq<Qubit>
      requires Valid() && !IsEnd()
      reads this
    {
      gates[cursor].qbits
    }

    /** operator++ : stays at the end once there. */
    method Advance()
      requires Valid()
      modifies this`cursor
      ensures Valid() && cursor == if old(IsEnd()) then old(cursor) else old(cursor) + 1
    {
      if !IsEnd() {
        cursor := cursor + 1;
      }
    }

    /** operator-- : stays at the beginning once there. */
    method Retreat()
      requires Valid()
      modifies this`cursor
      ensures Valid() && cursor == if old(IsBegin()) then 0 else old(cursor) - 1
    {
      if !IsBegin() {
        cursor := cursor - 1;
      }
    }

    /** Moves to the first gate with this identifier strictly after the cursor, or to
        the end. */
    method GotoNextGateInstance(id: GateId) returns (found: bool)
      requires Valid()
      modifies this`cursor
      ensures Valid() && found == !IsEnd() && (found ==> GetIdentifier() == id)
      ensures old(IsEnd()) ==> cursor == old(cursor)
      ensures !old(IsEnd()) ==> old(cursor) < cursor
      ensures forall i | old(cursor) < i < cursor :: gates[i].id != id
    {
      if IsEnd() {
        return false;
      }
      Advance();
      while !IsEnd() && GetIdentifier() != id
        invariant Valid() && old(cursor) < cursor
        invariant forall i | old(cursor) < i < cursor :: gates[i].id != id
        decreases |gates| - cursor
      {
        Advance();
      }
      found := !IsEnd();
    }

    /** Moves to the first gate with this identifier in the block, or to the end. */
    method GotoFirstGateInstance(id: GateId) returns (found: bool)
      requires Valid() && gates != []
      modifies this`cursor
      ensures Valid() && found == !IsEnd() && (found ==> GetIdentifier() == id)
      ensures forall i | 0 <= i < cursor :: gates[i].id != id
    {
      cursor := 0;
      if GetIdentifier() != id {
        found := GotoNextGateInstance(id);
        return;
      }
      found := true;
    }

    /** Inserts a gate before the cursor and leaves the cursor on it.  Refuses operand
        lists that do not fit the gate, and then changes nothing. */
    method InsertGate(id: GateId, qbits: seq<Qubit>, paras: seq<real> := []) returns (ok: bool)
      requires Valid()
      modifies this
      ensures Valid() && cursor == old(cursor)
      ensures ok <==>
              match id
              case H | X | Z | T | Tdag => |qbits| == 1 && paras == []
              case CX => |qbits| == 2 && paras == []
              case Toffoli => |qbits| == 3 && paras == []
              case Other(_, n, p) => |qbits| == n && |paras| == p
      ensures gates == if ok then Splice(old(gates), old(cursor), Gate(id, qbits, paras)) else old(gates)
    {
      if |qbits| != Arity(id) || |paras| != ParaArity(id) {
        return false;
      }
      gates := gates[..cursor] + [Gate(id, qbits, paras)] + gates[cursor..];
      ok := true;
    }

    /** Removes the gate under the cursor and leaves the cursor on the one after it.  The
        gate is gone even if the calls that made its operands cannot be removed, and only
        the result tells. */
    method RemoveGate() returns (ok: bool)
      requires Valid()
      modifies this
      ensures Valid() && (ok ==> !old(IsEnd())) && cursor == old(cursor)
      ensures gates == if old(IsEnd()) then old(gates) else old(gates)[..cursor] + old(gates)[cursor + 1..]
    {
      if IsEnd() {
        return false;
      }
      gates := gates[..cursor] + gates[cursor + 1..];
      ok := *;
    }
  }
}
