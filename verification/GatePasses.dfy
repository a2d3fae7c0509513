/** The two passes as they run: a cursor moves over the block, inserts the new gates
    backwards behind the gate it found, steps back and removes that gate. */
module GatePasses {
  import opened Circuits
  import opened Gates
  import opened QbbIter
  import opened ToffoliMeaning
  import opened GateRewriting

  /** Where the loop of a pass stands: the first `i` gates of the original block are
      rewritten, the cursor is on gate `i`, which is to be rewritten next. */
  ghost predicate Standing(id: GateId, block: seq<Gate>, i: nat, gates: seq<Gate>, cursor: nat)
    requires WellTyped(block)
  {
    && i < |block|
    && block[i].id == id
    && gates == RewriteAll(id, block[..i]) + block[i..]
    && cursor == |RewriteAll(id, block[..i])|
  }

  /** The same, once gate `i` is replaced and the cursor is on its replacement. */
  ghost predicate Replaced(id: GateId, block: seq<Gate>, i: nat, gates: seq<Gate>, cursor: nat)
    requires WellTyped(block)
  {
    && i < |block|
    && block[i].id == id
    && gates == RewriteAll(id, block[..i]) + Expand(id, block[i]) + block[i + 1..]
    && cursor == |RewriteAll(id, block[..i])|
  }

  /** `flag = flag && qit.insertGate(...)`.  The ghost arguments are the block before
      the cursor, the gates inserted so far, and the rest of the block. */
  method InsertBehind(qit: QBBIter, id: GateId, qbits: seq<Qubit>, flag: bool,
                      ghost before: seq<Gate>, ghost ins: seq<Gate>, ghost after: seq<Gate>)
    returns (ok: bool, ghost ins': seq<Gate>)
    requires qit.Valid() && qit.gates == before + ins + after && qit.cursor == |before|
    requires ParaArity(id) == 0
    modifies qit
    ensures qit.Valid() && qit.gates == before + ins' + after && qit.cursor == |before|
    ensures ok == (flag && |qbits| == Arity(id))
    ensures ins' == if ok then [G(id, qbits)] + ins else ins
  {
    ok, ins' := flag, ins;
    if flag {
      ok := qit.InsertGate(id, qbits);
      if ok {
        ins' := [G(id, qbits)] + ins;
        assert qit.gates == before + ins' + after;
      }
    }
  }

  /** CX ctl1 ctl2, Tdag ctl2, T ctl1, CX ctl1 ctl2, inserted backwards. */
  method InsertTail(qit: QBBIter, toff: seq<Qubit>, ghost before: seq<Gate>, ghost after: seq<Gate>)
    returns (flag: bool)
    requires qit.Valid() && |toff| == 3 && qit.gates == before + after && qit.cursor == |before|
    modifies qit
    ensures qit.Valid() && flag && qit.cursor == |before|
    ensures qit.gates == before + Tail(toff[0], toff[1]) + after
  {
    ghost var ins: seq<Gate> := [];
    assert qit.gates == before + ins + after;
    var nQbit2 := [toff[0], toff[1]];
    flag, ins := InsertBehind(qit, CX, nQbit2, true, before, ins, after);
    var nQbit1 := [toff[1]];
    flag, ins := InsertBehind(qit, Tdag, nQbit1, flag, before, ins, after);
    nQbit1 := [toff[0]];
    flag, ins := InsertBehind(qit, T, nQbit1, flag, before, ins, after);
    nQbit2 := [toff[0], toff[1]];
    flag, ins := InsertBehind(qit, CX, nQbit2, flag, before, ins, after);
    assert ins == Tail(toff[0], toff[1]);
  }

  /** A phase gate on the target and the CX from `c` to the target that precedes it. */
  method InsertPair(qit: QBBIter, c: Qubit, id: GateId, nQbit1: seq<Qubit>, flag: bool,
                    ghost before: seq<Gate>, ghost ins: seq<Gate>, ghost after: seq<Gate>)
    returns (ok: bool, ghost ins': seq<Gate>)
    requires qit.Valid() && qit.gates == before + ins + after && qit.cursor == |before|
    requires |nQbit1| == 1 && (id == T || id == Tdag) && flag
    modifies qit
    ensures qit.Valid() && qit.gates == before + ins' + after && qit.cursor == |before|
    ensures ok && ins' == Pair(c, id, nQbit1[0]) + ins
  {
    ok, ins' := InsertBehind(qit, id, nQbit1, flag, before, ins, after);
    var nQbit2 := [c, nQbit1[0]];
    ok, ins' := InsertBehind(qit, CX, nQbit2, ok, before, ins', after);
    assert nQbit1 == [nQbit1[0]];
  }

  /** The backward insertions of the Toffoli pass, which reuse the operand vectors. */
  method InsertExpansion(qit: QBBIter, toff: seq<Qubit>) returns (flag: bool)
    requires qit.Valid() && |toff| == 3
    modifies qit
    ensures qit.Valid() && flag && qit.cursor == old(qit.cursor)
    ensures qit.gates == old(qit.gates)[..qit.cursor] + Expansion(toff[0], toff[1], toff[2]) +
            old(qit.gates)[qit.cursor..]
  {
    hide Pair, Tail;
    ghost var before, after, ins := qit.gates[..qit.cursor], qit.gates[qit.cursor..], Tail(toff[0], toff[1]);
    assert qit.gates == before + after;
    flag := InsertTail(qit, toff, before, after);
    var nQbit1 := [toff[2]];
    flag, ins := InsertBehind(qit, H, nQbit1, flag, before, ins, after);
    nQbit1 := [toff[1]];
    flag, ins := InsertBehind(qit, T, nQbit1, flag, before, ins, after);
    nQbit1 := [toff[2]];
    flag, ins := InsertPair(qit, toff[0], T, nQbit1, flag, before, ins, after);
    flag, ins := InsertPair(qit, toff[1], Tdag, nQbit1, flag, before, ins, after);
    flag, ins := InsertPair(qit, toff[0], T, nQbit1, flag, before, ins, after);
    flag, ins := InsertPair(qit, toff[1], Tdag, nQbit1, flag, before, ins, after);
    flag, ins := InsertBehind(qit, H, nQbit1, flag, before, ins, after);
    ExpansionInFront(toff[0], toff[1], toff[2]);
  }

  lemma {:induction false} ExpansionInFront(c0: Qubit, c1: Qubit, t: Qubit)
    ensures [G(H, [t])] + (Pair(c1, Tdag, t) + (Pair(c0, T, t) + (Pair(c1, Tdag, t) + (Pair(c0, T, t) +
            ([G(T, [c1])] + ([G(H, [t])] + Tail(c0, c1))))))) == Expansion(c0, c1, t)
  {
    hide Pair, Tail;
  }

  /** The search for the first gate ends where the loop starts. */
  lemma {:induction false} FirstStanding(id: GateId, block: seq<Gate>, cursor: nat)
    requires WellTyped(block) && cursor <= |block| && forall k | 0 <= k < cursor :: block[k].id != id
    ensures cursor < |block| && block[cursor].id == id ==> Standing(id, block, cursor, block, cursor)
    ensures cursor == |block| ==> RewriteAll(id, block) == block
  {
    assert block[..cursor] + block[cursor..] == block;
    assert cursor == |block| ==> block[..cursor] == block;
    RewriteNothing(id, block[..cursor]);
  }

  /** The search for the next gate skips exactly the gates that stay, so the loop
      stands again or the whole block is rewritten. */
  lemma {:induction false} NextStanding(id: GateId, block: seq<Gate>, i: nat, gates: seq<Gate>, cursor: nat,
          cursor': nat)
    returns (j: nat)
    requires WellTyped(block) && (id == Toffoli || id == X) && Replaced(id, block, i, gates, cursor)
    requires cursor < cursor' <= |gates|
    requires forall k | cursor < k < cursor' :: gates[k].id != id
    requires cursor' < |gates| ==> gates[cursor'].id == id
    ensures i < j <= |block|
    ensures if cursor' < |gates| then Standing(id, block, j, gates, cursor') else RewriteAll(id, block) == gates
  {
    hide Expand, RewriteAll;
    var before, e, after := RewriteAll(id, block[..i]), Expand(id, block[i]), block[i + 1..];
    ExpandHasNone(id, block[i]);
    SearchPasses(id, before, e, after, cursor');
    var skipped := cursor' - cursor - |e|;
    j := i + 1 + skipped;
    assert block[i + 1..j] == after[..skipped] && block[j..] == after[skipped..];
    assert forall k | i < k < j :: block[k] == after[k - i - 1];
    RewriteStretch(id, block, i, j);
    assert before + e + after == (before + e + after[..skipped]) + after[skipped..];
  }

  /** A search that starts on the first of the new gates passes all of them. */
  lemma {:induction false} SearchPasses(id: GateId, before: seq<Gate>, e: seq<Gate>, after: seq<Gate>, cursor': nat)
    requires |before| < cursor' <= |before + e + after|
    requires e != [] && forall k | 0 <= k < |e| :: e[k].id != id
    requires forall k | |before| < k < cursor' :: (before + e + after)[k].id != id
    requires cursor' < |before + e + after| ==> (before + e + after)[cursor'].id == id
    ensures |before| + |e| <= cursor'
    ensures forall k | 0 <= k < cursor' - |before| - |e| :: after[k].id != id
    ensures cursor' < |before + e + after| ==> after[cursor' - |before| - |e|].id == id
  {
    var all := before + e + after;
    assert forall k | 0 <= k < |e| :: all[|before| + k] == e[k];
    forall k | 0 <= k < cursor' - |before| - |e| ensures after[k].id != id {
      assert all[|before| + |e| + k] == after[k];
    }
  }

  lemma {:induction false} RewriteStretch(id: GateId, block: seq<Gate>, i: nat, j: nat)
    requires WellTyped(block) && i < j <= |block| && forall k | i < k < j :: block[k].id != id
    ensures RewriteAll(id, block[..j]) == RewriteAll(id, block[..i]) + Expand(id, block[i]) + block[i + 1..j]
    ensures j == |block| ==> block[..j] == block
  {
    hide Expand;
    var mid := block[i..j];
    assert block[..j] == block[..i] + mid && mid[0] == block[i] && mid[1..] == block[i + 1..j];
    RewriteAppend(id, block[..i], mid);
    RewriteNothing(id, block[i + 1..j]);
  }

  lemma {:induction false} ExpandHasNone(id: GateId, g: Gate)
    requires |g.qbits| == Arity(g.id) && (id == Toffoli || id == X) && g.id == id
    ensures Expand(id, g) != [] && forall k | 0 <= k < |Expand(id, g)| :: Expand(id, g)[k].id != id
  {
    var e := Expand(id, g);
    forall k | 0 <= k < |e| ensures e[k].id != id {
    }
  }

  /** Removing the gate in front of its replacement. */
  lemma {:induction false} TakenOut(before: seq<Gate>, g: Gate, e: seq<Gate>, after: seq<Gate>)
    ensures var all := before + [g] + e + after;
            all[|before|] == g && all[..|before|] + all[|before| + 1..] == before + e + after
  {
  }

  /** One turn of the Toffoli loop up to the search for the next gate. */
  method ReplaceToffoli(qit: QBBIter, ghost block: seq<Gate>, ghost i: nat) returns (ok: bool)
    requires qit.Valid() && WellTyped(block) && Standing(Toffoli, block, i, qit.gates, qit.cursor)
    modifies qit
    ensures qit.Valid() && !qit.IsEnd() && ok && Replaced(Toffoli, block, i, qit.gates, qit.cursor)
  {
    hide RewriteAll, Expansion;
    ghost var before, g, after := RewriteAll(Toffoli, block[..i]), block[i], block[i + 1..];
    assert block[i..] == [g] + after;
    var toffQbits := qit.GetQubitOperands();
    qit.Advance();
    assert qit.gates[..qit.cursor] == before + [g] && qit.gates[qit.cursor..] == after;
    var flag := InsertExpansion(qit, toffQbits);
    qit.Retreat();
    TakenOut(before, g, Expansion(toffQbits[0], toffQbits[1], toffQbits[2]), after);
    ExpandHasNone(Toffoli, g);
    if flag && qit.GetIdentifier() == Toffoli {
      var _ := qit.RemoveGate();
      ok := true;
    } else {
      ok := false;
    }
  }

  /** decomposeAllToffoli: terminates, never loses a Toffoli gate, and leaves the block
      with every Toffoli gate replaced in place. */
  method DecomposeAllToffoli(qit: QBBIter) returns (ok: bool)
    requires qit.Valid() && qit.cursor == 0 && WellTyped(qit.gates)
    modifies qit
    ensures qit.Valid() && ok && qit.gates == RewriteAll(Toffoli, old(qit.gates))
  {
    hide RewriteAll, Standing, Replaced;
    ghost var block := qit.gates;
    if qit.IsEnd() {
      FirstStanding(Toffoli, block, 0);
      return true;
    }
    var more := qit.GotoFirstGateInstance(Toffoli);
    ghost var i: nat := qit.cursor;
    FirstStanding(Toffoli, block, i);
    while more
      invariant qit.Valid() && i <= |block|
      invariant if more then Standing(Toffoli, block, i, qit.gates, qit.cursor)
                else qit.gates == RewriteAll(Toffoli, block)
      decreases |block| - i, more
    {
      var replaced := ReplaceToffoli(qit, block, i);
      if !replaced {
        return false;
      }
      ghost var cursor := qit.cursor;
      more := qit.GotoNextGateInstance(Toffoli);
      i := NextStanding(Toffoli, block, i, qit.gates, cursor, qit.cursor);
    }
    return true;
  }

  /** One turn of the X loop. */
  method ReplaceX(qit: QBBIter, ghost block: seq<Gate>, ghost i: nat) returns (ok: bool)
    requires qit.Valid() && WellTyped(block) && Standing(X, block, i, qit.gates, qit.cursor)
    modifies qit
    ensures qit.Valid() && !qit.IsEnd() && ok && Replaced(X, block, i, qit.gates, qit.cursor)
  {
    hide RewriteAll;
    ghost var before, g, after := RewriteAll(X, block[..i]), block[i], block[i + 1..];
    assert block[i..] == [g] + after;
    var xQubits := qit.GetQubitOperands();
    qit.Advance();
    ghost var ins: seq<Gate> := [];
    assert qit.gates == before + [g] + ins + after;
    var nQbit1 := [xQubits[0]];
    var flag := true;
    flag, ins := InsertBehind(qit, H, nQbit1, flag, before + [g], ins, after);
    flag, ins := InsertBehind(qit, Z, nQbit1, flag, before + [g], ins, after);
    flag, ins := InsertBehind(qit, H, nQbit1, flag, before + [g], ins, after);
    assert ins == HZH(xQubits[0]);
    qit.Retreat();
    TakenOut(before, g, ins, after);
    if flag && qit.GetIdentifier() == X {
      var _ := qit.RemoveGate();
      ok := true;
    } else {
      ok := false;
    }
  }

  /** ConvertXToHZH, by the same walk. */
  method ConvertXToHZH(qit: QBBIter) returns (ok: bool)
    requires qit.Valid() && qit.cursor == 0 && WellTyped(qit.gates)
    modifies qit
    ensures qit.Valid() && ok && qit.gates == RewriteAll(X, old(qit.gates))
  {
    hide RewriteAll, Standing, Replaced;
    ghost var block := qit.gates;
    if qit.IsEnd() {
      FirstStanding(X, block, 0);
      return true;
    }
    var more := qit.GotoFirstGateInstance(X);
    ghost var i: nat := qit.cursor;
    FirstStanding(X, block, i);
    while more
      invariant qit.Valid() && i <= |block|
      invariant if more then Standing(X, block, i, qit.gates, qit.cursor)
                else qit.gates == RewriteAll(X, block)
      decreases |block| - i, more
    {
      var replaced := ReplaceX(qit, block, i);
      if !replaced {
        return false;
      }
      ghost var cursor := qit.cursor;
      more := qit.GotoNextGateInstance(X);
      i := NextStanding(X, block, i, qit.gates, cursor, qit.cursor);
    }
    return true;
  }
}
