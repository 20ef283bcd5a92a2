/** Where every slot is, and what its memory shows. */
module SlotLedger {
  import opened Basics
  import opened SlotMachine
  import opened SlotHistory

  // ---------------------------------------------------------------- offsets

  lemma {:induction false} OffsetStable(a: seq<Msg>, b: seq<Msg>, j: nat)
    requires j <= |a| && a <= b
    ensures Offset(b, j) == Offset(a, j)
  {
    if j > 0 {
      OffsetStable(a, b, j - 1);
    }
  }

  lemma {:induction false} OffsetLess(msgs: seq<Msg>, i: nat, j: nat)
    requires i < j <= |msgs|
    ensures Offset(msgs, i) + Stride(msgs[i]) <= Offset(msgs, j)
  {
    if i < j - 1 {
      OffsetLess(msgs, i, j - 1);
    }
  }

  lemma EndAppend(msgs: seq<Msg>, m: Msg)
    ensures End(msgs + [m]) == End(msgs) + Stride(m)
  {
    OffsetStable(msgs, msgs + [m], |msgs|);
  }

  lemma OffsetBound(msgs: seq<Msg>, j: nat)
    requires j <= |msgs|
    ensures Offset(msgs, j) <= End(msgs)
    ensures j < |msgs| ==> Offset(msgs, j) + Stride(msgs[j]) <= End(msgs)
  {
    if j < |msgs| {
      OffsetLess(msgs, j, |msgs|);
    }
  }

  lemma EndZero(msgs: seq<Msg>)
    ensures End(msgs) == 0 <==> msgs == []
  {
    if |msgs| > 0 {
      OffsetLess(msgs, 0, |msgs|);
    }
  }

  // ---------------------------------------------------------------- places

  lemma {:induction false} CountUpdate(stage: seq<Stage>, k: nat, t: Stage)
    requires k < |stage|
    ensures CountBack(stage[k := t]) ==
      CountBack(stage) - (if stage[k].Live? then 0 else 1) + (if t.Live? then 0 else 1)
    ensures CountDone(stage[k := t]) ==
      CountDone(stage) - (if stage[k].Done? then 1 else 0) + (if t.Done? then 1 else 0)
  {
    var n := |stage| - 1;
    if k == n {
      assert stage[k := t][..n] == stage[..n];
    } else {
      CountUpdate(stage[..n], k, t);
      assert stage[k := t][..n] == stage[..n][k := t];
    }
  }

  /** With every slot number from rx on still live, at most rx came back. */
  lemma {:induction false} CountBackBound(stage: seq<Stage>, rx: nat)
    requires forall k :: 0 <= k < |stage| && k >= rx ==> stage[k].Live?
    ensures CountBack(stage) <= rx
  {
    if |stage| > rx {
      CountBackBound(stage[..|stage| - 1], rx);
    }
  }

  lemma PlacesTake(n: nat, available: nat, order: seq<nat>, stage: seq<Stage>, released: seq<nat>)
    requires Places(n, available, order, stage, released) && |stage| < available
    ensures Places(n, available, order, stage + [Live], released)
  {
    hide OncePlaced;
    var t := stage + [Live];
    assert t[..|stage|] == stage;
    OnceKept(order, stage, t);
  }

  lemma OnceGivenBack(order: seq<nat>, stage: seq<Stage>, k: nat)
    requires OncePlaced(order, stage) && k < |stage| <= |order| && stage[k].Live?
    ensures OncePlaced(order + [order[k]], stage[k := Waiting])
  {
    var t := stage[k := Waiting];
    var o := order + [order[k]];
    assert Owned(stage, k);
    forall i, j | 0 <= i < j < |o| && Owned(t, i) && Owned(t, j) ensures o[i] != o[j] {
      assert i != k && j != k && Owned(stage, i) && Owned(stage, j);
    }
  }

  lemma PlacesGiveBack(n: nat, available: nat, order: seq<nat>, stage: seq<Stage>, released: seq<nat>, k: nat)
    requires Places(n, available, order, stage, released) && k < |stage| && stage[k].Live?
    ensures Places(n, available, order + [order[k]], stage[k := Waiting], released + [k])
  {
    hide OncePlaced;
    var t := stage[k := Waiting];
    var l := released + [k];
    CountUpdate(stage, k, Waiting);
    OnceGivenBack(order, stage, k);
    forall j | 0 <= j < |t| && !t[j].Live? ensures j in l {
      if j == k {
        assert l[|released|] == k;
      } else {
        assert !stage[j].Live?;
      }
    }
  }

  lemma OnceKept(order: seq<nat>, stage: seq<Stage>, t: seq<Stage>)
    requires OncePlaced(order, stage) && forall i: nat :: Owned(t, i) ==> Owned(stage, i)
    ensures OncePlaced(order, t)
  {
  }

  lemma PlacesRecycle(n: nat, available: nat, order: seq<nat>, stage: seq<Stage>, released: seq<nat>)
    requires Places(n, available, order, stage, released) && available < |order|
    ensures Rescanned(released, available, n) == released[available - n] < |stage|
    ensures stage[released[available - n]] == Waiting
    ensures Places(n, available + 1, order, stage[released[available - n] := Done], released)
  {
    hide OncePlaced;
    var f := released[available - n];
    var t := stage[f := Done];
    CountUpdate(stage, f, Done);
    OnceKept(order, stage, t);
    assert forall k :: 0 <= k < |t| && !t[k].Live? ==> k in released;
    forall r | 0 <= r < |released| ensures t[released[r]] == if n + r < available + 1 then Done else Waiting {
      if r != available - n {
        assert released[r] != f;
      }
    }
  }

  /** Slot numbers not yet rescanned use different slots. */
  lemma HeldApart(n: nat, available: nat, order: seq<nat>, stage: seq<Stage>, released: seq<nat>, j: nat, k: nat)
    requires Places(n, available, order, stage, released)
    requires j < |stage| && k < |stage| && j != k && !stage[j].Done? && !stage[k].Done?
    ensures order[j] != order[k]
  {
    var i := PlaceOf(n, available, order, stage, released, j);
    var l := PlaceOf(n, available, order, stage, released, k);
    assert i != l;
  }

  lemma PlaceOf(n: nat, available: nat, order: seq<nat>, stage: seq<Stage>, released: seq<nat>, k: nat) returns (i: nat)
    requires Places(n, available, order, stage, released) && k < |stage| && !stage[k].Done?
    ensures i < |order| && Owned(stage, i) && order[i] == order[k]
    ensures if stage[k].Live? then i == k else |stage| <= i && n <= i && released[i - n] == k
  {
    if stage[k].Live? {
      i := k;
    } else {
      assert k in released;
      var r :| 0 <= r < |released| && released[r] == k;
      i := n + r;
    }
  }

  lemma {:induction false} HolderIs(order: seq<nat>, stage: seq<Stage>, s: nat, k: nat, top: nat)
    requires k < top <= |stage| <= |order| && stage[k].Live? && order[k] == s
    requires OncePlaced(order, stage)
    ensures Holder(order, stage, s, top) == k
  {
    if top - 1 != k {
      assert Owned(stage, k);
      if stage[top - 1].Live? {
        assert Owned(stage, top - 1);
      }
      HolderIs(order, stage, s, k, top - 1);
    }
  }

  /** The history notes the right slot number when slot s goes back. */
  lemma GiveBackIs(n: nat, available: nat, h: History, k: nat)
    requires Places(n, available, h.order, h.stage, h.released) && k < |h.stage| && h.stage[k].Live?
    ensures GiveBack(h, h.order[k]) ==
      h.(stage := h.stage[k := Waiting], order := h.order + [h.order[k]], released := h.released + [k])
  {
    HolderIs(h.order, h.stage, h.order[k], k, |h.stage|);
  }

  // ---------------------------------------------------------------- the ring

  lemma RingPush(ring: seq<nat>, order: seq<nat>, s: nat)
    requires RingHolds(ring, order)
    ensures RingHolds(ring[|order| % RING := s], order + [s])
  {
    var r := ring[|order| % RING := s];
    var o := order + [s];
    forall i | 0 <= i < |o| && |o| <= i + RING ensures r[i % RING] == o[i] {
      if i < |order| {
        assert i % RING != |order| % RING;
      }
    }
  }

  /** No entry is overwritten before both sides have read it: the entries the sender, the
      receiver and the recycle thread read next are still on the ring. */
  lemma RingReads(n: nat, available: nat, order: seq<nat>, stage: seq<Stage>, released: seq<nat>, ring: seq<nat>, rx: nat)
    requires Places(n, available, order, stage, released) && RingHolds(ring, order)
    requires rx <= |stage| && forall k :: 0 <= k < |stage| && k >= rx ==> stage[k].Live?
    ensures forall i :: rx <= i < |order| ==> ring[i % RING] == order[i]
    ensures |order| <= rx + RING
  {
    CountBackBound(stage, rx);
  }

  // ---------------------------------------------------------------- memory

  lemma WrittenSpares(s: Slot, off: nat, m: Msg, x: int)
    ensures off in Written(s, off, m) && Written(s, off, m)[off] == Cell(m, false)
    ensures x in s && x < off ==> x in Written(s, off, m) && Written(s, off, m)[x] == s[x]
  {
  }

  lemma HoldsMore(s: Slot, msgs: seq<Msg>, m: Msg)
    requires Holds(s, msgs)
    ensures Holds(Written(s, End(msgs), m), msgs + [m])
  {
    hide Written, Offset, Stride;
    var t := Written(s, End(msgs), m);
    var all := msgs + [m];
    forall j | 0 <= j < |all| ensures Offset(all, j) in t && t[Offset(all, j)].msg == all[j] {
      OffsetStable(msgs, all, j);
      WrittenSpares(s, End(msgs), m, Offset(msgs, j));
      if j < |msgs| {
        OffsetBound(msgs, j);
      }
    }
  }

  lemma AppendLog(log: seq<seq<Msg>>, m: Msg)
    requires |log| > 0
    ensures Append(log, m) == log[|log| - 1 := log[|log| - 1] + [m]]
  {
  }

  /** What the sender writes goes to the slot it fills and to no slot in use. */
  lemma ContentsAppend(n: nat, available: nat, mem: seq<Slot>, order: seq<nat>, log: seq<seq<Msg>>, stage: seq<Stage>, released: seq<nat>, m: Msg)
    requires Places(n, available, order, stage, released) && Contents(mem, order, log, stage)
    requires |log| > 0 && stage[|log| - 1].Live? && n == |mem|
    ensures var k := |log| - 1;
      Contents(mem[order[k] := Written(mem[order[k]], End(log[k]), m)], order, Append(log, m), stage)
  {
    hide Written, Holds, Places, Append;
    var k := |log| - 1;
    AppendLog(log, m);
    HoldsMore(mem[order[k]], log[k], m);
    forall j | 0 <= j < k && !stage[j].Done? ensures order[j] != order[k] {
      HeldApart(n, available, order, stage, released, j, k);
    }
  }

  lemma ContentsTake(mem: seq<Slot>, order: seq<nat>, log: seq<seq<Msg>>, stage: seq<Stage>)
    requires Contents(mem, order, log, stage) && |log| < |order| && order[|log|] < |mem|
    ensures Contents(mem, order, log + [[]], stage + [Live])
  {
  }

  lemma ContentsStage(mem: seq<Slot>, order: seq<nat>, log: seq<seq<Msg>>, stage: seq<Stage>, k: nat, t: Stage, s: nat)
    requires Contents(mem, order, log, stage) && k < |stage| && !stage[k].Done?
    ensures Contents(mem, order, log, stage[k := t])
    ensures Contents(mem, order + [s], log, stage[k := t])
  {
  }

  /** Setting or clearing the claimed bit changes no message. */
  lemma ContentsClaim(mem: seq<Slot>, order: seq<nat>, log: seq<seq<Msg>>, stage: seq<Stage>, s: nat, x: int, b: bool)
    requires Contents(mem, order, log, stage) && s < |mem| && x in mem[s]
    ensures Contents(mem[s := mem[s][x := mem[s][x].(claimed := b)]], order, log, stage)
  {
    var t := mem[s][x := mem[s][x].(claimed := b)];
    forall msgs | Holds(mem[s], msgs) ensures Holds(t, msgs) {
    }
  }

  // ---------------------------------------------------------------- layout and marks

  lemma LayoutAppend(log: seq<seq<Msg>>, rx: nat, m: Msg)
    requires Layout(log, rx) && |log| > 0 && End(log[|log| - 1]) + Stride(m) <= SLOT_SIZE
    ensures Layout(Append(log, m), rx) && Filled(Append(log, m)) == Filled(log) + Stride(m)
  {
    AppendLog(log, m);
    EndAppend(log[|log| - 1], m);
  }

  lemma LayoutTake(log: seq<seq<Msg>>, rx: nat)
    requires Layout(log, rx) && Filled(log) == SLOT_SIZE * |log|
    ensures Layout(log + [[]], rx) && Filled(log + [[]]) == Filled(log)
  {
    var t := log + [[]];
    assert forall k :: 0 <= k < |log| ==> t[k] == log[k];
  }

  lemma MarkAppend(log: seq<seq<Msg>>, m: Msg, k: Mark, pos: nat)
    requires MarkOk(log, k, pos) && |log| > 0
    ensures MarkOk(Append(log, m), k, pos)
  {
    AppendLog(log, m);
    var last := log[|log| - 1];
    if k.fill == |log| - 1 && k.index <= |last| {
      OffsetStable(last, last + [m], k.index);
    }
  }

  lemma MarkTake(log: seq<seq<Msg>>, k: Mark, pos: nat)
    requires MarkOk(log, k, pos)
    ensures MarkOk(log + [[]], k, pos)
  {
  }

  lemma MarkEnd(log: seq<seq<Msg>>)
    ensures MarkOk(log, EndMark(log), Filled(log))
  {
  }

  /** A mark beyond message j of slot number k, or beyond its end, lies behind it in the log. */
  lemma MarkBeyond(log: seq<seq<Msg>>, rx: nat, q: Mark, pos: nat, k: nat, j: nat)
    requires Layout(log, rx) && MarkOk(log, q, pos) && k < |log| && j <= |log[k]|
    requires SLOT_SIZE * k + Offset(log[k], j) < pos
    ensures q.fill > k || (q.fill == k && q.index > j)
    ensures j == |log[k]| ==> k < |log| - 1 && End(log[k]) == SLOT_SIZE
    ensures j < |log[k]| ==> SLOT_SIZE * k + Offset(log[k], j + 1) <= pos
  {
    assert q.fill < |log|;
    OffsetBound(log[q.fill], q.index);
    OffsetBound(log[k], j);
    if q.fill == k {
      if q.index < j {
        OffsetLess(log[k], q.index, j);
      } else if j + 1 < q.index {
        OffsetLess(log[k], j + 1, q.index);
      }
    }
  }
}
