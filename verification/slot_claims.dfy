/** Claimed headers and the two counters of a slot. */
module SlotClaims {
  import opened Basics
  import opened SlotMachine
  import opened SlotHistory
  import opened SlotLedger

  // ---------------------------------------------------------------- counting claimed headers

  lemma ClaimOne(s: Slot, x: int)
    requires x in s && !s[x].claimed
    ensures Claims(s[x := s[x].(claimed := true)]) == Claims(s) + 1
  {
    assert ClaimedHeaders(s[x := s[x].(claimed := true)]) == ClaimedHeaders(s) + {x};
  }

  lemma ReleaseOne(s: Slot, x: int)
    requires x in s && s[x].claimed
    ensures Claims(s[x := s[x].(claimed := false)]) == Claims(s) - 1
  {
    assert ClaimedHeaders(s[x := s[x].(claimed := false)]) == ClaimedHeaders(s) - {x};
  }

  lemma WriteKeepsClaims(s: Slot, off: nat, m: Msg)
    requires forall x :: x in s && s[x].claimed ==> x < off
    ensures Claims(Written(s, off, m)) == Claims(s)
    ensures forall x :: x in Written(s, off, m) && Written(s, off, m)[x].claimed ==> x in s && s[x].claimed
  {
    assert ClaimedHeaders(Written(s, off, m)) == ClaimedHeaders(s);
  }

  lemma NoneClaimed(s: Slot)
    ensures Claims(s) == 0 <==> forall x :: x in s ==> !s[x].claimed
  {
    if forall x :: x in s ==> !s[x].claimed {
      assert ClaimedHeaders(s) == {};
    } else {
      var x :| x in s && s[x].claimed;
      assert x in ClaimedHeaders(s);
    }
  }

  // ---------------------------------------------------------------- whose claim it is

  lemma LiveApart(order: seq<nat>, stage: seq<Stage>, j: nat, k: nat)
    requires OncePlaced(order, stage) && j < |stage| && k < |stage| && |stage| <= |order|
    requires stage[j].Live? && stage[k].Live? && order[j] == order[k]
    ensures j == k
  {
    assert Owned(stage, j) && Owned(stage, k);
  }

  /** A claimed header belongs to the one live slot number that uses its slot. */
  lemma ClaimIn(mem: seq<Slot>, info: seq<Info>, order: seq<nat>, log: seq<seq<Msg>>, stage: seq<Stage>,
                rx: nat, at: nat, parsing: bool, taken: bool, k: nat, x: int)
    requires Counting(mem, info, order, log, stage, rx, at, parsing, taken) && OncePlaced(order, stage)
    requires k < |stage| && stage[k].Live? && x in mem[order[k]] && mem[order[k]][x].claimed
    ensures Claimant(order, log, stage, rx, at, parsing, taken, order[k], x, k)
  {
    var j: nat :| Claimant(order, log, stage, rx, at, parsing, taken, order[k], x, j);
    LiveApart(order, stage, j, k);
  }

  // ---------------------------------------------------------------- the sender's steps

  lemma HandedOutAppend(log: seq<seq<Msg>>, rx: nat, at: nat, taken: bool, k: nat, x: int, m: Msg)
    requires HandedOut(log, rx, at, taken, k, x) && (k == rx ==> at <= |log[k]|)
    ensures HandedOut(Append(log, m), rx, at, taken, k, x)
  {
    AppendLog(log, m);
    var last := |log| - 1;
    EndAppend(log[last], m);
    if k == rx == last {
      OffsetStable(log[k], log[k] + [m], at);
    }
  }

  lemma CountingAppend(mem: seq<Slot>, info: seq<Info>, order: seq<nat>, log: seq<seq<Msg>>, stage: seq<Stage>,
                       rx: nat, at: nat, parsing: bool, taken: bool, m: Msg)
    requires Counting(mem, info, order, log, stage, rx, at, parsing, taken) && OncePlaced(order, stage)
    requires |log| > 0 && stage[|log| - 1].Live? && (rx < |log| ==> at <= |log[rx]|)
    ensures var k := |log| - 1;
      Counting(mem[order[k] := Written(mem[order[k]], End(log[k]), m)], info, order, Append(log, m), stage, rx, at, parsing, taken)
  {
    hide Claims, Written, Append, HandedOut;
    var k := |log| - 1;
    var s := mem[order[k]];
    forall x | x in s && s[x].claimed ensures x < End(log[k]) {
      ClaimIn(mem, info, order, log, stage, rx, at, parsing, taken, k, x);
      HandedOutEnd(log, rx, at, taken, k, x);
    }
    WriteKeepsClaims(s, End(log[k]), m);
    var mem2: seq<Slot> := mem[order[k] := Written(s, End(log[k]), m)];
    forall t, x | 0 <= t < |mem2| && x in mem2[t] && mem2[t][x].claimed
      ensures HasClaimant(order, Append(log, m), stage, rx, at, parsing, taken, t, x)
    {
      var j: nat :| Claimant(order, log, stage, rx, at, parsing, taken, t, x, j);
      HandedOutAppend(log, rx, at, taken, j, x, m);
      assert Claimant(order, Append(log, m), stage, rx, at, parsing, taken, t, x, j);
    }
    forall j | 0 <= j < |log| ensures Claims(mem2[order[j]]) == Claims(mem[order[j]]) {
    }
  }

  lemma HandedOutEnd(log: seq<seq<Msg>>, rx: nat, at: nat, taken: bool, k: nat, x: int)
    requires HandedOut(log, rx, at, taken, k, x)
    ensures k < |log| && x < End(log[k])
  {
  }

  lemma CountingTake(mem: seq<Slot>, info: seq<Info>, order: seq<nat>, log: seq<seq<Msg>>, stage: seq<Stage>,
                     rx: nat, at: nat, parsing: bool, taken: bool)
    requires Counting(mem, info, order, log, stage, rx, at, parsing, taken)
    requires |log| < |order| && order[|log|] < |mem| && rx <= |log| && (parsing ==> rx < |log|)
    ensures Counting(mem, info, order, log + [[]], stage + [Live], rx, at, parsing, taken)
  {
    hide Claims;
    forall s, x | 0 <= s < |mem| && x in mem[s] && mem[s][x].claimed
      ensures HasClaimant(order, log + [[]], stage + [Live], rx, at, parsing, taken, s, x)
    {
      var k: nat :| Claimant(order, log, stage, rx, at, parsing, taken, s, x, k);
      assert Claimant(order, log + [[]], stage + [Live], rx, at, parsing, taken, s, x, k);
    }
    assert forall k: nat {:trigger Opened(stage, rx, parsing, k)} :: Opened(stage + [Live], rx, parsing, k) <==> Opened(stage, rx, parsing, k);
  }

  // ---------------------------------------------------------------- the receiver's steps

  /** Opening a slot: none of its headers is claimed, and its counters start anew. */
  lemma CountingOpen(mem: seq<Slot>, info: seq<Info>, order: seq<nat>, log: seq<seq<Msg>>, stage: seq<Stage>, rx: nat)
    requires Counting(mem, info, order, log, stage, rx, 0, false, false) && OncePlaced(order, stage)
    requires rx < |stage| && stage[rx].Live?
    ensures Counting(mem, info[order[rx] := Info(1, 0)], order, log, stage, rx, 0, true, false)
  {
    hide Claims;
    forall x | x in mem[order[rx]] ensures !mem[order[rx]][x].claimed {
      if mem[order[rx]][x].claimed {
        ClaimIn(mem, info, order, log, stage, rx, 0, false, false, rx, x);
      }
    }
    NoneClaimed(mem[order[rx]]);
    forall s, x | 0 <= s < |mem| && x in mem[s] && mem[s][x].claimed
      ensures HasClaimant(order, log, stage, rx, 0, true, false, s, x)
    {
      var k: nat :| Claimant(order, log, stage, rx, 0, false, false, s, x, k);
      assert Claimant(order, log, stage, rx, 0, true, false, s, x, k);
    }
    var info2 := info[order[rx] := Info(1, 0)];
    forall k: nat | Opened(stage, rx, true, k)
      ensures info2[order[k]].useCount - info2[order[k]].releaseCount == Claims(mem[order[k]]) + (if k == rx then 1 else 0)
      ensures k < rx ==> Claims(mem[order[k]]) > 0
    {
      if k != rx {
        assert Opened(stage, rx, false, k);
        if order[k] == order[rx] {
          LiveApart(order, stage, k, rx);
        }
      }
    }
  }

  lemma CountingClaim(mem: seq<Slot>, info: seq<Info>, order: seq<nat>, log: seq<seq<Msg>>, stage: seq<Stage>, rx: nat, at: nat)
    requires Counting(mem, info, order, log, stage, rx, at, true, false) && OncePlaced(order, stage)
    requires rx < |stage| && stage[rx].Live? && at < |log[rx]| && Offset(log[rx], at) in mem[order[rx]]
    ensures var s := order[rx]; var x := Offset(log[rx], at);
      && !mem[s][x].claimed
      && Counting(mem[s := mem[s][x := mem[s][x].(claimed := true)]], info[s := info[s].(useCount := info[s].useCount + 1)],
                  order, log, stage, rx, at, true, true)
  {
    hide Claims, Offset;
    var s := order[rx];
    var x := Offset(log[rx], at);
    OffsetBound(log[rx], at);
    if mem[s][x].claimed {
      ClaimIn(mem, info, order, log, stage, rx, at, true, false, rx, x);
    }
    ClaimOne(mem[s], x);
    var mem2: seq<Slot> := mem[s := mem[s][x := mem[s][x].(claimed := true)]];
    forall t, y | 0 <= t < |mem2| && y in mem2[t] && mem2[t][y].claimed
      ensures HasClaimant(order, log, stage, rx, at, true, true, t, y)
    {
      if t == s && y == x {
        assert Claimant(order, log, stage, rx, at, true, true, t, y, rx);
      } else {
        var k: nat :| Claimant(order, log, stage, rx, at, true, false, t, y, k);
        assert Claimant(order, log, stage, rx, at, true, true, t, y, k);
      }
    }
    forall k: nat | Opened(stage, rx, true, k) && k != rx ensures order[k] != s {
      if order[k] == s {
        LiveApart(order, stage, k, rx);
      }
    }
  }

  lemma CountingAdvance(mem: seq<Slot>, info: seq<Info>, order: seq<nat>, log: seq<seq<Msg>>, stage: seq<Stage>, rx: nat, at: nat, taken: bool)
    requires Counting(mem, info, order, log, stage, rx, at, true, taken)
    requires rx < |stage| && at < |log[rx]|
    ensures Counting(mem, info, order, log, stage, rx, at + 1, true, false)
  {
    hide Claims, Offset;
    OffsetLess(log[rx], at, at + 1);
    forall s, x | 0 <= s < |mem| && x in mem[s] && mem[s][x].claimed
      ensures HasClaimant(order, log, stage, rx, at + 1, true, false, s, x)
    {
      var k: nat :| Claimant(order, log, stage, rx, at, true, taken, s, x, k);
      assert Claimant(order, log, stage, rx, at + 1, true, false, s, x, k);
    }
  }

  // ---------------------------------------------------------------- letting go

  /** What remains after a release that is not the last: the counters keep their distance. */
  lemma CountingRelease(mem: seq<Slot>, info: seq<Info>, order: seq<nat>, log: seq<seq<Msg>>, stage: seq<Stage>,
                        rx: nat, at: nat, parsing: bool, taken: bool, s: nat, x: int) returns (k: nat)
    requires Counting(mem, info, order, log, stage, rx, at, parsing, taken) && OncePlaced(order, stage)
    requires s < |mem| && x in mem[s] && mem[s][x].claimed
    ensures k < |stage| && stage[k].Live? && order[k] == s && Opened(stage, rx, parsing, k)
    ensures var mem2: seq<Slot> := mem[s := mem[s][x := mem[s][x].(claimed := false)]];
      var info2 := info[s := Info(info[s].useCount, info[s].releaseCount + 1)];
      if info2[s].useCount == info2[s].releaseCount then
        k < rx && Counting(mem2, info2, order + [s], log, stage[k := Waiting], rx, at, parsing, taken)
      else Counting(mem2, info2, order, log, stage, rx, at, parsing, taken)
  {
    hide Claims, HandedOut;
    k :| Claimant(order, log, stage, rx, at, parsing, taken, s, x, k);
    ReleaseOne(mem[s], x);
    var mem2: seq<Slot> := mem[s := mem[s][x := mem[s][x].(claimed := false)]];
    var info2 := info[s := Info(info[s].useCount, info[s].releaseCount + 1)];
    NoneClaimed(mem2[s]);
    forall j: nat | Opened(stage, rx, parsing, j) && j != k ensures order[j] != s {
      if order[j] == s {
        LiveApart(order, stage, j, k);
      }
    }
    if info2[s].useCount == info2[s].releaseCount {
      CountingLast(mem2, info2, order, log, stage, rx, at, parsing, taken, k);
    } else {
      forall t, y | 0 <= t < |mem2| && y in mem2[t] && mem2[t][y].claimed
        ensures HasClaimant(order, log, stage, rx, at, parsing, taken, t, y)
      {
        assert y in mem[t] && mem[t][y].claimed;
      }
    }
  }

  /** With no claim left in slot number k, it may go back. */
  lemma CountingLast(mem: seq<Slot>, info: seq<Info>, order: seq<nat>, log: seq<seq<Msg>>, stage: seq<Stage>,
                     rx: nat, at: nat, parsing: bool, taken: bool, k: nat)
    requires |mem| == |info| && |log| == |stage| <= |order| && forall j :: 0 <= j < |log| ==> order[j] < |mem|
    requires k < |stage| && Claims(mem[order[k]]) == 0
    requires forall t, y :: 0 <= t < |mem| && y in mem[t] && mem[t][y].claimed ==>
      HasClaimant(order, log, stage, rx, at, parsing, taken, t, y)
    requires forall j: nat :: Opened(stage, rx, parsing, j) && j != k ==>
      && info[order[j]].useCount - info[order[j]].releaseCount == Claims(mem[order[j]]) + (if j == rx then 1 else 0)
      && (j < rx ==> Claims(mem[order[j]]) > 0)
    ensures Counting(mem, info, order + [order[k]], log, stage[k := Waiting], rx, at, parsing, taken)
  {
    hide Claims, HandedOut;
    NoneClaimed(mem[order[k]]);
    forall t, y | 0 <= t < |mem| && y in mem[t] && mem[t][y].claimed
      ensures HasClaimant(order + [order[k]], log, stage[k := Waiting], rx, at, parsing, taken, t, y)
    {
      var j: nat :| Claimant(order, log, stage, rx, at, parsing, taken, t, y, j);
      assert Claimant(order + [order[k]], log, stage[k := Waiting], rx, at, parsing, taken, t, y, j);
    }
    assert forall j: nat {:trigger Opened(stage[k := Waiting], rx, parsing, j)} ::
      Opened(stage[k := Waiting], rx, parsing, j) <==> Opened(stage, rx, parsing, j) && j != k;
  }

  /** The end of a slot: the receiver drops its own hold. */
  lemma CountingFinish(mem: seq<Slot>, info: seq<Info>, order: seq<nat>, log: seq<seq<Msg>>, stage: seq<Stage>, rx: nat, at: nat)
    requires Counting(mem, info, order, log, stage, rx, at, true, false) && OncePlaced(order, stage)
    requires rx < |stage| && stage[rx].Live?
    ensures var s := order[rx];
      var info2 := info[s := Info(info[s].useCount, info[s].releaseCount + 1)];
      if info2[s].useCount == info2[s].releaseCount then
        Counting(mem, info2, order + [s], log, stage[rx := Waiting], rx + 1, 0, false, false)
      else Counting(mem, info2, order, log, stage, rx + 1, 0, false, false)
  {
    hide Claims, Offset, OncePlaced;
    var s := order[rx];
    var info2 := info[s := Info(info[s].useCount, info[s].releaseCount + 1)];
    assert Opened(stage, rx, true, rx);
    forall j: nat | Opened(stage, rx + 1, false, j) && j != rx ensures Opened(stage, rx, true, j) && order[j] != s {
      if order[j] == s {
        LiveApart(order, stage, j, rx);
      }
    }
    forall t, y | 0 <= t < |mem| && y in mem[t] && mem[t][y].claimed
      ensures HasClaimant(order, log, stage, rx + 1, 0, false, false, t, y)
    {
      var j: nat :| Claimant(order, log, stage, rx, at, true, false, t, y, j);
      assert Claimant(order, log, stage, rx + 1, 0, false, false, t, y, j);
    }
    if info2[s].useCount == info2[s].releaseCount {
      CountingLast(mem, info2, order, log, stage, rx + 1, 0, false, false, rx);
    }
  }
}
