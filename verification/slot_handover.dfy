/** Which messages are claimed: those a parsing thread hands to clients, and no others. */
module SlotHandover {
  import opened Basics
  import opened SlotMachine
  import opened SlotHistory
  import opened SlotLedger
  import opened SlotRuns
  import opened SlotSteps
  import opened SlotExact

  /** The DATA messages whose service is open, in order. */
  function Openings(msgs: seq<Msg>, open: Msg -> bool): (r: seq<Msg>) {
    if |msgs| == 0 then []
    else
      var m := msgs[|msgs| - 1];
      Openings(msgs[..|msgs| - 1], open) + if m.Data? && open(m) then [m] else []
  }

  lemma OpeningsMore(msgs: seq<Msg>, m: Msg, open: Msg -> bool)
    ensures Openings(msgs + [m], open) == Openings(msgs, open) + if m.Data? && open(m) then [m] else []
  {
    assert (msgs + [m])[..|msgs|] == msgs;
  }

  /** Message j of slot number k comes at or behind the place (rx0, at0) and before (rx, at). */
  predicate Between(rx0: nat, at0: nat, k: nat, j: nat, rx: nat, at: nat) {
    (rx0 < k || (rx0 == k && at0 <= j)) && (k < rx || (k == rx && j < at))
  }

  /** The header of message j of slot number k is there, and claimed exactly when it should be. */
  ghost predicate ClaimedRight(mem: seq<Slot>, order: seq<nat>, log: seq<seq<Msg>>, stage: seq<Stage>, k: nat, j: nat, open: Msg -> bool)
    requires k < |log| && j < |log[k]|
  {
    && k < |order| && order[k] < |mem| && k < |stage| && !stage[k].Done?
    && Offset(log[k], j) in mem[order[k]]
    && mem[order[k]][Offset(log[k], j)].msg == log[k][j]
    && (mem[order[k]][Offset(log[k], j)].claimed <==> log[k][j].Data? && open(log[k][j]))
  }

  /** Of the messages parsed since (rx0, at0), exactly the DATA of open services is claimed. */
  ghost predicate Handed(mem: seq<Slot>, order: seq<nat>, log: seq<seq<Msg>>, stage: seq<Stage>,
                         rx0: nat, at0: nat, rx: nat, at: nat, open: Msg -> bool) {
    forall k: nat, j: nat :: k < |log| && j < |log[k]| && Between(rx0, at0, k, j, rx, at) ==>
      ClaimedRight(mem, order, log, stage, k, j, open)
  }

  lemma NothingHanded(s: State, open: Msg -> bool)
    ensures Handed(s.m.mem, s.h.order, s.h.log, s.h.stage, s.h.rx, s.h.at, s.h.rx, s.h.at, open)
  {
  }

  /** A header that was not parsed yet is not claimed. */
  lemma NotYetClaimed(s: State)
    requires Sound(s) && s.m.parser.Header? && ReceiveSafe(s.m)
    ensures !HeaderAt(s.m).claimed
  {
    hide Contents, Scans, Delivered, RingHolds, Layout, MarkOk, OncePlaced, Offset, WithinQuotas, Filled, Sending, Stride, Claims;
    HeaderRead(s);
    LiveHere(s);
    var c, x := s.h.order[s.h.rx], s.m.rxPos % SLOT_SIZE;
    if HeaderAt(s.m).claimed {
      assert HasClaimant(s.h.order, s.h.log, s.h.stage, s.h.rx, s.h.at, s.m.rxSlot.Some?, s.m.parser.Claimed?, c, x);
      var k: nat :| Claimant(s.h.order, s.h.log, s.h.stage, s.h.rx, s.h.at, s.m.rxSlot.Some?, s.m.parser.Claimed?, c, x, k);
      if k != s.h.rx {
        HeldApart(|s.m.info|, s.m.available, s.h.order, s.h.stage, s.h.released, k, s.h.rx);
      }
    }
  }

  /** The memory after the parser's header was claimed, or left alone. */
  function WithClaim(m: Machine, claim: bool): (mem: seq<Slot>)
    requires m.rxSlot.Some? && m.rxSlot.value < |m.mem| && m.rxPos % SLOT_SIZE in m.mem[m.rxSlot.value]
  {
    if claim then m.mem[m.rxSlot.value := m.mem[m.rxSlot.value][m.rxPos % SLOT_SIZE := HeaderAt(m).(claimed := true)]]
    else m.mem
  }

  /** Parsing one more message, claimed exactly when it is DATA of an open service. */
  lemma HandsNext(s: State, rx0: nat, at0: nat, open: Msg -> bool)
    requires Sound(s) && s.m.parser.Header? && ReceiveSafe(s.m)
    requires Handed(s.m.mem, s.h.order, s.h.log, s.h.stage, rx0, at0, s.h.rx, s.h.at, open)
    ensures var msg := HeaderAt(s.m).msg;
      Handed(WithClaim(s.m, msg.Data? && open(msg)), s.h.order, s.h.log, s.h.stage, rx0, at0, s.h.rx, s.h.at + 1, open)
  {
    hide Sound, Offset, Stride;
    HeaderRead(s);
    LiveHere(s);
    NotYetClaimed(s);
    var msg := HeaderAt(s.m).msg;
    var mem := WithClaim(s.m, msg.Data? && open(msg));
    var log := s.h.log;
    forall k: nat, j: nat | k < |log| && j < |log[k]| && Between(rx0, at0, k, j, s.h.rx, s.h.at + 1)
      ensures ClaimedRight(mem, s.h.order, log, s.h.stage, k, j, open)
    {
      if k == s.h.rx && j == s.h.at {
      } else {
        assert Between(rx0, at0, k, j, s.h.rx, s.h.at);
        assert ClaimedRight(s.m.mem, s.h.order, log, s.h.stage, k, j, open);
        OtherPlace(s, k, j);
      }
    }
  }

  /** A message parsed before has its header at another place. */
  lemma OtherPlace(s: State, k: nat, j: nat)
    requires Sound(s) && s.m.parser.Header? && s.h.rx < |s.h.log| && s.h.at < |s.h.log[s.h.rx]| && s.h.rx < |s.h.order|
    requires k < |s.h.log| && j < |s.h.log[k]| && k < |s.h.order| && k < |s.h.stage| && !s.h.stage[k].Done?
    requires k < s.h.rx || (k == s.h.rx && j < s.h.at)
    ensures s.h.order[k] != s.h.order[s.h.rx] || Offset(s.h.log[k], j) < Offset(s.h.log[s.h.rx], s.h.at)
  {
    hide Contents, Counting, Scans, Delivered, RingHolds, Layout, MarkOk, OncePlaced, Offset, WithinQuotas, Filled, Sending;
    if k == s.h.rx {
      OffsetLess(s.h.log[k], j, s.h.at);
    } else {
      LiveHere(s);
      HeldApart(|s.m.info|, s.m.available, s.h.order, s.h.stage, s.h.released, k, s.h.rx);
    }
  }

  /** From s to t no header was touched, and a slot given back is not rescanned yet; the parser
      stands before the same message, or at the start of the next slot number. */
  ghost predicate Quiet(s: State, t: State) {
    && t.m.mem == s.m.mem && t.h.log == s.h.log && s.h.order <= t.h.order && |t.h.stage| == |s.h.stage|
    && (forall k :: 0 <= k < |s.h.stage| && !s.h.stage[k].Done? ==> !t.h.stage[k].Done?)
    && ((t.h.rx == s.h.rx && t.h.at == s.h.at)
        || (t.h.rx == s.h.rx + 1 && t.h.at == 0 && s.h.rx < |s.h.log| && s.h.at == |s.h.log[s.h.rx]|))
    && t.h.parsed == s.h.parsed
  }

  lemma HandsOn(s: State, t: State, rx0: nat, at0: nat, open: Msg -> bool)
    requires Handed(s.m.mem, s.h.order, s.h.log, s.h.stage, rx0, at0, s.h.rx, s.h.at, open) && Quiet(s, t)
    ensures Handed(t.m.mem, t.h.order, t.h.log, t.h.stage, rx0, at0, t.h.rx, t.h.at, open)
  {
    hide Offset;
    forall k: nat, j: nat | k < |t.h.log| && j < |t.h.log[k]| && Between(rx0, at0, k, j, t.h.rx, t.h.at)
      ensures ClaimedRight(t.m.mem, t.h.order, t.h.log, t.h.stage, k, j, open)
    {
      assert Between(rx0, at0, k, j, s.h.rx, s.h.at);
      assert ClaimedRight(s.m.mem, s.h.order, s.h.log, s.h.stage, k, j, open);
    }
  }

  /** At the end of a slot, and in the middle of one, the parser goes on quietly. */
  lemma EndsQuietly(s: State)
    requires Sound(s) && s.m.parser.Advanced? && Guard(s.m, DoReceive(false)) && Safe(s.m, DoReceive(false))
    ensures Quiet(s, Step(s, DoReceive(false)))
  {
    hide Sound, GiveBack, Stride, Quiet;
    if s.m.rxPos % SLOT_SIZE == 0 {
      SlotEnd(s);
      LiveHere(s);
      GiveBackReads(s, s.h.rx);
      SlotEndsQuietly(s);
    } else {
      MidSlotQuietly(s);
    }
  }

  lemma MidSlotQuietly(s: State)
    requires s.m.parser.Advanced? && Guard(s.m, DoReceive(false)) && Safe(s.m, DoReceive(false)) && s.m.rxPos % SLOT_SIZE != 0
    ensures Quiet(s, Step(s, DoReceive(false)))
  {
    hide Offset, Stride, GiveBack;
  }

  lemma SlotEndsQuietly(s: State)
    requires s.m.parser.Advanced? && Guard(s.m, DoReceive(false)) && Safe(s.m, DoReceive(false)) && s.m.rxPos % SLOT_SIZE == 0
    requires s.h.rx < |s.h.order| && s.m.rxSlot == Some(s.h.order[s.h.rx]) && s.h.rx < |s.h.log| && s.h.at == |s.h.log[s.h.rx]|
    requires s.h.rx < |s.h.stage|
    requires GiveBack(s.h, s.h.order[s.h.rx]) ==
      s.h.(stage := s.h.stage[s.h.rx := Waiting], order := s.h.order + [s.h.order[s.h.rx]], released := s.h.released + [s.h.rx])
    ensures Quiet(s, Step(s, DoReceive(false)))
  {
    hide Offset, Stride, GiveBack;
  }
}
