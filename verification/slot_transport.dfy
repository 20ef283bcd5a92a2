/** What holds on every run of the slot transport. */
module SlotTransport {
  import opened Basics
  import opened SlotMachine
  import opened SlotHistory
  import opened SlotLedger
  import opened SlotClaims
  import opened SlotAccounts
  import opened SlotRuns
  import opened SlotSteps
  import opened SlotExact

  // ---------------------------------------------------------------- runs

  /** The state after these steps of any threads in any order; None when some step could not
      be taken. */
  function Run(s: State, acts: seq<Action>): (r: Option<State>) {
    if |acts| == 0 then Some(s)
    else
      var r := Run(s, acts[..|acts| - 1]);
      var a := acts[|acts| - 1];
      if r.Some? && Guard(r.value.m, a) && Safe(r.value.m, a) then Some(Step(r.value, a)) else None
  }

  ghost predicate Reachable(s: State) {
    exists n: nat, messageQuota: nat, slotQuota: nat, acts :: Reaches(n, messageQuota, slotQuota, acts, s)
  }

  ghost predicate Reaches(n: nat, messageQuota: nat, slotQuota: nat, acts: seq<Action>, s: State) {
    1 <= n <= RING && Run(Start(n, messageQuota, slotQuota), acts) == Some(s)
  }

  lemma StartSound(n: nat, messageQuota: nat, slotQuota: nat)
    requires 1 <= n <= RING
    ensures Sound(Start(n, messageQuota, slotQuota))
  {
  }

  lemma {:induction false} RunSound(s: State, acts: seq<Action>)
    requires Sound(s)
    ensures Run(s, acts).Some? ==> Sound(Run(s, acts).value)
  {
    hide Sound, Guard, Safe, Step;
    if |acts| > 0 {
      RunSound(s, acts[..|acts| - 1]);
      var r := Run(s, acts[..|acts| - 1]);
      if r.Some? && Guard(r.value.m, acts[|acts| - 1]) {
        EveryStepKeeps(r.value, acts[|acts| - 1]);
      }
    }
  }

  /** Every reachable state is sound. */
  lemma ReachableSound(s: State)
    requires Reachable(s)
    ensures Sound(s)
  {
    hide Sound, Start, Run;
    var n: nat, messageQuota: nat, slotQuota: nat, acts :| Reaches(n, messageQuota, slotQuota, acts, s);
    StartSound(n, messageQuota, slotQuota);
    RunSound(Start(n, messageQuota, slotQuota), acts);
  }

  // ---------------------------------------------------------------- the code's own assertions

  /** On every run, whatever thread moves next, the assertions of its code hold: a slot is only
      taken while the queue of available slots is not empty, padding always has room for a header,
      every header read is there and fits its slot, and a rescan ends exactly at the slot's end. */
  lemma AssertionsHold(s: State, a: Action)
    requires Reachable(s) && Guard(s.m, a)
    ensures Safe(s.m, a)
    ensures Reachable(Step(s, a))
  {
    hide Sound, Start, Run, Safe, Guard, Step;
    ReachableSound(s);
    EveryStepKeeps(s, a);
    var n: nat, messageQuota: nat, slotQuota: nat, acts :| Reaches(n, messageQuota, slotQuota, acts, s);
    RunMore(Start(n, messageQuota, slotQuota), acts, s, a);
    assert Reaches(n, messageQuota, slotQuota, acts + [a], Step(s, a));
  }

  lemma RunMore(start: State, acts: seq<Action>, s: State, a: Action)
    requires Run(start, acts) == Some(s) && Guard(s.m, a) && Safe(s.m, a)
    ensures Run(start, acts + [a]) == Some(Step(s, a))
  {
    assert (acts + [a])[..|acts|] == acts;
  }

  // ---------------------------------------------------------------- no overwrite

  /** No step of any thread disturbs a message in a slot that is in use or waits for its rescan. */
  lemma MessagesSurvive(s: State, a: Action, k: nat, j: nat)
    requires Reachable(s) && Guard(s.m, a) && Safe(s.m, a)
    requires k < |s.h.log| && k < |s.h.stage| && !s.h.stage[k].Done? && j < |s.h.log[k]|
    ensures k < |Step(s, a).h.stage| && k < |s.h.order| && s.h.order[k] < |s.m.mem| == |Step(s, a).m.mem|
    ensures var x := Offset(s.h.log[k], j);
      var before := s.m.mem[s.h.order[k]];
      var after := Step(s, a).m.mem[s.h.order[k]];
      x in before && before[x].msg == s.h.log[k][j] && ((x in after && after[x].msg == s.h.log[k][j]) || Step(s, a).h.stage[k].Done?)
  {
    hide Counting, Scans, Delivered, Places, RingHolds, Receiving, MarkOk, Sending, WithinQuotas, Layout, Safe, Guard, Step, Offset;
    ReachableSound(s);
    EveryStepKeeps(s, a);
    var t := Step(s, a);
    LogGrows(s, a);
    assert Holds(s.m.mem[s.h.order[k]], s.h.log[k]);
    if !t.h.stage[k].Done? {
      assert Holds(t.m.mem[t.h.order[k]], t.h.log[k]);
      OffsetStable(s.h.log[k], t.h.log[k], j);
    }
  }

  /** Histories only grow. */
  lemma LogGrows(s: State, a: Action)
    requires Sound(s) && Guard(s.m, a) && Safe(s.m, a)
    ensures var h := Step(s, a).h;
      && |s.h.log| == |s.h.stage| <= |h.log| == |h.stage| && s.h.order <= h.order && |Step(s, a).m.mem| == |s.m.mem|
      && (forall k :: 0 <= k < |s.h.log| ==> s.h.log[k] <= h.log[k])
  {
    hide Contents, Counting, Scans, Delivered, Places, RingHolds, MarkOk, Sending, WithinQuotas, Layout, Written, Scan, Stride,
      SendSafe, RecycleSafe, Counted, Receiving, Sound, Do, Guard, Safe, Record;
    SlotsKept(s.m, a);
    LogStages(s);
    RecordGrows(s.h, s.m, a);
  }

  lemma LogStages(s: State)
    requires Sound(s)
    ensures |s.h.log| == |s.h.stage|
  {
    hide Contents, Counting, Scans, Delivered, Places, RingHolds, MarkOk, Sending, WithinQuotas, Layout;
  }

  lemma RecordGrows(h: History, m: Machine, a: Action)
    requires Guard(m, a) && Safe(m, a) && |h.log| == |h.stage|
    ensures var t := Record(h, m, a);
      |h.log| <= |t.log| == |t.stage| && h.order <= t.order && forall k :: 0 <= k < |h.log| ==> h.log[k] <= t.log[k]
  {
    hide Written, Scan, Stride, Counted;
  }

  lemma SlotsKept(m: Machine, a: Action)
    requires Guard(m, a) && Safe(m, a)
    ensures |Do(m, a).mem| == |m.mem|
  {
    hide Written, Stride, Counted, RecycleSafe, Scan, Space;
    if a.DoRecycle? && m.rc.Scanning? && m.rc.pos < SLOT_SIZE {
      ScanTouches(m);
    }
  }

  /** The slot the sender takes is used by no slot number still in use or waiting, and no header
      in it is claimed. */
  lemma TakenSlotIsFree(s: State, k: nat)
    requires Reachable(s) && SendGuard(s.m) && s.m.sem > 0 && (s.m.tx.Seeking? || s.m.tx.Blocked?)
    requires k < |s.h.stage| && !s.h.stage[k].Done?
    ensures SendSafe(s.m) && k < |s.h.order| && Send(s.m).txSlot != s.h.order[k]
    ensures Send(s.m).txSlot < |s.m.mem| && Claims(s.m.mem[Send(s.m).txSlot]) == 0
  {
    hide Contents, Scans, Delivered, RingHolds, MarkOk, Sending, WithinQuotas, Layout, Step, Receiving, Counting, Claims, OncePlaced, Stride;
    ReachableSound(s);
    TakeSending(s, s.m.tx.pos);
    TakeHistory(s);
    ReceiverBehind(s);
    HeldApart(|s.m.info|, s.m.available, s.h.order, s.h.stage + [Live], s.h.released, k, |s.h.stage|);
    TakenUnclaimed(s, s.m.tx.pos);
  }

  lemma ClaimApart(s: State, c: nat, x: int, k: nat)
    requires Sound(s) && |s.h.log| < |s.h.order|
    requires Claimant(s.h.order, s.h.log, s.h.stage, s.h.rx, s.h.at, s.m.rxSlot.Some?, s.m.parser.Claimed?, c, x, k)
    ensures c != s.h.order[|s.h.log|]
  {
    hide Contents, Counting, Scans, Delivered, RingHolds, MarkOk, Sending, WithinQuotas, Layout, HandedOut;
    assert Owned(s.h.stage, k) && Owned(s.h.stage, |s.h.log|);
  }

  lemma TakenUnclaimed(s: State, pos: nat)
    requires Sound(s) && |s.h.log| < s.m.available
    ensures |s.h.log| < |s.h.order| && s.h.order[|s.h.log|] < |s.m.mem| && Claims(s.m.mem[s.h.order[|s.h.log|]]) == 0
  {
    hide Contents, Scans, Delivered, RingHolds, MarkOk, Sending, WithinQuotas, Layout, Step, Receiving, Claims, HandedOut;
    var c := s.h.order[|s.h.log|];
    forall x | x in s.m.mem[c] ensures !s.m.mem[c][x].claimed {
      if s.m.mem[c][x].claimed {
        assert HasClaimant(s.h.order, s.h.log, s.h.stage, s.h.rx, s.h.at, s.m.rxSlot.Some?, s.m.parser.Claimed?, c, x);
        var k: nat :| Claimant(s.h.order, s.h.log, s.h.stage, s.h.rx, s.h.at, s.m.rxSlot.Some?, s.m.parser.Claimed?, c, x, k);
        ClaimApart(s, c, x, k);
      }
    }
    NoneClaimed(s.m.mem[c]);
  }

  // ---------------------------------------------------------------- conservation of slots

  /** Ring positions that stand for a slot: still to be filled, or filled and live. */
  ghost function Held(s: State): (p: set<nat>) {
    set i | 0 <= i < |s.h.order| && Owned(s.h.stage, i)
  }

  lemma {:induction false} CountHeld(order: seq<nat>, stage: seq<Stage>, m: nat)
    requires m <= |order| && m <= |stage|
    ensures |set i: nat | i < m && Owned(stage, i)| == m - CountBack(stage[..m])
  {
    var p := set i: nat | i < m && Owned(stage, i);
    if m > 0 {
      CountHeld(order, stage, m - 1);
      var q := set i: nat | i < m - 1 && Owned(stage, i);
      assert stage[..m][..m - 1] == stage[..m - 1];
      assert p == if stage[m - 1].Live? then q + {m - 1} else q;
    }
  }

  ghost function Placed(p: set<nat>, order: seq<nat>): (c: set<nat>)
    requires forall i :: i in p ==> i < |order|
  {
    set i | i in p :: order[i]
  }

  ghost function Range(lo: nat, hi: nat): (c: set<nat>)
    requires lo <= hi
    ensures |c| == hi - lo && forall x: nat :: x in c <==> lo <= x < hi
  {
    if lo == hi then {} else Range(lo, hi - 1) + {hi - 1}
  }

  lemma {:induction false} PlacedSize(p: set<nat>, order: seq<nat>)
    requires forall i :: i in p ==> i < |order|
    requires forall i, j :: i in p && j in p && order[i] == order[j] ==> i == j
    ensures |Placed(p, order)| == |p|
  {
    if p != {} {
      var x :| x in p;
      PlacedSize(p - {x}, order);
      assert Placed(p, order) == Placed(p - {x}, order) + {order[x]};
    }
  }

  lemma SubsetFull(a: set<nat>, b: set<nat>)
    requires a <= b && |a| == |b|
    ensures a == b
  {
    assert b == a + (b - a);
  }

  /** Distinct slot indices below n, n of them, are all of them. */
  lemma Pigeonhole(p: set<nat>, order: seq<nat>, n: nat, c: nat) returns (i: nat)
    requires |p| == n && c < n && forall i :: i in p ==> i < |order| && order[i] < n
    requires forall i, j :: i in p && j in p && order[i] == order[j] ==> i == j
    ensures i in p && order[i] == c
  {
    PlacedSize(p, order);
    SubsetFull(Placed(p, order), Range(0, n));
    assert c in Placed(p, order);
    i :| i in p && order[i] == c;
  }

  /** Every slot is in exactly one place: at one ring position still to be filled, or behind one
      slot number that is being filled, in flight, or held. */
  lemma SlotsConserved(s: State, c: nat) returns (i: nat)
    requires Reachable(s) && c < |s.m.mem|
    ensures i in Held(s) && s.h.order[i] == c
    ensures forall j :: j in Held(s) && s.h.order[j] == c ==> j == i
  {
    hide Contents, Counting, Scans, Delivered, RingHolds, MarkOk, Sending, WithinQuotas, Layout, Receiving;
    ReachableSound(s);
    HeldSize(s);
    HeldDiffer(s);
    i := Pigeonhole(Held(s), s.h.order, |s.m.mem|, c);
  }

  lemma HeldDiffer(s: State)
    requires Sound(s)
    ensures forall i :: i in Held(s) ==> i < |s.h.order| && s.h.order[i] < |s.m.mem|
    ensures forall i, j :: i in Held(s) && j in Held(s) && s.h.order[i] == s.h.order[j] ==> i == j
  {
    hide Contents, Counting, Scans, Delivered, RingHolds, MarkOk, Sending, WithinQuotas, Layout, Receiving;
  }

  lemma HeldSize(s: State)
    requires Sound(s)
    ensures |Held(s)| == |s.m.mem|
  {
    hide Contents, Counting, Scans, Delivered, RingHolds, MarkOk, Sending, WithinQuotas, Layout, Receiving, OncePlaced;
    var l := |s.h.stage|;
    CountHeld(s.h.order, s.h.stage, l);
    assert s.h.stage[..l] == s.h.stage;
    var low := set i: nat | i < l && Owned(s.h.stage, i);
    assert Held(s) == low + Range(l, |s.h.order|);
  }

  /** Free slots, slots on their way back into the count of free slots, and slots in use add up
      to all slots. */
  lemma NothingLost(s: State)
    requires Reachable(s)
    ensures s.m.sem + (if s.m.rc.Raised? then 1 else 0) + (|s.h.stage| - CountDone(s.h.stage)) == |s.m.mem|
  {
    hide Contents, Counting, Scans, Delivered, RingHolds, MarkOk, WithinQuotas, Layout, OncePlaced;
    ReachableSound(s);
  }

  /** The ring window: entries not yet read by the receiver, the sender or the recycle thread
      have not been overwritten, even when slots come back out of order. */
  lemma RingWindow(s: State, i: nat)
    requires Reachable(s) && s.h.rx <= i < s.m.recycle
    ensures s.h.rx <= |s.h.log| <= s.m.available <= s.m.recycle <= s.h.rx + RING
    ensures |s.m.ring| == RING && i < |s.h.order| && s.m.ring[i % RING] == s.h.order[i]
  {
    hide Contents, Counting, Scans, Delivered, MarkOk, WithinQuotas, Layout, OncePlaced, Sending;
    ReachableSound(s);
    ReceiverBehind(s);
    RingReads(|s.m.info|, s.m.available, s.h.order, s.h.stage, s.h.released, s.m.ring, s.h.rx);
  }

  // ---------------------------------------------------------------- delivery

  lemma {:induction false} FlattenPrefix(log: seq<seq<Msg>>, k: nat)
    requires k <= |log|
    ensures Flatten(log[..k]) <= Flatten(log)
    decreases |log|
  {
    if k == |log| {
      assert log[..k] == log;
    } else {
      var n := |log| - 1;
      FlattenPrefix(log[..n], k);
      assert log[..n][..k] == log[..k];
    }
  }

  lemma {:induction false} PayloadPrefix(a: seq<Msg>, b: seq<Msg>)
    requires a <= b
    ensures Payload(a) <= Payload(b)
    decreases |b|
  {
    if |a| == |b| {
      assert a == b;
    } else {
      PayloadPrefix(a, b[..|b| - 1]);
    }
  }

  lemma ParsedPrefix(log: seq<seq<Msg>>, rx: nat, at: nat)
    requires rx < |log| && at <= |log[rx]|
    ensures Flatten(log[..rx]) + log[rx][..at] <= Flatten(log)
  {
    FlattenPrefix(log, rx + 1);
    assert log[..rx + 1] == log[..rx] + [log[rx]];
    FlattenMore(log[..rx], log[rx]);
    assert Flatten(log[..rx]) + log[rx] == (Flatten(log[..rx]) + log[rx][..at]) + log[rx][at..];
  }

  /** First in, first out: the messages the receiver has parsed, padding aside, are a prefix of
      the messages queued, whatever their sizes, stalls and given-up attempts. */
  lemma Fifo(s: State)
    requires Reachable(s)
    ensures Payload(s.h.parsed) <= s.h.sent
  {
    hide Contents, Counting, Scans, MarkOk, WithinQuotas, OncePlaced, Places, RingHolds, Flatten, Payload;
    ReachableSound(s);
    var log := s.h.log;
    if s.m.tx.Stored? {
      UnpublishedLast(s);
    } else {
      if s.h.rx < |log| {
        ParsedPrefix(log, s.h.rx, s.h.at);
      } else {
        assert log[..s.h.rx] == log;
        assert s.h.parsed == Flatten(log);
      }
      PayloadPrefix(s.h.parsed, Flatten(log));
    }
  }

  /** A message stored but not yet published is behind everything the receiver parsed. */
  lemma UnpublishedLast(s: State)
    requires Sound(s) && s.m.tx.Stored?
    ensures Payload(s.h.parsed) <= s.h.sent
  {
    hide Contents, Counting, Scans, MarkOk, WithinQuotas, OncePlaced, Places, RingHolds, Flatten, Payload, Layout;
    var log := s.h.log;
    var n := |log| - 1;
    ReceiverShort(s);
    var last := log[n];
    var less := log[..n] + [last[..|last| - 1]];
    var m := last[|last| - 1];
    assert last == last[..|last| - 1] + [m];
    assert log == log[..n] + [last];
    FlattenLess(log[..n], last[..|last| - 1], m);
    assert less[..s.h.rx] == log[..s.h.rx];
    assert less[s.h.rx][..s.h.at] == log[s.h.rx][..s.h.at];
    ParsedPrefix(less, s.h.rx, s.h.at);
    PayloadPrefix(s.h.parsed, Flatten(less));
    PayloadLast(Flatten(less), m, s.h.sent);
  }

  lemma PayloadLast(a: seq<Msg>, m: Msg, sent: seq<Msg>)
    requires Payload(a + [m]) == sent + [m] && !m.Padding?
    ensures Payload(a) == sent
  {
    PayloadAppend(a, m);
    assert Payload(a) == (sent + [m])[..|sent|];
  }

  /** The receiver has not passed a message that is not published. */
  lemma ReceiverShort(s: State)
    requires Sound(s) && s.m.tx.Stored?
    ensures |s.h.log| > 0 && |s.h.log[|s.h.log| - 1]| > 0 && s.h.rx < |s.h.log|
    ensures s.h.rx == |s.h.log| - 1 ==> s.h.at < |s.h.log[s.h.rx]|
  {
    hide Contents, Counting, Scans, MarkOk, WithinQuotas, OncePlaced, Places, RingHolds, Flatten, Payload, Offset, Stride;
    assert End(s.h.log[|s.h.log| - 1]) <= SLOT_SIZE;
    FilledSpace(s.h.log, s.h.rx);
  }

  // ---------------------------------------------------------------- padding

  /** While no message is in hand the rest of the slot holds a header at least, or nothing is left. */
  lemma LeftoverFitsHeader(s: State)
    requires Reachable(s) && s.m.tx.Idle?
    ensures s.m.localPos % HEADER_SIZE == 0 && Space(s.m.localPos) >= HEADER_SIZE
  {
    hide Contents, Counting, Scans, Delivered, MarkOk, WithinQuotas, OncePlaced, Places, RingHolds, Receiving;
    ReachableSound(s);
    RoomLeft(s.h.log, s.h.rx, s.m.localPos, HEADER_SIZE);
  }

  /** A sender that found no slot has left its position at a slot boundary, and everything before
      it is published; the next attempt, for any message, writes no padding. */
  lemma NeverPadsTwice(s: State, msg: Msg)
    requires Reachable(s) && s.m.tx.Blocked? && Sendable(msg)
    ensures s.m.localPos % SLOT_SIZE == 0 && s.m.txPos == s.m.localPos
    ensures var m := Do(s.m, DoGiveUp).(tx := Admitted(msg));
      SendSafe(m) && Send(m) == m.(tx := Seeking(msg, m.localPos))
  {
    hide Contents, Counting, Scans, Delivered, MarkOk, WithinQuotas, OncePlaced, Places, RingHolds, Receiving, Stride;
    ReachableSound(s);
    StrideFits(msg);
  }

  /** From the quota check to the count, the slot number a message ends in does not change,
      padding and new slots included. */
  lemma PredictedSlotIsUsed(s: State)
    requires Reachable(s) && SendGuard(s.m) && SendSafe(s.m) && !s.m.tx.Reserved? && !s.m.tx.Stored?
    ensures EndNumber(Send(s.m).localPos, Send(s.m).tx) == EndNumber(s.m.localPos, s.m.tx)
  {
    hide Contents, Counting, Scans, Delivered, MarkOk, WithinQuotas, OncePlaced, Places, RingHolds, Receiving, Stride;
    ReachableSound(s);
    StrideFits(s.m.tx.msg);
    if s.m.tx.Admitted? {
      RoomLeft(s.h.log, s.h.rx, s.m.localPos, Stride(s.m.tx.msg));
    }
  }

  // ---------------------------------------------------------------- claims and releases

  /** While the receiver has a slot, its counters differ by the headers clients hold, plus one
      while it is being parsed. A slot parsed to its end is held by at least one header. */
  lemma ClaimsBalance(s: State, k: nat)
    requires Reachable(s) && Opened(s.h.stage, s.h.rx, s.m.rxSlot.Some?, k)
    ensures k < |s.h.order| && s.h.order[k] < |s.m.info| == |s.m.mem|
    ensures var i := s.m.info[s.h.order[k]];
      i.useCount - i.releaseCount == Claims(s.m.mem[s.h.order[k]]) + if k == s.h.rx then 1 else 0
    ensures k < s.h.rx ==> Claims(s.m.mem[s.h.order[k]]) > 0
  {
    hide Contents, Scans, Delivered, MarkOk, WithinQuotas, OncePlaced, Places, RingHolds, Receiving, Stride, Sending, Layout;
    ReachableSound(s);
  }

  /** A slot comes back only when no client holds a header in it. */
  lemma ComesBackUnclaimed(s: State, a: Action, k: nat)
    requires Reachable(s) && Guard(s.m, a) && Safe(s.m, a)
    requires k < |s.h.stage| && s.h.stage[k].Live? && |Step(s, a).h.stage| > k && !Step(s, a).h.stage[k].Live?
    ensures var m := Step(s, a).m; k < |s.h.order| && s.h.order[k] < |m.mem| && Claims(m.mem[s.h.order[k]]) == 0
  {
    hide Contents, Scans, Delivered, MarkOk, WithinQuotas, OncePlaced, RingHolds, Receiving, Stride, Sending, Layout, Step, Safe, Guard, Places,
      Counting, Claims, Claimant;
    ReachableSound(s);
    EveryStepKeeps(s, a);
    LogGrows(s, a);
    NotAtOnce(s, a, k);
    ReceiverBehind(s);
    NotLiveUnclaimed(Step(s, a), k);
  }

  /** A live slot is not rescanned before it came back. */
  lemma NotAtOnce(s: State, a: Action, k: nat)
    requires Sound(s) && Guard(s.m, a) && Safe(s.m, a) && k < |s.h.stage| && s.h.stage[k].Live?
    ensures k < |Step(s, a).h.stage| && !Step(s, a).h.stage[k].Done?
  {
    hide Contents, Counting, Scans, Delivered, Places, RingHolds, MarkOk, Sending, WithinQuotas, Layout, Written, Scan, Stride,
      SendSafe, RecycleSafe, Counted, Sound, Do, Rescanned;
    if s.m.rc.Scanned? {
      RescannedWaits(s);
    }
  }

  lemma NotLiveUnclaimed(s: State, k: nat)
    requires Sound(s) && k < |s.h.stage| && s.h.stage[k].Waiting?
    ensures k < |s.h.order| && s.h.order[k] < |s.m.mem| && Claims(s.m.mem[s.h.order[k]]) == 0
  {
    hide Contents, Scans, Delivered, MarkOk, WithinQuotas, OncePlaced, RingHolds, Receiving, Stride, Sending, Layout, Places, Counting, Claims;
    ReceiverBehind(s);
    forall x | x in s.m.mem[s.h.order[k]] ensures !s.m.mem[s.h.order[k]][x].claimed {
      WaitingUnclaimed(s, k, x);
    }
    NoneClaimed(s.m.mem[s.h.order[k]]);
  }

  /** A slot number comes back at most once. */
  lemma ComesBackOnce(s: State, q: nat, r: nat)
    requires Reachable(s) && q < |s.h.released| && r < |s.h.released| && s.h.released[q] == s.h.released[r]
    ensures q == r
  {
    hide Contents, Counting, Scans, Delivered, MarkOk, WithinQuotas, OncePlaced, RingHolds, Receiving, Stride, Sending, Layout;
    ReachableSound(s);
  }

  // ---------------------------------------------------------------- accounting

  /** No step of the run counts a DATA message whose slot number is, in 20 bits, another one
      remembered for its port or for all DATA. */
  ghost predicate NoneAliased(s: State, acts: seq<Action>) {
    |acts| == 0
    || (NoneAliased(s, acts[..|acts| - 1])
        && (Run(s, acts[..|acts| - 1]).Some? ==> Unaliased(Run(s, acts[..|acts| - 1]).value, acts[|acts| - 1])))
  }

  ghost predicate ReachableUnaliased(s: State) {
    exists n: nat, messageQuota: nat, slotQuota: nat, acts ::
      Reaches(n, messageQuota, slotQuota, acts, s) && NoneAliased(Start(n, messageQuota, slotQuota), acts)
  }

  lemma StartExact(n: nat, messageQuota: nat, slotQuota: nat)
    requires 1 <= n <= RING
    ensures Exact(Start(n, messageQuota, slotQuota))
  {
  }

  lemma {:induction false} RunExact(s: State, acts: seq<Action>)
    requires Sound(s) && Exact(s) && NoneAliased(s, acts)
    ensures Run(s, acts).Some? ==> Exact(Run(s, acts).value)
  {
    hide Sound, Exact, Guard, Safe, Step, Unaliased;
    if |acts| > 0 {
      RunSound(s, acts[..|acts| - 1]);
      RunExact(s, acts[..|acts| - 1]);
      var r := Run(s, acts[..|acts| - 1]);
      if r.Some? && Guard(r.value.m, acts[|acts| - 1]) && Safe(r.value.m, acts[|acts| - 1]) {
        EveryStepExact(r.value, acts[|acts| - 1]);
        StaysExactIs(r.value, acts[|acts| - 1]);
      }
    }
  }

  lemma StaysExactIs(s: State, a: Action)
    requires StaysExact(s, a) && Guard(s.m, a) && Safe(s.m, a)
    ensures Exact(Step(s, a))
  {
  }

  lemma ReachableExact(s: State)
    requires ReachableUnaliased(s)
    ensures Reachable(s) && Sound(s) && Exact(s)
  {
    hide Sound, Exact, Start, Run;
    var n: nat, messageQuota: nat, slotQuota: nat, acts :|
      Reaches(n, messageQuota, slotQuota, acts, s) && NoneAliased(Start(n, messageQuota, slotQuota), acts);
    ReachableSound(s);
    StartSound(n, messageQuota, slotQuota);
    StartExact(n, messageQuota, slotQuota);
    RunExact(Start(n, messageQuota, slotQuota), acts);
  }

  /** Each counter is exactly the number of DATA messages of a port, of slots with DATA of that
      port, or of slots with any DATA, among slots not yet rescanned, less what the rescan in
      progress has already taken off, on every run that takes no slot number for another. */
  lemma AccountsExact(s: State, w: Measure)
    requires ReachableUnaliased(s) && ValidMeasure(w)
    ensures QuotasShaped(s.m.quotas) && |s.h.log| == |s.h.stage|
    ensures Counter(s.m.quotas, w) + Credit(s.m.rc, LogAt(s.h.log, Rescanned(s.h.released, s.m.available, |s.m.info|)), s.h.scanAt, w)
      == InUse(s.h.log, s.h.stage, w)
    ensures s.m.rc.Resting? || s.m.rc.Raised? ==> Counter(s.m.quotas, w) == InUse(s.h.log, s.h.stage, w)
  {
    hide Sound, InUse, Weigh, Remembered;
    ReachableExact(s);
  }

  /** On the same runs no counter a rescan lowers is zero. */
  lemma CountersNeverMissing(s: State)
    requires ReachableUnaliased(s) && RecycleGuard(s.m)
    ensures RecycleSafe(s.m) && CountersCover(s.m)
  {
    hide Sound, Exact, Safe, RecycleSafe, CountersCover, Guard;
    ReachableExact(s);
    GuardIs(s.m);
    EveryStepKeeps(s, DoRecycle);
    SafeIs(s.m);
    ExactCovers(s);
  }

  lemma GuardIs(m: Machine)
    requires RecycleGuard(m)
    ensures Guard(m, DoRecycle)
  {
  }

  lemma SafeIs(m: Machine)
    requires Safe(m, DoRecycle)
    ensures RecycleSafe(m)
  {
  }

  /** On the same runs what a port truly uses stays within its quotas while no rescan is under way. */
  lemma TrueUseWithinQuotas(s: State, p: nat)
    requires ReachableUnaliased(s) && p < PORTS && (s.m.rc.Resting? || s.m.rc.Raised?)
    ensures |s.h.log| == |s.h.stage| && QuotasShaped(s.m.quotas)
    ensures InUse(s.h.log, s.h.stage, Messages(p)) <= s.m.quotas.messageQuota[p]
    ensures InUse(s.h.log, s.h.stage, Slots(p)) <= s.m.quotas.slotQuota[p]
  {
    hide Sound, Exact, InUse;
    AccountsExact(s, Messages(p));
    AccountsExact(s, Slots(p));
    ReachableExact(s);
    QuotasKept(s, p);
  }

  /** On every run no counter of a service exceeds its quota. */
  lemma QuotasKept(s: State, p: nat)
    requires Reachable(s) && p < PORTS
    ensures QuotasShaped(s.m.quotas)
    ensures s.m.quotas.messageUse[p] <= s.m.quotas.messageQuota[p] && s.m.quotas.slotUse[p] <= s.m.quotas.slotQuota[p]
  {
    hide Contents, Counting, Scans, Delivered, MarkOk, OncePlaced, RingHolds, Receiving, Stride, Sending, Layout, InUse, Weigh, Places, Accounts;
    ReachableSound(s);
  }

  // ---------------------------------------------------------------- no slot gets stuck

  /** When a sender waits for a slot, the receiver has parsed everything published and clients
      hold no header, the recycle thread has work: the wait will end. */
  lemma BlockedSenderIsServed(s: State)
    requires Reachable(s) && s.m.tx.Blocked? && s.m.sem == 0
    requires s.m.parser.Next? && s.m.rxPos == s.m.txPos
    requires forall c :: 0 <= c < |s.m.mem| ==> Claims(s.m.mem[c]) == 0
    ensures !s.m.rc.Resting? || s.m.available != s.m.recycle
  {
    hide Contents, Scans, Delivered, MarkOk, OncePlaced, RingHolds, Stride, Sending, Layout, InUse, Weigh, Claims, Offset, Counting, WithinQuotas,
      Receiving;
    ReachableSound(s);
    NothingLost(s);
    AllParsed(s);
    ReceiverBehind(s);
    if forall k :: 0 <= k < |s.h.stage| ==> s.h.stage[k].Done? {
      AllDone(s.h.stage);
    } else {
      var k :| 0 <= k < |s.h.stage| && !s.h.stage[k].Done?;
      if s.h.stage[k].Live? {
        assert Opened(s.h.stage, s.h.rx, s.m.rxSlot.Some?, k);
        ClaimsBalance(s, k);
      } else {
        var i := PlaceOf(|s.m.info|, s.m.available, s.h.order, s.h.stage, s.h.released, k);
      }
    }
  }

  lemma {:induction false} AllDone(stage: seq<Stage>)
    requires forall k :: 0 <= k < |stage| ==> stage[k].Done?
    ensures CountDone(stage) == |stage|
  {
    if |stage| > 0 {
      AllDone(stage[..|stage| - 1]);
    }
  }

  /** At the end of what a blocked sender published, every slot has been parsed to its end. */
  lemma AllParsed(s: State)
    requires Sound(s) && s.m.tx.Blocked? && s.m.parser.Next? && s.m.rxPos == s.m.txPos
    ensures s.h.rx == |s.h.log| && s.m.rxSlot.None?
  {
    hide Contents, Scans, Delivered, MarkOk, OncePlaced, RingHolds, Stride, InUse, Weigh, Claims, Offset, Counting, WithinQuotas, Places;
    FilledSpace(s.h.log, s.h.rx);
    SlotRemainder(|s.h.log|, s.m.localPos);
  }

  // ---------------------------------------------------------------- 32-bit positions

  /** The source keeps positions in 32 bits. */
  const POSITIONS: nat := 0x1_0000_0000

  /** Numbers less than a turn apart are told apart by their remainders. */
  lemma NearWrap(a: nat, b: nat, m: nat)
    requires a <= b < a + m
    ensures a % m == b % m <==> a == b
  {
    if a % m == b % m {
      TurnProduct(a, b, m, b / m - a / m);
    }
  }

  lemma TurnProduct(a: nat, b: nat, m: nat, t: int)
    requires m > 0 && a % m == b % m && t == b / m - a / m
    ensures b - a == t * m
  {
  }

  lemma SplitPosition(n: nat, b: nat)
    requires b < SLOT_SIZE
    ensures (SLOT_SIZE * n + b) / SLOT_SIZE == n && (SLOT_SIZE * n + b) % SLOT_SIZE == b
  {
  }

  lemma WrapPosition(n: nat, b: nat)
    requires b < SLOT_SIZE
    ensures (SLOT_SIZE * n + b) % POSITIONS == SLOT_SIZE * (n % SLOT_NUMBERS) + b
  {
    var q := n / SLOT_NUMBERS;
    assert SLOT_SIZE * n + b == POSITIONS * q + (SLOT_SIZE * (n % SLOT_NUMBERS) + b);
  }

  /** The ring entry of a wrapped position is that of the position. */
  lemma WrappedRingEntry(pos: nat)
    ensures pos % POSITIONS / SLOT_SIZE % RING == pos / SLOT_SIZE % RING
    ensures pos % POSITIONS / SLOT_SIZE == SlotNumber(pos)
    ensures pos % POSITIONS % SLOT_SIZE == pos % SLOT_SIZE
  {
    var n := pos / SLOT_SIZE;
    var b := pos % SLOT_SIZE;
    WrapPosition(n, b);
    SplitPosition(n % SLOT_NUMBERS, b);
    assert n % SLOT_NUMBERS % RING == n % RING by { RingTurns(n); }
  }

  lemma RingTurns(n: nat)
    ensures n % SLOT_NUMBERS % RING == n % RING
  {
  }

  /** Everything between the read position and the free slots spans 64 slots at most, so the
      comparisons the code makes between wrapped positions and counters come out as on true ones.
      The slot numbers remembered for DATA are older; the machine keeps those in 20 bits. */
  lemma WrappedComparisons(s: State)
    requires Reachable(s)
    ensures s.m.rxPos <= s.m.snap <= s.m.txPos <= s.m.rxPos + RING * SLOT_SIZE
    ensures s.m.rxPos % POSITIONS == s.m.snap % POSITIONS <==> s.m.rxPos == s.m.snap
    ensures s.m.available % POSITIONS == s.m.recycle % POSITIONS <==> s.m.available == s.m.recycle
    ensures s.m.tx.Seeking? || s.m.tx.Blocked? ==>
      (s.m.tx.pos % POSITIONS == s.m.available * SLOT_SIZE % POSITIONS <==> s.m.tx.pos == s.m.available * SLOT_SIZE)
  {
    hide Contents, Counting, Scans, Delivered, MarkOk, WithinQuotas, OncePlaced, RingHolds, Places, Offset, Stride;
    ReachableSound(s);
    WindowBounds(s);
    NearWrap(s.m.rxPos, s.m.snap, POSITIONS);
    NearWrap(s.m.available, s.m.recycle, POSITIONS);
    if s.m.tx.Seeking? || s.m.tx.Blocked? {
      NearWrap(s.m.tx.pos, s.m.available * SLOT_SIZE, POSITIONS);
    }
  }

  lemma WindowBounds(s: State)
    requires Sound(s)
    ensures s.h.rx <= |s.h.log| <= s.m.available <= s.m.recycle <= s.h.rx + RING
    ensures SLOT_SIZE * s.h.rx <= s.m.rxPos <= s.m.snap <= s.m.txPos <= SLOT_SIZE * |s.h.log|
    ensures s.m.tx.Seeking? || s.m.tx.Blocked? ==> SLOT_SIZE * (|s.h.log| - 1) <= s.m.tx.pos <= SLOT_SIZE * |s.h.log|
  {
    hide Contents, Counting, Scans, Delivered, MarkOk, WithinQuotas, OncePlaced, Stride, Offset;
    ReceiverBehind(s);
    RingReads(|s.m.info|, s.m.available, s.h.order, s.h.stage, s.h.released, s.m.ring, s.h.rx);
    if |s.h.log| > 0 {
      assert End(s.h.log[|s.h.log| - 1]) <= SLOT_SIZE;
    }
  }
}
