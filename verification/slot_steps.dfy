/** The receiver's steps, the clients' releases and the recycle thread's rescan. */
module SlotSteps {
  import opened Basics
  import opened SlotMachine
  import opened SlotHistory
  import opened SlotLedger
  import opened SlotClaims
  import opened SlotAccounts
  import opened SlotRuns

  // ---------------------------------------------------------------- reading headers

  /** Bytes are published beyond the read position, so a header stands there. */
  lemma HeaderThere(s: State)
    requires Sound(s) && s.m.parser.Next? && s.m.rxPos != s.m.snap
    ensures s.h.rx < |s.h.log| && s.h.at < |s.h.log[s.h.rx]| && s.m.rxPos < s.m.snap
    ensures s.m.rxSlot.None? ==> s.m.rxPos % SLOT_SIZE == 0 && s.m.rxPos / SLOT_SIZE == s.h.rx
  {
    hide Contents, Counting, Scans, Delivered, RingHolds, OncePlaced, WithinQuotas, Places, Offset;
    var log := s.h.log;
    if |log| > 0 {
      assert End(log[|log| - 1]) <= SLOT_SIZE;
    }
    OffsetZero(log[s.h.rx]);
    MarkBeyond(log, s.h.rx, s.h.snapMark, s.m.snap, s.h.rx, s.h.at);
  }

  lemma OffsetZero(msgs: seq<Msg>)
    ensures Offset(msgs, 0) == 0
  {
  }

  lemma WithinSlot(k: nat, off: nat)
    requires off < SLOT_SIZE
    ensures (SLOT_SIZE * k + off) % SLOT_SIZE == off
  {
  }

  lemma HeaderPlace(s: State)
    requires Sound(s) && (s.m.parser.Header? || s.m.parser.Claimed?)
    ensures s.h.rx < |s.h.log| && s.h.at < |s.h.log[s.h.rx]| && s.h.rx < |s.h.order| && s.m.rxSlot == Some(s.h.order[s.h.rx])
    ensures s.m.rxPos % SLOT_SIZE == Offset(s.h.log[s.h.rx], s.h.at)
    ensures Offset(s.h.log[s.h.rx], s.h.at) + Stride(s.h.log[s.h.rx][s.h.at]) <= SLOT_SIZE
    ensures s.m.rxPos + Stride(s.h.log[s.h.rx][s.h.at]) == SLOT_SIZE * s.h.rx + Offset(s.h.log[s.h.rx], s.h.at + 1) <= s.m.snap
  {
    hide Counting, Scans, Delivered, RingHolds, OncePlaced, WithinQuotas, Places, Sending, Contents, MarkOk, Stride;
    var log := s.h.log;
    var rx := s.h.rx;
    OffsetBound(log[rx], s.h.at);
    assert End(log[rx]) <= SLOT_SIZE;
    WithinSlot(rx, Offset(log[rx], s.h.at));
    MarkBeyond(log, rx, s.h.snapMark, s.m.snap, rx, s.h.at);
  }

  /** The header the parser reads is the log's next message, and its slot holds all of it. */
  lemma HeaderRead(s: State)
    requires Sound(s) && (s.m.parser.Header? || s.m.parser.Claimed?)
    ensures ReceiveSafe(s.m)
    ensures s.h.rx < |s.h.log| && s.h.at < |s.h.log[s.h.rx]| && s.h.rx < |s.h.order| && s.m.rxSlot == Some(s.h.order[s.h.rx])
    ensures HeaderAt(s.m).msg == s.h.log[s.h.rx][s.h.at]
    ensures s.m.rxPos % SLOT_SIZE == Offset(s.h.log[s.h.rx], s.h.at)
    ensures s.m.rxPos + Stride(HeaderAt(s.m).msg) == SLOT_SIZE * s.h.rx + Offset(s.h.log[s.h.rx], s.h.at + 1) <= s.m.snap
  {
    hide Counting, Scans, Delivered, RingHolds, OncePlaced, WithinQuotas, Places, Stride, Sending, Layout, Offset, MarkOk;
    HeaderPlace(s);
    assert Holds(s.m.mem[s.h.order[s.h.rx]], s.h.log[s.h.rx]);
  }

  lemma SnapKeeps(s: State, claim: bool)
    requires Sound(s) && s.m.parser.Next? && s.m.rxPos == s.m.snap
    ensures Keeps(s, DoReceive(claim))
  {
    hide Contents, Counting, Scans, Delivered, Places, RingHolds, Layout, MarkOk, OncePlaced, Offset, WithinQuotas, Filled;
  }

  lemma OpenKeeps(s: State, claim: bool)
    requires Sound(s) && s.m.parser.Next? && s.m.rxPos != s.m.snap && s.m.rxSlot.None?
    ensures Keeps(s, DoReceive(claim))
  {
    hide Contents, Counting, Scans, Delivered, RingHolds, Layout, MarkOk, OncePlaced, Offset, WithinQuotas, Filled, Sending;
    HeaderThere(s);
    ReceiverBehind(s);
    OffsetZero(s.h.log[s.h.rx]);
    RingReads(|s.m.info|, s.m.available, s.h.order, s.h.stage, s.h.released, s.m.ring, s.h.rx);
    RingShape(s.m.ring, s.h.order);
    CountingOpen(s.m.mem, s.m.info, s.h.order, s.h.log, s.h.stage, s.h.rx);
  }

  lemma ResumeKeeps(s: State, claim: bool)
    requires Sound(s) && s.m.parser.Next? && s.m.rxPos != s.m.snap && s.m.rxSlot.Some?
    ensures Keeps(s, DoReceive(claim))
  {
    hide Contents, Counting, Scans, Delivered, RingHolds, Layout, MarkOk, OncePlaced, Offset, WithinQuotas, Filled, Sending, Places;
    HeaderThere(s);
  }

  lemma DeferKeeps(s: State)
    requires Sound(s) && s.m.parser.Header?
    ensures Keeps(s, DoDefer)
  {
    hide Contents, Counting, Scans, Delivered, RingHolds, MarkOk, OncePlaced, Offset, WithinQuotas, Filled, Sending, Places;
    OffsetBound(s.h.log[s.h.rx], s.h.at);
    assert End(s.h.log[s.h.rx]) <= SLOT_SIZE;
  }

  lemma ClaimKeeps(s: State)
    requires Sound(s) && s.m.parser.Header? && ReceiveSafe(s.m) && HeaderAt(s.m).msg.Data?
    ensures Keeps(s, DoReceive(true))
  {
    hide Contents, Counting, Scans, Delivered, RingHolds, Layout, MarkOk, OncePlaced, Offset, WithinQuotas, Filled, Sending, Stride;
    HeaderRead(s);
    ReceiverBehind(s);
    var k := s.h.order[s.h.rx];
    var x := s.m.rxPos % SLOT_SIZE;
    CountingClaim(s.m.mem, s.m.info, s.h.order, s.h.log, s.h.stage, s.h.rx, s.h.at);
    ContentsClaim(s.m.mem, s.h.order, s.h.log, s.h.stage, k, x, true);
  }

  /** The read position moves past one message, which is delivered. */
  lemma AdvanceKeeps(s: State, claim: bool)
    requires Sound(s) && ReceiveSafe(s.m)
    requires s.m.parser.Claimed? || (s.m.parser.Header? && !(HeaderAt(s.m).msg.Data? && claim))
    ensures Keeps(s, DoReceive(claim))
    ensures Step(s, DoReceive(claim)).h.parsed == s.h.parsed + [s.h.log[s.h.rx][s.h.at]]
  {
    hide Contents, Counting, Scans, Delivered, RingHolds, Layout, MarkOk, OncePlaced, Offset, WithinQuotas, Filled, Sending, Stride,
      Places;
    HeaderRead(s);
    ReceiverBehind(s);
    CountingAdvance(s.m.mem, s.m.info, s.h.order, s.h.log, s.h.stage, s.h.rx, s.h.at, s.m.parser.Claimed?);
    DeliveredAdvance(s.m.tx, s.h.log, s.h.sent, s.h.parsed, s.h.rx, s.h.at);
  }

  lemma MidSlotKeeps(s: State, claim: bool)
    requires Sound(s) && s.m.parser.Advanced? && s.m.rxPos % SLOT_SIZE != 0
    ensures Keeps(s, DoReceive(claim))
  {
    hide Contents, Counting, Scans, Delivered, RingHolds, MarkOk, OncePlaced, WithinQuotas, Filled, Sending, Places, Offset;
    OffsetBound(s.h.log[s.h.rx], s.h.at);
    assert End(s.h.log[s.h.rx]) <= SLOT_SIZE;
  }

  // ---------------------------------------------------------------- slots that come back

  /** A ring entry more changes nothing for the sender and the rescan. */
  lemma GiveBackOthers(s: State, k: nat)
    requires Sound(s) && k < |s.h.stage| && s.h.stage[k].Live?
    ensures k < |s.h.order|
    ensures var order := s.h.order + [s.h.order[k]]; var released := s.h.released + [k];
      && Sending(s.m.localPos, s.m.txPos, s.m.txSlot, s.m.available, s.m.sem, s.m.tx, s.m.rc.Raised?, order, s.h.log, s.h.txMark)
      && Scans(s.m.rc, |s.m.info|, s.m.available, order, s.h.log, released, s.h.scanAt)
  {
    hide Counting, Delivered, RingHolds, MarkOk, OncePlaced, Offset, WithinQuotas, Filled, Contents, Layout, Receiving, Stride, Weigh;
  }

  lemma GiveBackReads(s: State, k: nat)
    requires Sound(s) && k < |s.h.stage| && s.h.stage[k].Live?
    ensures k < |s.h.order| && s.h.order[k] < |s.m.info|
    ensures GiveBack(s.h, s.h.order[k]) ==
      s.h.(stage := s.h.stage[k := Waiting], order := s.h.order + [s.h.order[k]], released := s.h.released + [k])
  {
    hide Counting, Delivered, RingHolds, MarkOk, OncePlaced, Offset, WithinQuotas, Filled, Contents, Layout, Receiving, Stride, Sending, Scans,
      GiveBack;
    ReceiverBehind(s);
    GiveBackIs(|s.m.info|, s.m.available, s.h, k);
  }

  /** Giving slot number k back touches its place and nothing else. */
  lemma GiveBackKeeps(s: State, k: nat)
    requires Sound(s) && k < |s.h.stage| && s.h.stage[k].Live?
    ensures k < |s.h.order| && s.h.order[k] < |s.m.info|
    ensures var c := s.h.order[k]; var order := s.h.order + [c]; var stage := s.h.stage[k := Waiting]; var released := s.h.released + [k];
      && GiveBack(s.h, c) == s.h.(stage := stage, order := order, released := released)
      && |s.m.ring| == RING && RingHolds(s.m.ring[|s.h.order| % RING := c], order)
      && Places(|s.m.info|, s.m.available, order, stage, released)
      && Contents(s.m.mem, order, s.h.log, stage)
      && Sending(s.m.localPos, s.m.txPos, s.m.txSlot, s.m.available, s.m.sem, s.m.tx, s.m.rc.Raised?, order, s.h.log, s.h.txMark)
      && Scans(s.m.rc, |s.m.info|, s.m.available, order, s.h.log, released, s.h.scanAt)
  {
    hide Counting, Delivered, RingHolds, MarkOk, OncePlaced, Offset, WithinQuotas, Filled, Contents, Layout, Receiving, Stride, Sending, Scans,
      GiveBack;
    ReceiverBehind(s);
    GiveBackOthers(s, k);
    GiveBackReads(s, k);
    RingShape(s.m.ring, s.h.order);
    RingPush(s.m.ring, s.h.order, s.h.order[k]);
    PlacesGiveBack(|s.m.info|, s.m.available, s.h.order, s.h.stage, s.h.released, k);
    ContentsStage(s.m.mem, s.h.order, s.h.log, s.h.stage, k, Waiting, s.h.order[k]);
  }

  /** The end of a slot. */
  lemma FinishKeeps(s: State, claim: bool)
    requires Sound(s) && s.m.parser.Advanced? && s.m.rxPos % SLOT_SIZE == 0
    ensures Keeps(s, DoReceive(claim))
  {
    hide Contents, Counting, Scans, Delivered, RingHolds, MarkOk, OncePlaced, WithinQuotas, Filled, Sending, Places, Offset, Layout;
    SlotEnd(s);
    ReceiverBehind(s);
    OnceOf(s);
    CountingFinish(s.m.mem, s.m.info, s.h.order, s.h.log, s.h.stage, s.h.rx, s.h.at);
    DeliveredFinish(s.m.tx, s.h.log, s.h.sent, s.h.parsed, s.h.rx, s.h.at);
    GiveBackKeeps(s, s.h.rx);
  }

  lemma OnceOf(s: State)
    requires Sound(s)
    ensures OncePlaced(s.h.order, s.h.stage)
  {
    hide Contents, Counting, Scans, Delivered, RingHolds, MarkOk, WithinQuotas, Sending, Layout, Receiving, OncePlaced;
  }

  /** A read position at a slot boundary has passed all of the slot's messages. */
  lemma SlotEnd(s: State)
    requires Sound(s) && s.m.parser.Advanced? && s.m.rxPos % SLOT_SIZE == 0
    ensures s.m.rxSlot.Some? && s.h.rx < |s.h.log| && s.h.at == |s.h.log[s.h.rx]| && s.m.rxPos == SLOT_SIZE * (s.h.rx + 1)
    ensures Layout(s.h.log, s.h.rx + 1)
    ensures |s.m.ring| == RING
  {
    hide Contents, Counting, Scans, Delivered, MarkOk, OncePlaced, WithinQuotas, Filled, Sending, Places, Offset;
    var msgs := s.h.log[s.h.rx];
    OffsetZero(msgs);
    OffsetLess(msgs, 0, s.h.at);
    OffsetBound(msgs, s.h.at);
    assert End(msgs) <= SLOT_SIZE;
  }

  /** A client lets go of any header address: only a claimed header changes anything. */
  lemma ReleaseKeeps(s: State, c: nat, x: nat)
    requires Sound(s) && ReleaseGuard(s.m, c, x)
    ensures Keeps(s, DoRelease(c, x))
  {
    hide Contents, Counting, Scans, Delivered, RingHolds, MarkOk, OncePlaced, WithinQuotas, Filled, Sending, Places, Offset, Layout;
    if s.m.mem[c][x].claimed {
      OnceOf(s);
      ReceiverBehind(s);
      var k := CountingRelease(s.m.mem, s.m.info, s.h.order, s.h.log, s.h.stage, s.h.rx, s.h.at, s.m.rxSlot.Some?, s.m.parser.Claimed?, c, x);
      ContentsClaim(s.m.mem, s.h.order, s.h.log, s.h.stage, c, x, false);
      if LastHolder(s.m, c) {
        GiveBackKeeps(s, k);
        ContentsStage(s.m.mem[c := s.m.mem[c][x := s.m.mem[c][x].(claimed := false)]], s.h.order, s.h.log, s.h.stage, k, Waiting, c);
      }
    }
  }

  // ---------------------------------------------------------------- the rescan

  lemma FetchKeeps(s: State)
    requires Sound(s) && s.m.rc.Resting? && RecycleGuard(s.m)
    ensures Keeps(s, DoRecycle)
  {
    hide Contents, Counting, Delivered, RingHolds, MarkOk, OncePlaced, WithinQuotas, Filled, Layout, Receiving, Weigh;
    ReceiverBehind(s);
    RingReads(|s.m.info|, s.m.available, s.h.order, s.h.stage, s.h.released, s.m.ring, s.h.rx);
    RingShape(s.m.ring, s.h.order);
    QuotasShape(s);
    PlacesRecycle(|s.m.info|, s.m.available, s.h.order, s.h.stage, s.h.released);
    var f := s.h.released[s.m.available - |s.m.info|];
    EmptyWeigh(s.h.log[f][..0]);
  }

  lemma EmptyWeigh(msgs: seq<Msg>)
    requires msgs == []
    ensures forall w :: Weigh(msgs, w) == 0
  {
  }

  /** The rescan stands at a header of the slot that came back, unclaimed, or at the very end of
      the slot. */
  lemma ScanReads(s: State)
    requires Sound(s) && s.m.rc.Scanning?
    ensures RecycleSafe(s.m)
    ensures var f := Rescanned(s.h.released, s.m.available, |s.m.info|);
      f < |s.h.log| && s.h.scanAt <= |s.h.log[f]|
      && (s.m.rc.pos < SLOT_SIZE ==> s.h.scanAt < |s.h.log[f]| && s.m.mem[s.m.rc.slot][s.m.rc.pos].msg == s.h.log[f][s.h.scanAt])
      && (s.m.rc.pos >= SLOT_SIZE ==> s.h.scanAt == |s.h.log[f]| && !s.m.rc.counted)
  {
    hide Counting, Delivered, RingHolds, MarkOk, OncePlaced, WithinQuotas, Filled, Receiving, Weigh, Sending, Offset, Places, Layout, Stride;
    var f := Rescanned(s.h.released, s.m.available, |s.m.info|);
    RescannedWaits(s);
    QuotasShape(s);
    OffsetBound(s.h.log[f], s.h.scanAt);
    assert Holds(s.m.mem[s.h.order[f]], s.h.log[f]);
    if s.h.scanAt < |s.h.log[f]| {
      WaitingUnclaimed(s, f, s.m.rc.pos);
    }
  }

  /** No header of a slot that came back is claimed. */
  lemma WaitingUnclaimed(s: State, f: nat, x: int)
    requires Sound(s) && f < |s.h.stage| && s.h.stage[f].Waiting? && f < |s.h.order| && s.h.order[f] < |s.m.mem| && x in s.m.mem[s.h.order[f]]
    ensures !s.m.mem[s.h.order[f]][x].claimed
  {
    hide Contents, Delivered, RingHolds, MarkOk, OncePlaced, WithinQuotas, Receiving, Weigh, Sending, Offset, Places, Layout, Stride, Scans, Claims;
    var c := s.h.order[f];
    if s.m.mem[c][x].claimed {
      assert HasClaimant(s.h.order, s.h.log, s.h.stage, s.h.rx, s.h.at, s.m.rxSlot.Some?, s.m.parser.Claimed?, c, x);
      var k: nat :| Claimant(s.h.order, s.h.log, s.h.stage, s.h.rx, s.h.at, s.m.rxSlot.Some?, s.m.parser.Claimed?, c, x, k);
      HeldApart(|s.m.info|, s.m.available, s.h.order, s.h.stage, s.h.released, f, k);
    }
  }

  lemma ScanKeeps(s: State)
    requires Sound(s) && s.m.rc.Scanning? && s.m.rc.pos < SLOT_SIZE
    ensures Keeps(s, DoRecycle)
  {
    hide Contents, Counting, Delivered, RingHolds, MarkOk, OncePlaced, WithinQuotas, Filled, Receiving, Weigh, Sending, Offset, Places, Layout,
      Stride, Scans, Scan;
    ScanReads(s);
    ScanTouches(s.m);
    ScansStep(s.m, |s.m.info|, s.h.order, s.h.log, s.h.released, s.h.scanAt);
    QuotaLess(s.m.quotas, Scan(s.m).quotas, s.m.localPos, s.m.tx);
  }

  /** A rescan step changes its own place and lowers use counts. */
  lemma ScanTouches(m: Machine)
    requires m.rc.Scanning? && m.rc.pos < SLOT_SIZE && RecycleSafe(m)
    ensures Scan(m) == m.(quotas := Scan(m).quotas, rc := Scan(m).rc) && Scan(m).rc.Scanning?
    ensures Lowered(m.quotas, Scan(m).quotas)
  {
    hide Stride;
  }

  ghost predicate Lowered(q: Quotas, r: Quotas) {
    && QuotasShaped(q) && QuotasShaped(r)
    && r.previousTx == q.previousTx && r.previousData == q.previousData && r.open == q.open
    && r.messageQuota == q.messageQuota && r.slotQuota == q.slotQuota
    && (forall p :: 0 <= p < PORTS ==> r.messageUse[p] <= q.messageUse[p] && r.slotUse[p] <= q.slotUse[p])
  }

  lemma QuotaLess(q: Quotas, r: Quotas, localPos: nat, tx: Sender)
    requires WithinQuotas(q, localPos, tx) && Lowered(q, r)
    ensures WithinQuotas(r, localPos, tx)
  {
    forall p | 0 <= p < PORTS ensures r.messageUse[p] <= r.messageQuota[p] && r.slotUse[p] <= r.slotQuota[p] {
      assert q.messageUse[p] <= q.messageQuota[p] && q.slotUse[p] <= q.slotQuota[p];
    }
  }

  lemma ScanEndKeeps(s: State)
    requires Sound(s) && s.m.rc.Scanning? && s.m.rc.pos >= SLOT_SIZE
    ensures Keeps(s, DoRecycle)
  {
    hide Contents, Counting, Delivered, RingHolds, MarkOk, OncePlaced, WithinQuotas, Filled, Receiving, Weigh, Sending, Offset, Places, Layout,
      Stride;
    ScanReads(s);
    var r := Step(s, DoRecycle).m.quotas;
    QuotaLess(s.m.quotas, r, s.m.localPos, s.m.tx);
  }

  /** The rescanned slot becomes available. */
  lemma RaiseKeeps(s: State)
    requires Sound(s) && s.m.rc.Scanned?
    ensures Keeps(s, DoRecycle)
  {
    hide Contents, Counting, Delivered, RingHolds, MarkOk, OncePlaced, WithinQuotas, Filled, Weigh, Offset, Layout, Stride, Places, Rescanned;
    RescannedWaits(s);
    RaisePlaces(s);
    QuotasShape(s);
    ReceiverBehind(s);
    var f := Rescanned(s.h.released, s.m.available, |s.m.info|);
    ContentsStage(s.m.mem, s.h.order, s.h.log, s.h.stage, f, Done, 0);
    CountingDone(s, f);
  }

  lemma RaisePlaces(s: State)
    requires Sound(s) && s.m.rc.Scanned?
    ensures Rescanned(s.h.released, s.m.available, |s.m.info|) < |s.h.stage|
    ensures Places(|s.m.info|, s.m.available + 1, s.h.order, s.h.stage[Rescanned(s.h.released, s.m.available, |s.m.info|) := Done], s.h.released)
  {
    hide Contents, Counting, Delivered, RingHolds, MarkOk, OncePlaced, WithinQuotas, Filled, Weigh, Offset, Layout, Stride, Receiving;
    PlacesRecycle(|s.m.info|, s.m.available, s.h.order, s.h.stage, s.h.released);
  }

  lemma CountingDone(s: State, f: nat)
    requires Sound(s) && f < |s.h.stage| && s.h.stage[f].Waiting?
    ensures Counting(s.m.mem, s.m.info, s.h.order, s.h.log, s.h.stage[f := Done], s.h.rx, s.h.at, s.m.rxSlot.Some?, s.m.parser.Claimed?)
  {
    hide Contents, Delivered, RingHolds, MarkOk, OncePlaced, WithinQuotas, Filled, Weigh, Offset, Layout, Stride, Receiving, Places, Claims,
      HandedOut, Sending, Scans;
    var stage := s.h.stage[f := Done];
    var parsing := s.m.rxSlot.Some?;
    var taken := s.m.parser.Claimed?;
    forall t, x | 0 <= t < |s.m.mem| && x in s.m.mem[t] && s.m.mem[t][x].claimed
      ensures HasClaimant(s.h.order, s.h.log, stage, s.h.rx, s.h.at, parsing, taken, t, x)
    {
      assert HasClaimant(s.h.order, s.h.log, s.h.stage, s.h.rx, s.h.at, parsing, taken, t, x);
      var k: nat :| Claimant(s.h.order, s.h.log, s.h.stage, s.h.rx, s.h.at, parsing, taken, t, x, k);
      assert Claimant(s.h.order, s.h.log, stage, s.h.rx, s.h.at, parsing, taken, t, x, k);
    }
    assert forall k: nat {:trigger Opened(stage, s.h.rx, parsing, k)} :: Opened(stage, s.h.rx, parsing, k) <==> Opened(s.h.stage, s.h.rx, parsing, k);
  }

  lemma UpKeeps(s: State)
    requires Sound(s) && s.m.rc.Raised?
    ensures Keeps(s, DoRecycle)
  {
    hide Contents, Counting, Delivered, RingHolds, MarkOk, OncePlaced, WithinQuotas, Filled, Weigh, Offset, Layout, Stride, Receiving, Places;
    QuotasShape(s);
  }

  // ---------------------------------------------------------------- every step

  /** Whatever thread moves next, its step does what its code relies on and keeps the state sound. */
  lemma EveryStepKeeps(s: State, a: Action)
    requires Sound(s) && Guard(s.m, a)
    ensures Keeps(s, a)
  {
    hide Sound, Keeps, Step;
    match a
    case DoAdd(p) => AddKeeps(s, p);
    case DoAdmit(msg) => AdmitKeeps(s, msg);
    case DoGiveUp => GiveUpKeeps(s);
    case DoDefer => DeferKeeps(s);
    case DoRelease(c, x) => ReleaseKeeps(s, c, x);
    case DoSend => SendKeeps(s);
    case DoReceive(claim) => ReceiveKeeps(s, claim);
    case DoRecycle => RecycleKeeps(s);
  }

  lemma SendKeeps(s: State)
    requires Sound(s) && SendGuard(s.m)
    ensures Keeps(s, DoSend)
  {
    hide Sound, Keeps, Step;
    match s.m.tx
    case Admitted(msg) => if Stride(msg) > Space(s.m.localPos) { PadKeeps(s); } else { ReserveKeeps(s); }
    case Seeking(_, pos) => if s.m.sem > 0 { TakeKeeps(s, pos); } else { FlushKeeps(s); }
    case Blocked(_, pos) => TakeKeeps(s, pos);
    case Reserved(_) => CommitKeeps(s);
    case Stored(_) => PublishKeeps(s);
  }

  lemma ReceiveKeeps(s: State, claim: bool)
    requires Sound(s)
    ensures Keeps(s, DoReceive(claim))
  {
    hide Sound, Keeps, Step;
    match s.m.parser
    case Next =>
      if s.m.rxPos == s.m.snap { SnapKeeps(s, claim); }
      else if s.m.rxSlot.None? { OpenKeeps(s, claim); }
      else { ResumeKeeps(s, claim); }
    case Header =>
      HeaderRead(s);
      if HeaderAt(s.m).msg.Data? && claim { ClaimKeeps(s); } else { AdvanceKeeps(s, claim); }
    case Claimed =>
      HeaderRead(s);
      AdvanceKeeps(s, claim);
    case Advanced =>
      if s.m.rxPos % SLOT_SIZE == 0 { FinishKeeps(s, claim); } else { MidSlotKeeps(s, claim); }
  }

  lemma RecycleKeeps(s: State)
    requires Sound(s) && RecycleGuard(s.m)
    ensures Keeps(s, DoRecycle)
  {
    hide Sound, Keeps, Step;
    match s.m.rc
    case Resting => FetchKeeps(s);
    case Scanning(_, pos, _, _, _) => if pos < SLOT_SIZE { ScanKeeps(s); } else { ScanEndKeeps(s); }
    case Scanned => RaiseKeeps(s);
    case Raised => UpKeeps(s);
  }
}
