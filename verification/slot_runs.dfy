/** Every step of every thread keeps the slot transport sound. */
module SlotRuns {
  import opened Basics
  import opened SlotMachine
  import opened SlotHistory
  import opened SlotLedger
  import opened SlotClaims
  import opened SlotAccounts

  // ---------------------------------------------------------------- deliveries

  lemma FlattenMore(log: seq<seq<Msg>>, msgs: seq<Msg>)
    ensures Flatten(log + [msgs]) == Flatten(log) + msgs
  {
    assert (log + [msgs])[..|log|] == log;
  }

  lemma Associative(a: seq<Msg>, b: seq<Msg>, c: seq<Msg>)
    ensures a + (b + c) == (a + b) + c
  {
  }

  lemma FlattenLess(front: seq<seq<Msg>>, last: seq<Msg>, m: Msg)
    ensures Flatten(front + [last + [m]]) == Flatten(front + [last]) + [m]
  {
    hide Flatten;
    FlattenMore(front, last + [m]);
    FlattenMore(front, last);
    Associative(Flatten(front), last, [m]);
  }

  lemma SplitLast(log: seq<seq<Msg>>, m: Msg)
    requires |log| > 0
    ensures log == log[..|log| - 1] + [log[|log| - 1]]
    ensures Append(log, m) == log[..|log| - 1] + [log[|log| - 1] + [m]]
  {
  }

  lemma FlattenAppend(log: seq<seq<Msg>>, m: Msg)
    requires |log| > 0
    ensures Flatten(Append(log, m)) == Flatten(log) + [m]
  {
    hide Flatten, Append;
    SplitLast(log, m);
    FlattenLess(log[..|log| - 1], log[|log| - 1], m);
  }

  lemma PayloadAppend(msgs: seq<Msg>, m: Msg)
    ensures Payload(msgs + [m]) == Payload(msgs) + if m.Padding? then [] else [m]
  {
    assert (msgs + [m])[..|msgs|] == msgs;
  }

  lemma PrefixAppend(log: seq<seq<Msg>>, m: Msg, rx: nat, at: nat)
    requires rx < |log| && at <= |log[rx]|
    ensures Append(log, m)[..rx] == log[..rx]
    ensures at <= |LogAt(Append(log, m), rx)| && LogAt(Append(log, m), rx)[..at] == LogAt(log, rx)[..at]
  {
  }

  lemma DeliveredAppend(tx: Sender, log: seq<seq<Msg>>, sent: seq<Msg>, parsed: seq<Msg>, rx: nat, at: nat, m: Msg, newTx: Sender)
    requires Delivered(tx, log, sent, parsed, rx, at) && rx < |log| && !tx.Stored?
    requires newTx == if m.Padding? then newTx else Stored(m)
    requires m.Padding? ==> !newTx.Stored?
    ensures Delivered(newTx, Append(log, m), sent, parsed, rx, at)
  {
    hide Append, Flatten, Payload;
    FlattenAppend(log, m);
    PayloadAppend(Flatten(log), m);
    PrefixAppend(log, m, rx, at);
  }

  lemma DeliveredTake(tx: Sender, log: seq<seq<Msg>>, sent: seq<Msg>, parsed: seq<Msg>, rx: nat, at: nat, newTx: Sender)
    requires Delivered(tx, log, sent, parsed, rx, at) && !tx.Stored? && !newTx.Stored?
    ensures Delivered(newTx, log + [[]], sent, parsed, rx, at)
  {
    FlattenMore(log, []);
    assert Flatten(log) + [] == Flatten(log);
    assert (log + [[]])[..rx] == log[..rx];
    if rx == |log| {
      assert LogAt(log + [[]], rx) == [];
    }
  }

  lemma DeliveredAdvance(tx: Sender, log: seq<seq<Msg>>, sent: seq<Msg>, parsed: seq<Msg>, rx: nat, at: nat)
    requires Delivered(tx, log, sent, parsed, rx, at) && rx < |log| && at < |log[rx]|
    ensures Delivered(tx, log, sent, parsed + [log[rx][at]], rx, at + 1)
  {
    assert log[rx][..at + 1] == log[rx][..at] + [log[rx][at]];
  }

  lemma DeliveredFinish(tx: Sender, log: seq<seq<Msg>>, sent: seq<Msg>, parsed: seq<Msg>, rx: nat, at: nat)
    requires Delivered(tx, log, sent, parsed, rx, at) && rx < |log| && at == |log[rx]|
    ensures Delivered(tx, log, sent, parsed, rx + 1, 0)
  {
    assert log[..rx + 1] == log[..rx] + [log[rx]];
    FlattenMore(log[..rx], log[rx]);
    assert log[rx][..at] == log[rx];
    assert LogAt(log, rx + 1)[..0] == [];
  }

  lemma DeliveredMove(tx: Sender, log: seq<seq<Msg>>, sent: seq<Msg>, parsed: seq<Msg>, rx: nat, at: nat, newTx: Sender)
    requires Delivered(tx, log, sent, parsed, rx, at) && !tx.Stored? && !newTx.Stored?
    ensures Delivered(newTx, log, sent, parsed, rx, at)
  {
  }

  // ---------------------------------------------------------------- the receiver's view

  lemma ReceivingAppend(snap: nat, rxPos: nat, rxSlot: Option<nat>, parser: Parser, txPos: nat,
                        order: seq<nat>, log: seq<seq<Msg>>, stage: seq<Stage>, snapMark: Mark, rx: nat, at: nat, m: Msg)
    requires Receiving(snap, rxPos, rxSlot, parser, txPos, order, log, stage, snapMark, rx, at) && |log| > 0
    ensures Receiving(snap, rxPos, rxSlot, parser, txPos, order, Append(log, m), stage, snapMark, rx, at)
  {
    AppendLog(log, m);
    MarkAppend(log, m, snapMark, snap);
    var last := log[|log| - 1];
    if rx < |log| && at <= |log[rx]| {
      OffsetStable(log[rx], Append(log, m)[rx], at);
    }
  }

  lemma ReceivingTake(snap: nat, rxPos: nat, rxSlot: Option<nat>, parser: Parser, txPos: nat,
                      order: seq<nat>, log: seq<seq<Msg>>, stage: seq<Stage>, snapMark: Mark, rx: nat, at: nat)
    requires Receiving(snap, rxPos, rxSlot, parser, txPos, order, log, stage, snapMark, rx, at) && |log| < |order|
    ensures Receiving(snap, rxPos, rxSlot, parser, txPos, order, log + [[]], stage + [Live], snapMark, rx, at)
  {
    MarkTake(log, snapMark, snap);
    assert forall k :: 0 <= k < |log| ==> (log + [[]])[k] == log[k];
  }

  lemma ScansAppend(rc: Recycler, n: nat, available: nat, order: seq<nat>, log: seq<seq<Msg>>, released: seq<nat>, scanAt: nat, m: Msg)
    requires Scans(rc, n, available, order, log, released, scanAt) && |log| > 0
    requires rc.Scanning? || rc.Scanned? ==> Rescanned(released, available, n) != |log| - 1
    ensures Scans(rc, n, available, order, Append(log, m), released, scanAt)
  {
    AppendLog(log, m);
  }

  // ---------------------------------------------------------------- facts read off a sound state

  /** The slot under rescan came back and is full, so it is not the one being filled. */
  lemma RescannedWaits(s: State)
    requires Sound(s) && (s.m.rc.Scanning? || s.m.rc.Scanned?)
    ensures var f := Rescanned(s.h.released, s.m.available, |s.m.info|);
      f < |s.h.log| && s.h.stage[f].Waiting? && f < s.h.rx && End(s.h.log[f]) == SLOT_SIZE
  {
    hide Contents, Counting, WithinQuotas, Delivered, RingHolds, Sending, Offset, OncePlaced;
  }

  lemma FillingLive(s: State)
    requires Sound(s) && |s.h.log| > 0 && End(s.h.log[|s.h.log| - 1]) < SLOT_SIZE
    ensures |s.h.stage| == |s.h.log| <= |s.h.order| && s.h.stage[|s.h.log| - 1].Live? && s.h.rx < |s.h.log|
    ensures s.h.at <= |s.h.log[s.h.rx]|
    ensures s.m.txSlot == s.h.order[|s.h.log| - 1] < |s.m.mem|
    ensures s.m.rc.Scanning? || s.m.rc.Scanned? ==> Rescanned(s.h.released, s.m.available, |s.m.info|) != |s.h.log| - 1
  {
    hide Contents, Counting, WithinQuotas, RingHolds, Offset, OncePlaced;
    if s.m.rc.Scanning? || s.m.rc.Scanned? {
      RescannedWaits(s);
    }
  }

  /** The step does what its code relies on, and leads to a sound state. */
  ghost predicate Keeps(s: State, a: Action) {
    Guard(s.m, a) && Safe(s.m, a) && Sound(Step(s, a))
  }

  // ---------------------------------------------------------------- the sender's steps

  lemma FilledSpace(log: seq<seq<Msg>>, rx: nat)
    requires Layout(log, rx) && (|log| > 0 ==> |log[|log| - 1]| > 0)
    ensures Filled(log) % HEADER_SIZE == 0
    ensures Filled(log) <= SLOT_SIZE * |log| && (|log| > 0 ==> SLOT_SIZE * (|log| - 1) < Filled(log))
    ensures Filled(log) < SLOT_SIZE * |log| ==> Filled(log) == SLOT_SIZE * (|log| - 1) + End(log[|log| - 1])
  {
    hide Offset;
    if |log| > 0 {
      var last := log[|log| - 1];
      EndZero(last);
      assert End(last) <= SLOT_SIZE;
      SumAligned(|log| - 1, End(last));
    }
  }

  lemma SumAligned(k: nat, off: nat)
    requires off % HEADER_SIZE == 0
    ensures (SLOT_SIZE * k + off) % HEADER_SIZE == 0
  {
  }

  lemma SlotRemainder(n: int, pos: nat)
    requires SLOT_SIZE * (n - 1) < pos <= SLOT_SIZE * n && n >= 0
    ensures pos % SLOT_SIZE == 0 <==> pos == SLOT_SIZE * n
    ensures pos < SLOT_SIZE * n ==> pos % SLOT_SIZE == pos - SLOT_SIZE * (n - 1) && Space(pos) == SLOT_SIZE * n - pos
  {
  }

  lemma SameEnd(pos: nat, stride: nat)
    requires Space(pos) < stride <= SLOT_SIZE
    ensures (pos + stride - 1) / SLOT_SIZE == (pos + Space(pos) + stride - 1) / SLOT_SIZE
  {
  }

  /** The space left in a slot holds a header at least, and a message that does not fit ends in
      the next slot. */
  lemma RoomLeft(log: seq<seq<Msg>>, rx: nat, pos: nat, stride: nat)
    requires Layout(log, rx) && pos == Filled(log) && (|log| > 0 ==> |log[|log| - 1]| > 0) && HEADER_SIZE <= stride <= SLOT_SIZE
    ensures pos % HEADER_SIZE == 0 && Space(pos) % HEADER_SIZE == 0 && Space(pos) >= HEADER_SIZE
    ensures pos % SLOT_SIZE == 0 <==> pos == SLOT_SIZE * |log|
    ensures pos % SLOT_SIZE != 0 ==> |log| > 0 && pos % SLOT_SIZE == End(log[|log| - 1]) < SLOT_SIZE
    ensures pos % SLOT_SIZE != 0 ==> pos + Space(pos) == SLOT_SIZE * |log|
    ensures pos % SLOT_SIZE == 0 ==> Space(pos) == SLOT_SIZE
    ensures stride > Space(pos) ==>
      (pos + stride - 1) / SLOT_SIZE == (pos + Space(pos) + stride - 1) / SLOT_SIZE
  {
    hide Layout, Filled;
    FilledSpace(log, rx);
    SlotRemainder(|log|, pos);
    if stride > Space(pos) {
      SameEnd(pos, stride);
    }
  }

  lemma StrideFits(m: Msg)
    requires Sendable(m)
    ensures Stride(m) <= SLOT_SIZE
  {
  }

  lemma PaddingFits(space: nat)
    requires space % HEADER_SIZE == 0 && space >= HEADER_SIZE
    ensures Stride(Padding(space - HEADER_SIZE)) == space
  {
  }

  /** Padding out a slot. */
  lemma PadKeeps(s: State)
    requires Sound(s) && s.m.tx.Admitted? && Stride(s.m.tx.msg) > Space(s.m.localPos)
    ensures Keeps(s, DoSend)
  {
    hide Contents, Counting, Scans, Delivered, Places, RingHolds, Receiving, Layout, MarkOk, Append, Written, OncePlaced, Offset, Filled,
      Stride;
    var log := s.h.log;
    StrideFits(s.m.tx.msg);
    RoomLeft(log, s.h.rx, s.m.localPos, Stride(s.m.tx.msg));
    FillingLive(s);
    assert s.m.localPos % SLOT_SIZE != 0;
    PadStep(s);
  }

  lemma PadStep(s: State)
    requires Sound(s) && s.m.tx.Admitted? && Stride(s.m.tx.msg) > Space(s.m.localPos) && SendSafe(s.m)
    requires |s.h.log| > 0 && s.m.localPos % SLOT_SIZE == End(s.h.log[|s.h.log| - 1]) < SLOT_SIZE && Space(s.m.localPos) % HEADER_SIZE == 0
    requires s.m.localPos + Space(s.m.localPos) == SLOT_SIZE * |s.h.log|
    ensures Keeps(s, DoSend)
  {
    hide Contents, Counting, Scans, Delivered, Places, RingHolds, Receiving, Layout, MarkOk, Append, Written, OncePlaced, Offset, Filled,
      Stride;
    var log := s.h.log;
    var space := Space(s.m.localPos);
    var pad := Padding(space - HEADER_SIZE);
    PaddingFits(space);
    FillingLive(s);
    AppendMessage(s, pad, Seeking(s.m.tx.msg, s.m.localPos + space));
    QuotaPad(s);
  }

  lemma QuotaPad(s: State)
    requires Sound(s) && s.m.tx.Admitted? && Stride(s.m.tx.msg) > Space(s.m.localPos)
    ensures WithinQuotas(s.m.quotas, s.m.localPos, Seeking(s.m.tx.msg, s.m.localPos + Space(s.m.localPos)))
  {
    hide Contents, Counting, Scans, Delivered, Places, RingHolds, Receiving, MarkOk, Append, Written, OncePlaced, Offset;
    StrideFits(s.m.tx.msg);
    RoomLeft(s.h.log, s.h.rx, s.m.localPos, Stride(s.m.tx.msg));
  }

  /** The state after one more message in the slot being filled, apart from counters and position. */
  ghost predicate Appended(s: State, msg: Msg, newTx: Sender)
    requires |s.h.log| > 0
  {
    var k := |s.h.log| - 1;
    var log := Append(s.h.log, msg);
    && k < |s.h.order| && s.h.order[k] < |s.m.mem|
    && var mem := s.m.mem[s.h.order[k] := Written(s.m.mem[s.h.order[k]], End(s.h.log[k]), msg)];
    && Layout(log, s.h.rx) && Filled(log) == Filled(s.h.log) + Stride(msg) && PortsOk(log)
    && |log[k]| > 0
    && Contents(mem, s.h.order, log, s.h.stage)
    && MarkOk(log, s.h.txMark, s.m.txPos)
    && Receiving(s.m.snap, s.m.rxPos, s.m.rxSlot, s.m.parser, s.m.txPos, s.h.order, log, s.h.stage, s.h.snapMark, s.h.rx, s.h.at)
    && Counting(mem, s.m.info, s.h.order, log, s.h.stage, s.h.rx, s.h.at, s.m.rxSlot.Some?, s.m.parser.Claimed?)
    && Scans(s.m.rc, |s.m.info|, s.m.available, s.h.order, log, s.h.released, s.h.scanAt)
    && Delivered(newTx, log, s.h.sent, s.h.parsed, s.h.rx, s.h.at)
  }

  /** What writing one more message into the slot being filled keeps. */
  lemma AppendMessage(s: State, msg: Msg, newTx: Sender)
    requires Sound(s) && |s.h.log| > 0 && !s.m.tx.Stored?
    requires End(s.h.log[|s.h.log| - 1]) + Stride(msg) <= SLOT_SIZE
    requires newTx == if msg.Padding? then newTx else Stored(msg)
    requires msg.Padding? ==> !newTx.Stored?
    requires msg.Data? ==> msg.src < PORTS
    ensures Appended(s, msg, newTx)
  {
    hide Contents, Counting, Scans, Delivered, RingHolds, Receiving, Layout, MarkOk, Append, Written, OncePlaced, Offset, Filled,
      Stride, WithinQuotas;
    FillingLive(s);
    AppendLog(s.h.log, msg);
    LayoutAppend(s.h.log, s.h.rx, msg);
    ContentsAppend(|s.m.info|, s.m.available, s.m.mem, s.h.order, s.h.log, s.h.stage, s.h.released, msg);
    MarkAppend(s.h.log, msg, s.h.txMark, s.m.txPos);
    ReceivingAppend(s.m.snap, s.m.rxPos, s.m.rxSlot, s.m.parser, s.m.txPos, s.h.order, s.h.log, s.h.stage, s.h.snapMark, s.h.rx, s.h.at, msg);
    CountingAppend(s.m.mem, s.m.info, s.h.order, s.h.log, s.h.stage, s.h.rx, s.h.at, s.m.rxSlot.Some?, s.m.parser.Claimed?, msg);
    ScansAppend(s.m.rc, |s.m.info|, s.m.available, s.h.order, s.h.log, s.h.released, s.h.scanAt, msg);
    DeliveredAppend(s.m.tx, s.h.log, s.h.sent, s.h.parsed, s.h.rx, s.h.at, msg, newTx);
  }

  /** A message that needs no padding: it fits the slot, or starts a new one. */
  lemma ReserveKeeps(s: State)
    requires Sound(s) && s.m.tx.Admitted? && Stride(s.m.tx.msg) <= Space(s.m.localPos)
    ensures Keeps(s, DoSend)
  {
    hide Contents, Counting, Scans, Delivered, Places, RingHolds, Receiving, Layout, MarkOk, Append, Written, OncePlaced, Offset, Filled,
      Stride;
    StrideFits(s.m.tx.msg);
    RoomLeft(s.h.log, s.h.rx, s.m.localPos, Stride(s.m.tx.msg));
    var t := Step(s, DoSend);
    DeliveredMove(s.m.tx, s.h.log, s.h.sent, s.h.parsed, s.h.rx, s.h.at, t.m.tx);
  }

  /** A new slot is taken: the entry read is the next slot number's, and it was available. */
  lemma TakeKeeps(s: State, pos: nat)
    requires Sound(s) && s.m.sem > 0 && (s.m.tx.Seeking? || s.m.tx.Blocked?) && pos == s.m.tx.pos
    ensures Keeps(s, DoSend)
  {
    hide Contents, Counting, Scans, Delivered, RingHolds, Receiving, MarkOk, Append, Written, OncePlaced, Offset, Stride, Layout,
      Places, WithinQuotas, Filled;
    var log := s.h.log;
    TakeSound(s);
    TakeSending(s, pos);
    TakeHistory(s);
    StrideFits(s.m.tx.msg);
    DeliveredTake(s.m.tx, log, s.h.sent, s.h.parsed, s.h.rx, s.h.at, Reserved(s.m.tx.msg));
    QuotaTake(s.m.quotas, s.m.localPos, s.m.tx);
  }

  lemma QuotaTake(q: Quotas, localPos: nat, tx: Sender)
    requires WithinQuotas(q, localPos, tx) && (tx.Seeking? || tx.Blocked?)
    ensures WithinQuotas(q, tx.pos + Stride(tx.msg), Reserved(tx.msg))
  {
    hide Stride;
  }

  lemma TakeHistory(s: State)
    requires Sound(s) && |s.h.log| < s.m.available && Filled(s.h.log) == SLOT_SIZE * |s.h.log|
    ensures var log := s.h.log + [[]]; var stage := s.h.stage + [Live];
      && Places(|s.m.info|, s.m.available, s.h.order, stage, s.h.released)
      && Layout(log, s.h.rx) && Filled(log) == Filled(s.h.log) && PortsOk(log)
      && Contents(s.m.mem, s.h.order, log, stage)
      && MarkOk(log, s.h.txMark, s.m.txPos)
      && Receiving(s.m.snap, s.m.rxPos, s.m.rxSlot, s.m.parser, s.m.txPos, s.h.order, log, stage, s.h.snapMark, s.h.rx, s.h.at)
  {
    hide Counting, Scans, Delivered, RingHolds, Receiving, MarkOk, OncePlaced, Offset, Layout, Filled, WithinQuotas, Contents;
    ReceiverBehind(s);
    LayoutTake(s.h.log, s.h.rx);
    PlacesTake(|s.m.info|, s.m.available, s.h.order, s.h.stage, s.h.released);
    ContentsTake(s.m.mem, s.h.order, s.h.log, s.h.stage);
    MarkTake(s.h.log, s.h.txMark, s.m.txPos);
    ReceivingTake(s.m.snap, s.m.rxPos, s.m.rxSlot, s.m.parser, s.m.txPos, s.h.order, s.h.log, s.h.stage, s.h.snapMark, s.h.rx, s.h.at);
  }

  /** The claims and the rescan do not see the new slot. */
  lemma TakeSound(s: State)
    requires Sound(s) && |s.h.log| < s.m.available
    ensures var log := s.h.log + [[]]; var stage := s.h.stage + [Live];
      && Counting(s.m.mem, s.m.info, s.h.order, log, stage, s.h.rx, s.h.at, s.m.rxSlot.Some?, s.m.parser.Claimed?)
      && Scans(s.m.rc, |s.m.info|, s.m.available, s.h.order, log, s.h.released, s.h.scanAt)
  {
    hide Contents, Counting, Scans, Delivered, RingHolds, Receiving, MarkOk, OncePlaced, Offset, Layout, Filled, WithinQuotas;
    ReceiverBehind(s);
    CountingTake(s.m.mem, s.m.info, s.h.order, s.h.log, s.h.stage, s.h.rx, s.h.at, s.m.rxSlot.Some?, s.m.parser.Claimed?);
    ScansTake(s);
  }

  lemma TakeSending(s: State, pos: nat)
    requires Sound(s) && s.m.sem > 0 && (s.m.tx.Seeking? || s.m.tx.Blocked?) && pos == s.m.tx.pos
    ensures |s.h.log| < s.m.available && pos == Filled(s.h.log) == SLOT_SIZE * |s.h.log|
    ensures TakeSafe(s.m, pos) && |s.h.log| < |s.h.order| && s.m.ring[pos / SLOT_SIZE % RING] == s.h.order[|s.h.log|]
  {
    hide Contents, Counting, Scans, Delivered, RingHolds, Receiving, MarkOk, OncePlaced, Offset, Stride, Layout, WithinQuotas;
    StrideFits(s.m.tx.msg);
    RoomLeft(s.h.log, s.h.rx, pos, Stride(s.m.tx.msg));
    ReceiverBehind(s);
    RingReads(|s.m.info|, s.m.available, s.h.order, s.h.stage, s.h.released, s.m.ring, s.h.rx);
    RingShape(s.m.ring, s.h.order);
  }

  lemma RingShape(ring: seq<nat>, order: seq<nat>)
    requires RingHolds(ring, order)
    ensures |ring| == RING
  {
  }

  lemma ReceiverBehind(s: State)
    requires Sound(s)
    ensures s.h.rx <= |s.h.stage| == |s.h.log| && forall k :: 0 <= k < |s.h.stage| && k >= s.h.rx ==> s.h.stage[k].Live?
    ensures s.m.rxSlot.Some? ==> s.h.rx < |s.h.log|
    ensures |s.h.log| <= |s.h.order|
    ensures forall k :: 0 <= k < |s.h.order| ==> s.h.order[k] < |s.m.mem|
  {
    hide Contents, Counting, Scans, Delivered, RingHolds, MarkOk, Append, Written, OncePlaced, Offset, Layout, Sending, WithinQuotas;
  }

  lemma ScansTake(s: State)
    requires Sound(s)
    ensures Scans(s.m.rc, |s.m.info|, s.m.available, s.h.order, s.h.log + [[]], s.h.released, s.h.scanAt)
    ensures s.m.rc.Resting? || s.m.rc.Raised? || Rescanned(s.h.released, s.m.available, |s.m.info|) < |s.h.log|
  {
    hide Contents, Counting, Delivered, RingHolds, MarkOk, Append, Written, OncePlaced, Offset, Layout, Sending, WithinQuotas;
  }

  /** Nothing free: publish up to the slot boundary. */
  lemma FlushKeeps(s: State)
    requires Sound(s) && s.m.tx.Seeking? && s.m.sem == 0
    ensures Keeps(s, DoSend)
  {
    hide Contents, Counting, Scans, Delivered, Places, RingHolds, Layout, Append, Written, OncePlaced, Offset, Stride, Filled, MarkOk;
    var t := Step(s, DoSend);
    MarkEnd(s.h.log);
    DeliveredMove(s.m.tx, s.h.log, s.h.sent, s.h.parsed, s.h.rx, s.h.at, t.m.tx);
  }

  lemma GiveUpKeeps(s: State)
    requires Sound(s) && s.m.tx.Blocked?
    ensures Keeps(s, DoGiveUp)
  {
    hide Contents, Counting, Scans, Delivered, Places, RingHolds, Receiving, Layout, MarkOk, Append, Written, OncePlaced, Offset, Filled, Stride;
    DeliveredMove(s.m.tx, s.h.log, s.h.sent, s.h.parsed, s.h.rx, s.h.at, Idle);
  }

  lemma AdmitKeeps(s: State, msg: Msg)
    requires Sound(s) && AdmitGuard(s.m, msg)
    ensures Keeps(s, DoAdmit(msg))
  {
    hide Contents, Counting, Scans, Delivered, Places, RingHolds, Receiving, Layout, MarkOk, Append, Written, OncePlaced, Offset, Filled, Stride;
    DeliveredMove(s.m.tx, s.h.log, s.h.sent, s.h.parsed, s.h.rx, s.h.at, Admitted(msg));
  }

  /** The message is stored and counted, in the slot the quota check predicted. */
  lemma CommitKeeps(s: State)
    requires Sound(s) && s.m.tx.Reserved?
    ensures Keeps(s, DoSend)
  {
    hide Contents, Counting, Scans, Delivered, Places, RingHolds, Receiving, Layout, MarkOk, Append, Written, OncePlaced, Offset,
      Stride, Counted, WithinQuotas;
    var log := s.h.log;
    var msg := s.m.tx.msg;
    StrideFits(msg);
    FillingLive(s);
    QuotasShape(s);
    assert (s.m.localPos - 1) / SLOT_SIZE == |log| - 1;
    assert (s.m.localPos - Stride(msg)) % SLOT_SIZE == End(log[|log| - 1]);
    AppendMessage(s, msg, Stored(msg));
    AppendLog(log, msg);
    QuotaCommit(s);
  }

  lemma QuotasShape(s: State)
    requires Sound(s)
    ensures QuotasShaped(s.m.quotas)
  {
    hide Contents, Counting, Scans, Delivered, Places, RingHolds, Receiving, Layout, MarkOk, Sending;
  }

  lemma QuotaCommit(s: State)
    requires Sound(s) && s.m.tx.Reserved?
    ensures var q := s.m.quotas;
      QuotasShaped(q) && (s.m.tx.msg.Data? ==> s.m.tx.msg.src < PORTS)
      && WithinQuotas(if s.m.tx.msg.Data? then Counted(q, s.m.tx.msg.src, SlotNumber(s.m.localPos - 1)) else q,
                      s.m.localPos, Stored(s.m.tx.msg))
  {
    hide Contents, Counting, Scans, Delivered, Places, RingHolds, Receiving, Layout, MarkOk, Append, Written, OncePlaced, Offset, Stride;
  }

  lemma PublishKeeps(s: State)
    requires Sound(s) && s.m.tx.Stored?
    ensures Keeps(s, DoSend)
  {
    hide Contents, Counting, Scans, Places, RingHolds, Layout, Append, Written, OncePlaced, Offset, Filled, Stride, MarkOk;
    MarkEnd(s.h.log);
  }

  // ---------------------------------------------------------------- adding a service

  lemma PositionBounds(s: State)
    requires Sound(s) && |s.h.log| > 0
    ensures SLOT_SIZE * (|s.h.log| - 1) <= s.m.localPos <= SLOT_SIZE * |s.h.log|
    ensures s.m.localPos < SLOT_SIZE * |s.h.log| ==> s.h.rx < |s.h.log|
    ensures |s.h.stage| == |s.h.log|
  {
    hide Contents, Counting, Scans, Delivered, RingHolds, MarkOk, OncePlaced, Offset, Stride, WithinQuotas;
    assert End(s.h.log[|s.h.log| - 1]) <= SLOT_SIZE;
    if !s.m.tx.Reserved? {
      FilledSpace(s.h.log, s.h.rx);
    }
  }

  /** Adding a service while others send and slots come back. */
  lemma AddKeeps(s: State, p: nat)
    requires Sound(s) && AddGuard(s.m, p)
    ensures Keeps(s, DoAdd(p))
  {
    hide Contents, Counting, Scans, Delivered, Places, RingHolds, Receiving, Layout, MarkOk, Append, Written, OncePlaced, Offset, Stride, Sending,
      Rescanned, SlotNumber;
  }

  lemma EmptyPosition(s: State)
    requires Sound(s) && |s.h.log| == 0
    ensures s.m.localPos == 0
  {
    hide Contents, Counting, Scans, Delivered, Places, RingHolds, Receiving, Layout, MarkOk, WithinQuotas;
  }
}
