/** The quota counters are exact as long as no slot number is taken for another. */
module SlotExact {
  import opened Basics
  import opened SlotMachine
  import opened SlotHistory
  import opened SlotLedger
  import opened SlotAccounts
  import opened SlotRuns
  import opened SlotSteps

  /** The step leaves the counters exact. */
  ghost predicate StaysExact(s: State, a: Action) {
    Guard(s.m, a) && Safe(s.m, a) && Exact(Step(s, a))
  }

  // ---------------------------------------------------------------- the sender's steps

  /** Steps of the sender that keep the log and the counters. */
  lemma MoveExact(s: State, t: State)
    requires Exact(s) && t.m.localPos >= s.m.localPos
    requires t.h.log == s.h.log && t.h.stage == s.h.stage && t.h.released == s.h.released && t.h.scanAt == s.h.scanAt
    requires t.h.lastTx == s.h.lastTx && t.h.lastData == s.h.lastData
    requires t.m.quotas == s.m.quotas && t.m.rc == s.m.rc && t.m.available == s.m.available && |t.m.info| == |s.m.info|
    requires !t.m.tx.Idle? ==> !s.m.tx.Idle? && t.m.tx.msg == s.m.tx.msg
    requires t.m.tx.Reserved? ==> s.m.tx.Reserved? || s.m.localPos < SLOT_SIZE * |s.h.log|
    ensures Exact(t)
  {
    hide Accounts, Remembered;
    RememberMove(s.m.quotas, s.h.lastTx, s.h.lastData, s.m.localPos, s.m.tx, s.h.log, t.m.localPos, t.m.tx);
  }

  lemma PadExact(s: State)
    requires Sound(s) && Exact(s) && s.m.tx.Admitted? && Stride(s.m.tx.msg) > Space(s.m.localPos) && SendSafe(s.m)
    ensures StaysExact(s, DoSend)
  {
    hide Contents, Counting, Scans, Delivered, Places, RingHolds, Receiving, Layout, MarkOk, Append, Written, OncePlaced, Offset, Filled,
      Stride, WithinQuotas, Accounts, Remembered;
    StrideFits(s.m.tx.msg);
    RoomLeft(s.h.log, s.h.rx, s.m.localPos, Stride(s.m.tx.msg));
    FillingLive(s);
    var pad := Padding(Space(s.m.localPos) - HEADER_SIZE);
    AccountsAppend(s.m.quotas, s.m.rc, |s.m.info|, s.m.available, s.h.log, s.h.stage, s.h.released, s.h.scanAt, pad);
    RememberAppend(s.m.quotas, s.h.lastTx, s.h.lastData, s.m.localPos, s.m.tx, s.h.log, pad);
    RememberMove(s.m.quotas, s.h.lastTx, s.h.lastData, s.m.localPos, s.m.tx, Append(s.h.log, pad), s.m.localPos, Step(s, DoSend).m.tx);
  }

  lemma ReserveExact(s: State)
    requires Sound(s) && Exact(s) && s.m.tx.Admitted? && Stride(s.m.tx.msg) <= Space(s.m.localPos) && SendSafe(s.m)
    ensures StaysExact(s, DoSend)
  {
    hide Contents, Counting, Scans, Delivered, Places, RingHolds, Receiving, Layout, MarkOk, OncePlaced, Offset, Filled, Stride, WithinQuotas, Exact;
    StrideFits(s.m.tx.msg);
    RoomLeft(s.h.log, s.h.rx, s.m.localPos, Stride(s.m.tx.msg));
    MoveExact(s, Step(s, DoSend));
  }

  lemma TakeExact(s: State)
    requires Sound(s) && Exact(s) && s.m.sem > 0 && (s.m.tx.Seeking? || s.m.tx.Blocked?) && SendSafe(s.m)
    ensures StaysExact(s, DoSend)
  {
    hide Contents, Counting, Scans, Delivered, RingHolds, Receiving, MarkOk, OncePlaced, Offset, Stride, Layout, Places, WithinQuotas, Accounts, Remembered, Filled;
    ScansTake(s);
    AccountsTake(s.m.quotas, s.m.rc, |s.m.info|, s.m.available, s.h.log, s.h.stage, s.h.released, s.h.scanAt);
    RememberTake(s.m.quotas, s.h.lastTx, s.h.lastData, s.m.localPos, s.m.tx, s.h.log, Step(s, DoSend).m.localPos);
  }

  /** A DATA message is stored in the slot being filled, and its number is known there. */
  lemma CommitPlace(s: State)
    requires Sound(s) && s.m.tx.Reserved?
    ensures SendSafe(s.m) && |s.h.log| > 0 && s.m.localPos > 0 && (s.m.localPos - 1) / SLOT_SIZE == |s.h.log| - 1
    ensures SlotNumber(s.m.localPos - 1) == (|s.h.log| - 1) % SLOT_NUMBERS
    ensures |s.h.stage| == |s.h.log| && s.h.stage[|s.h.log| - 1].Live? && (s.m.tx.msg.Data? ==> s.m.tx.msg.src < PORTS)
    ensures s.m.rc.Scanning? || s.m.rc.Scanned? ==> Rescanned(s.h.released, s.m.available, |s.m.info|) != |s.h.log| - 1
  {
    hide Contents, Counting, Scans, Delivered, Places, RingHolds, Receiving, Layout, MarkOk, OncePlaced, Offset, Stride, WithinQuotas;
    FillingLive(s);
    QuotasShape(s);
  }

  lemma CommitControlExact(s: State)
    requires Sound(s) && Exact(s) && s.m.tx.Reserved? && !s.m.tx.msg.Data? && SendSafe(s.m)
    ensures StaysExact(s, DoSend)
  {
    hide Sound, Accounts, Remembered, Append, Written, Stride;
    CommitPlace(s);
    var msg := s.m.tx.msg;
    AccountsAppend(s.m.quotas, s.m.rc, |s.m.info|, s.m.available, s.h.log, s.h.stage, s.h.released, s.h.scanAt, msg);
    RememberAppend(s.m.quotas, s.h.lastTx, s.h.lastData, s.m.localPos, s.m.tx, s.h.log, msg);
    RememberMove(s.m.quotas, s.h.lastTx, s.h.lastData, s.m.localPos, s.m.tx, Append(s.h.log, msg), s.m.localPos, Stored(msg));
  }

  /** Counting a DATA message leaves the counters exact if and only if neither slot number it is
      compared with is taken for the current one: the branch guards of the count see the truth. */
  lemma CommitExactExactly(s: State)
    requires Sound(s) && Exact(s) && s.m.tx.Reserved? && s.m.tx.msg.Data? && SendSafe(s.m)
    ensures StaysExact(s, DoSend) <==> Unaliased(s, DoSend)
  {
    hide Sound, Accounts, Remembered, Append, Written, Stride, Counted, Apart, SlotNumber;
    CommitPlace(s);
    SoundLasts(s);
    var msg := s.m.tx.msg;
    var k := |s.h.log| - 1;
    RememberTells(s.m.quotas, s.h.lastTx, s.h.lastData, s.m.localPos, s.m.tx, s.h.log);
    RememberCommit(s.m.quotas, s.h.lastTx, s.h.lastData, s.m.localPos, s.m.tx, s.h.log);
    if Unaliased(s, DoSend) {
      AccountsCommit(s.m.quotas, s.m.rc, |s.m.info|, s.m.available, s.h.log, s.h.stage, s.h.released, s.h.scanAt, msg, k % SLOT_NUMBERS);
    } else {
      AccountsMissed(s.m.quotas, s.m.rc, |s.m.info|, s.m.available, s.h.log, s.h.stage, s.h.released, s.h.scanAt, msg, k % SLOT_NUMBERS);
    }
  }

  lemma SoundLasts(s: State)
    requires Sound(s)
    ensures |s.h.lastTx| == PORTS
  {
    hide Contents, Counting, Scans, Delivered, Places, RingHolds, Receiving, Layout, MarkOk, WithinQuotas, Sending;
  }

  /** When a comparison says the wrong thing about the slot, some counter is off afterwards. */
  lemma AccountsMissed(q: Quotas, rc: Recycler, n: nat, available: nat, log: seq<seq<Msg>>, stage: seq<Stage>,
                       released: seq<nat>, scanAt: nat, m: Msg, k: nat)
    requires Accounts(q, rc, n, available, log, stage, released, scanAt) && m.Data? && m.src < PORTS
    requires |log| > 0 && stage[|log| - 1].Live?
    requires Rescanned(released, available, n) != |log| - 1 || rc.Resting? || rc.Raised?
    requires !((q.previousData == k <==> Weigh(log[|log| - 1], AnyData) > 0) && (q.previousTx[m.src] == k <==> Weigh(log[|log| - 1], Slots(m.src)) > 0))
    ensures !Accounts(Counted(q, m.src, k), rc, n, available, Append(log, m), stage, released, scanAt)
  {
    hide InUse, Weigh;
    AppendLog(log, m);
    var r := Counted(q, m.src, k);
    var w := if q.previousData == k <==> Weigh(log[|log| - 1], AnyData) > 0 then Slots(m.src) else AnyData;
    InUseAppend(log, stage, m, w);
    WeighAppend(log[|log| - 1], m, w);
    WeighBound(log[|log| - 1], w);
    var f := Rescanned(released, available, n);
    assert LogAt(Append(log, m), f) == LogAt(log, f) || rc.Resting? || rc.Raised?;
    assert Counter(q, w) + Credit(rc, LogAt(log, f), scanAt, w) == InUse(log, stage, w);
    assert Counter(r, w) + Credit(rc, LogAt(Append(log, m), f), scanAt, w) != InUse(Append(log, m), stage, w);
  }

  lemma SendExact(s: State)
    requires Sound(s) && Exact(s) && SendGuard(s.m) && SendSafe(s.m) && Unaliased(s, DoSend)
    ensures StaysExact(s, DoSend)
  {
    hide Sound, Exact, Unaliased, SendSafe, Step, StaysExact;
    match s.m.tx
    case Admitted(msg) => if Stride(msg) > Space(s.m.localPos) { PadExact(s); } else { ReserveExact(s); }
    case Seeking(_, _) => if s.m.sem > 0 { TakeExact(s); } else { FlushExact(s); }
    case Blocked(_, _) => TakeExact(s);
    case Reserved(msg) => if msg.Data? { CommitExactExactly(s); } else { CommitControlExact(s); }
    case Stored(_) => PublishExact(s);
  }

  lemma FlushExact(s: State)
    requires Sound(s) && Exact(s) && s.m.tx.Seeking? && s.m.sem == 0 && SendSafe(s.m)
    ensures StaysExact(s, DoSend)
  {
    hide Contents, Counting, Scans, Delivered, Places, RingHolds, Receiving, Layout, MarkOk, OncePlaced, Offset, Filled, Stride, WithinQuotas, Exact;
    MoveExact(s, Step(s, DoSend));
  }

  lemma PublishExact(s: State)
    requires Sound(s) && Exact(s) && s.m.tx.Stored? && SendSafe(s.m)
    ensures StaysExact(s, DoSend)
  {
    hide Sound, Exact;
    MoveExact(s, Step(s, DoSend));
  }

  lemma GiveUpExact(s: State)
    requires Exact(s) && s.m.tx.Blocked?
    ensures StaysExact(s, DoGiveUp)
  {
    hide Exact;
    MoveExact(s, Step(s, DoGiveUp));
  }

  lemma AdmitExact(s: State, msg: Msg)
    requires Exact(s) && AdmitGuard(s.m, msg)
    ensures StaysExact(s, DoAdmit(msg))
  {
    hide Accounts, Remembered;
    RememberAdmit(s.m.quotas, s.h.lastTx, s.h.lastData, s.m.localPos, s.h.log, msg);
  }

  lemma AccountsSame(q: Quotas, r: Quotas, rc: Recycler, n: nat, available: nat, log: seq<seq<Msg>>, stage: seq<Stage>,
                     released: seq<nat>, scanAt: nat)
    requires Accounts(q, rc, n, available, log, stage, released, scanAt) && QuotasShaped(r)
    requires r.messageUse == q.messageUse && r.slotUse == q.slotUse && r.dataUse == q.dataUse
    ensures Accounts(r, rc, n, available, log, stage, released, scanAt)
  {
    hide InUse, Credit;
    forall w | ValidMeasure(w) ensures Counter(r, w) == Counter(q, w) {
    }
  }

  lemma AddExact(s: State, p: nat)
    requires Sound(s) && Exact(s) && AddGuard(s.m, p)
    ensures StaysExact(s, DoAdd(p))
  {
    hide Contents, Counting, Accounts, Scans, Delivered, Places, RingHolds, Receiving, Layout, MarkOk, Append, Written, OncePlaced, Offset, Stride, Sending,
      Remembered, Rescanned, SlotNumber, WithinQuotas;
    var log := s.h.log;
    var r := AddService(s.m, p).quotas;
    AccountsSame(s.m.quotas, r, s.m.rc, |s.m.info|, s.m.available, log, s.h.stage, s.h.released, s.h.scanAt);
    if p !in s.m.quotas.open {
      ClosedUnused(s.m.quotas, s.m.rc, s.h.lastTx, s.h.lastData, s.m.localPos, s.m.tx, |s.m.info|, s.m.available, log, s.h.stage, s.h.released, s.h.scanAt, p);
    }
    ReceiverBehind(s);
    if |log| > 0 {
      PositionBounds(s);
      if s.m.rc.Scanning? || s.m.rc.Scanned? {
        RescannedWaits(s);
      }
      if s.m.quotas.slotUse[p] == 0 && s.m.localPos < SLOT_SIZE * |log| {
        UnusedPort(s.m.quotas, s.m.rc, |s.m.info|, s.m.available, s.h.order, log, s.h.stage, s.h.released, s.h.scanAt, p, |log| - 1);
      }
    } else {
      EmptyPosition(s);
    }
    RememberAdd(s.m, s.h, p);
  }

  // ---------------------------------------------------------------- the receiver's steps

  /** A slot that comes back is still in use until its rescan. */
  lemma GiveBackExact(s: State, t: State, k: nat)
    requires Sound(s) && Exact(s) && k < |s.h.stage| && s.h.stage[k].Live?
    requires t.h.log == s.h.log && t.h.stage == s.h.stage[k := Waiting] && t.h.released == s.h.released + [k] && t.h.scanAt == s.h.scanAt
    requires t.h.lastTx == s.h.lastTx && t.h.lastData == s.h.lastData && t.m.localPos == s.m.localPos && t.m.tx == s.m.tx
    requires t.m.quotas == s.m.quotas && t.m.rc == s.m.rc && t.m.available == s.m.available && |t.m.info| == |s.m.info|
    ensures Exact(t)
  {
    hide Contents, Counting, Accounts, Delivered, Places, RingHolds, Receiving, Layout, MarkOk, OncePlaced, Offset, Stride, Sending, Remembered, WithinQuotas;
    AccountsGiveBack(s.m.quotas, s.m.rc, |s.m.info|, s.m.available, s.h.log, s.h.stage, s.h.released, s.h.scanAt, k);
  }

  /** Steps of the receiver that give no slot back do not touch the accounts. */
  lemma SameExact(s: State, t: State)
    requires Exact(s)
    requires t.h.log == s.h.log && t.h.stage == s.h.stage && t.h.released == s.h.released && t.h.scanAt == s.h.scanAt
    requires t.h.lastTx == s.h.lastTx && t.h.lastData == s.h.lastData && t.m.localPos == s.m.localPos && t.m.tx == s.m.tx
    requires t.m.quotas == s.m.quotas && t.m.rc == s.m.rc && t.m.available == s.m.available && |t.m.info| == |s.m.info|
    ensures Exact(t)
  {
    hide Accounts, Remembered;
  }

  lemma ReceiveExact(s: State, claim: bool)
    requires Sound(s) && Exact(s) && ReceiveSafe(s.m)
    ensures StaysExact(s, DoReceive(claim))
  {
    hide Sound, Exact, GiveBack, Stride;
    if s.m.parser.Advanced? && s.m.rxPos % SLOT_SIZE == 0 && LastHolder(s.m, s.m.rxSlot.value) {
      FinishExact(s, claim);
    } else {
      SameExact(s, Step(s, DoReceive(claim)));
    }
  }

  lemma FinishExact(s: State, claim: bool)
    requires Sound(s) && Exact(s) && ReceiveSafe(s.m)
    requires s.m.parser.Advanced? && s.m.rxPos % SLOT_SIZE == 0 && LastHolder(s.m, s.m.rxSlot.value)
    ensures StaysExact(s, DoReceive(claim))
  {
    hide Sound, Exact, GiveBack, Stride;
    SlotEnd(s);
    LiveHere(s);
    GiveBackReads(s, s.h.rx);
    GiveBackExact(s, Step(s, DoReceive(claim)), s.h.rx);
  }

  lemma LiveHere(s: State)
    requires Sound(s) && s.m.rxSlot.Some?
    ensures s.h.rx < |s.h.stage| && s.h.stage[s.h.rx].Live? && s.h.rx < |s.h.order| && s.m.rxSlot.value == s.h.order[s.h.rx]
  {
    hide Contents, Counting, Delivered, Places, RingHolds, Layout, MarkOk, OncePlaced, Offset, Stride, Sending, WithinQuotas, Scans;
  }

  lemma ReleaseExact(s: State, c: nat, x: nat)
    requires Sound(s) && Exact(s) && ReleaseGuard(s.m, c, x)
    ensures StaysExact(s, DoRelease(c, x))
  {
    hide Sound, Exact, GiveBack;
    if s.m.mem[c][x].claimed && LastHolder(s.m, c) {
      LastReleaseExact(s, c, x);
    } else {
      SameExact(s, Step(s, DoRelease(c, x)));
    }
  }

  lemma LastReleaseExact(s: State, c: nat, x: nat)
    requires Sound(s) && Exact(s) && ReleaseGuard(s.m, c, x) && s.m.mem[c][x].claimed && LastHolder(s.m, c)
    ensures StaysExact(s, DoRelease(c, x))
  {
    hide Sound, Exact, GiveBack;
    var k := ClaimedBy(s, c, x);
    GiveBackReads(s, k);
    GiveBackExact(s, Step(s, DoRelease(c, x)), k);
  }

  lemma ClaimedBy(s: State, c: nat, x: nat) returns (k: nat)
    requires Sound(s) && ReleaseGuard(s.m, c, x) && s.m.mem[c][x].claimed
    ensures k < |s.h.stage| && s.h.stage[k].Live? && k < |s.h.order| && s.h.order[k] == c
  {
    hide Contents, Delivered, Places, RingHolds, Layout, MarkOk, OncePlaced, Offset, Stride, Sending, WithinQuotas, Scans, Receiving, Claims, HandedOut;
    assert HasClaimant(s.h.order, s.h.log, s.h.stage, s.h.rx, s.h.at, s.m.rxSlot.Some?, s.m.parser.Claimed?, c, x);
    k :| Claimant(s.h.order, s.h.log, s.h.stage, s.h.rx, s.h.at, s.m.rxSlot.Some?, s.m.parser.Claimed?, c, x, k);
  }

  // ---------------------------------------------------------------- the rescan

  /** With exact counters no counter the rescan lowers is zero. */
  lemma ExactCovers(s: State)
    requires Sound(s) && Exact(s) && RecycleSafe(s.m)
    ensures CountersCover(s.m)
  {
    hide Contents, Counting, Accounts, Delivered, Places, RingHolds, Receiving, Layout, MarkOk, OncePlaced, Offset, Stride, Sending, Remembered, WithinQuotas,
      Weigh;
    if s.m.rc.Scanning? {
      RescannedWaits(s);
      ScanReads(s);
      RescanCovered(s.m.quotas, s.m.rc, |s.m.info|, s.m.available, s.h.order, s.h.log, s.h.stage, s.h.released, s.h.scanAt);
    }
  }

  lemma ScanExact(s: State)
    requires Sound(s) && Exact(s) && s.m.rc.Scanning? && s.m.rc.pos < SLOT_SIZE && RecycleSafe(s.m)
    ensures StaysExact(s, DoRecycle)
  {
    hide Contents, Counting, Accounts, Delivered, Places, RingHolds, Receiving, Layout, MarkOk, OncePlaced, Offset, Stride, Sending, Remembered, WithinQuotas,
      Weigh, Scans, Scan, RecycleSafe, CountersCover;
    ScanReads(s);
    ExactCovers(s);
    ScanTouches(s.m);
    AccountsScan(s.m, |s.m.info|, s.h.order, s.h.log, s.h.stage, s.h.released, s.h.scanAt);
    RememberCounts(s.m.quotas, Scan(s.m).quotas, s.h.lastTx, s.h.lastData, s.m.localPos, s.m.tx, s.h.log);
  }

  lemma ScanEndExact(s: State)
    requires Sound(s) && Exact(s) && s.m.rc.Scanning? && s.m.rc.pos >= SLOT_SIZE && RecycleSafe(s.m)
    ensures StaysExact(s, DoRecycle)
  {
    hide Contents, Counting, Accounts, Delivered, Places, RingHolds, Receiving, Layout, MarkOk, OncePlaced, Offset, Stride, Sending, Remembered, WithinQuotas,
      Weigh, Scans;
    ScanReads(s);
    ExactCovers(s);
    var r := Step(s, DoRecycle).m.quotas;
    AccountsScanned(s.m.quotas, s.m.rc, |s.m.info|, s.m.available, s.h.order, s.h.log, s.h.stage, s.h.released, s.h.scanAt);
    RememberCounts(s.m.quotas, r, s.h.lastTx, s.h.lastData, s.m.localPos, s.m.tx, s.h.log);
  }

  lemma RecycleExact(s: State)
    requires Sound(s) && Exact(s) && RecycleGuard(s.m) && RecycleSafe(s.m)
    ensures StaysExact(s, DoRecycle)
  {
    hide Sound, Accounts, Remembered, Scan, Rescanned;
    match s.m.rc
    case Resting => AccountsFetch(s.m.quotas, s.m.ring[s.m.available % RING], |s.m.info|, s.m.available, s.h.log, s.h.stage, s.h.released, s.h.scanAt);
    case Scanning(_, pos, _, _, _) => if pos < SLOT_SIZE { ScanExact(s); } else { ScanEndExact(s); }
    case Scanned =>
      RescannedWaits(s);
      ReceiverBehind(s);
      AccountsRaised(s.m.quotas, |s.m.info|, s.m.available, s.h.log, s.h.stage, s.h.released, s.h.scanAt);
    case Raised => UpExact(s);
  }

  lemma UpExact(s: State)
    requires Exact(s) && s.m.rc.Raised? && RecycleSafe(s.m)
    ensures StaysExact(s, DoRecycle)
  {
    hide Remembered, InUse, Weigh;
  }

  // ---------------------------------------------------------------- what a refusal for quota means

  /** The true number of the slot a message would end in. */
  function EndsIn(localPos: nat, msg: Msg): (k: nat) {
    (localPos + Stride(msg) - 1) / SLOT_SIZE
  }

  /** The port's DATA messages in use are as many as its quota, or the message would add a slot the
      port has no DATA in while the slots it uses are as many as its quota. */
  ghost predicate TrulyOver(s: State, msg: Msg)
    requires msg.Data?
  {
    && QuotasShaped(s.m.quotas) && msg.src < PORTS && |s.h.log| == |s.h.stage|
    && (InUse(s.h.log, s.h.stage, Messages(msg.src)) == s.m.quotas.messageQuota[msg.src]
        || (Weigh(LogAt(s.h.log, EndsIn(s.m.localPos, msg)), Slots(msg.src)) == 0
            && InUse(s.h.log, s.h.stage, Slots(msg.src)) == s.m.quotas.slotQuota[msg.src]))
  }

  /** The counters tell the truth to this sender: they are exact, no rescan is under way, and the
      slot number remembered for its port is not taken for the one it would write to. */
  ghost predicate Truthful(s: State, msg: Msg) {
    && Exact(s) && (s.m.rc.Resting? || s.m.rc.Raised?) && msg.Data? && msg.src < |s.h.lastTx|
    && Apart(s.h.lastTx[msg.src], EndsIn(s.m.localPos, msg))
  }

  /** A message is over quota exactly when one of the two bounds is reached in what is truly in use. */
  lemma OverQuotaExactly(s: State, msg: Msg)
    requires Sound(s) && s.m.tx.Idle? && Truthful(s, msg) && Sendable(msg) && msg.src < PORTS && msg.src in s.m.quotas.open
    ensures QuotasShaped(s.m.quotas)
    ensures !WithinQuota(s.m.quotas, s.m.localPos, msg) <==> TrulyOver(s, msg)
  {
    hide Contents, Counting, Delivered, Places, RingHolds, Receiving, MarkOk, OncePlaced, Offset, Stride, Sending, WithinQuotas, Scans, InUse, Weigh,
      Layout, Remembered;
    var p := msg.src;
    StrideFits(msg);
    SenderAtEnd(s, msg);
    PortTells(s.m.quotas, s.h.lastTx, s.h.lastData, s.m.localPos, s.m.tx, s.h.log, p, EndsIn(s.m.localPos, msg));
    assert Counter(s.m.quotas, Messages(p)) == InUse(s.h.log, s.h.stage, Messages(p));
    assert Counter(s.m.quotas, Slots(p)) == InUse(s.h.log, s.h.stage, Slots(p));
  }

  /** A sender with nothing in hand would write to the slot being filled or the one behind it. */
  lemma SenderAtEnd(s: State, msg: Msg)
    requires Sound(s) && s.m.tx.Idle? && 0 < Stride(msg) <= SLOT_SIZE
    ensures var k := EndsIn(s.m.localPos, msg);
      k >= |s.h.log| || (k == |s.h.log| - 1 && s.m.localPos < SLOT_SIZE * |s.h.log|)
  {
    hide Contents, Counting, Delivered, Places, RingHolds, Receiving, MarkOk, OncePlaced, Offset, Stride, WithinQuotas, Scans;
    var log := s.h.log;
    if |log| > 0 {
      assert SLOT_SIZE * (|log| - 1) <= s.m.localPos <= SLOT_SIZE * |log|;
    }
  }

  // ---------------------------------------------------------------- every step

  /** Every step that takes no slot number for another keeps the counters exact. */
  lemma EveryStepExact(s: State, a: Action)
    requires Sound(s) && Exact(s) && Guard(s.m, a) && Safe(s.m, a) && Unaliased(s, a)
    ensures StaysExact(s, a)
  {
    hide Sound, Exact, Unaliased, SendSafe, ReceiveSafe, RecycleSafe, Step, StaysExact;
    match a
    case DoAdd(p) => AddExact(s, p);
    case DoAdmit(msg) => AdmitExact(s, msg);
    case DoGiveUp => GiveUpExact(s);
    case DoDefer => DeferExact(s);
    case DoRelease(c, x) => ReleaseExact(s, c, x);
    case DoSend => SendExact(s);
    case DoReceive(claim) => ReceiveExact(s, claim);
    case DoRecycle => RecycleExact(s);
  }

  lemma DeferExact(s: State)
    requires Exact(s) && s.m.parser.Header?
    ensures StaysExact(s, DoDefer)
  {
    hide Exact;
    SameExact(s, Step(s, DoDefer));
  }
}
