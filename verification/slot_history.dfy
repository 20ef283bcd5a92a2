/** What happened so far on the slot transport, and how the machine's state relates to it. */
module SlotHistory {
  import opened Basics
  import opened SlotMachine

  /** A filled or filling slot: still with the receiver, given back, or rescanned. */
  datatype Stage = Live | Waiting | Done

  /** A place between two messages: so many slots, and so many messages of the next. */
  datatype Mark = Mark(fill: nat, index: nat)

  /** Slots are numbered in the order the sender fills them. log holds the messages of every
      slot number, order the slot behind every ring position, and released the slot numbers
      in the order they came back. lastTx and lastData are the true slot numbers behind the 20-bit
      ones the quota counters remember, or -1. */
  datatype History = History(
    log: seq<seq<Msg>>, stage: seq<Stage>, order: seq<nat>, released: seq<nat>,
    sent: seq<Msg>, parsed: seq<Msg>,
    txMark: Mark, snapMark: Mark, rx: nat, at: nat, scanAt: nat,
    lastTx: seq<int>, lastData: int)

  datatype State = State(m: Machine, h: History)

  // ---------------------------------------------------------------- recording steps

  function Append(log: seq<seq<Msg>>, msg: Msg): (r: seq<seq<Msg>>)
    ensures |r| == |log|
  {
    if |log| == 0 then [] else log[..|log| - 1] + [log[|log| - 1] + [msg]]
  }

  function EndMark(log: seq<seq<Msg>>): (k: Mark) {
    if |log| == 0 then Mark(0, 0) else Mark(|log| - 1, |log[|log| - 1]|)
  }

  /** The live slot number that uses slot s, below k. */
  function Holder(order: seq<nat>, stage: seq<Stage>, s: nat, k: nat): (j: nat)
    requires k <= |order| && k <= |stage|
  {
    if k == 0 then 0 else if stage[k - 1].Live? && order[k - 1] == s then k - 1 else Holder(order, stage, s, k - 1)
  }

  /** Slot s goes back on the ring. */
  function GiveBack(h: History, s: nat): (r: History) {
    if |h.stage| > |h.order| then h
    else
      var k := Holder(h.order, h.stage, s, |h.stage|);
      if k < |h.stage| then
        h.(stage := h.stage[k := Waiting], order := h.order + [s], released := h.released + [k])
      else h
  }

  predicate LastHolder(m: Machine, s: nat) {
    s < |m.info| && m.info[s].releaseCount + 1 == m.info[s].useCount
  }

  function RecordSend(h: History, m: Machine): (r: History) {
    match m.tx
    case Idle => h
    case Admitted(msg) =>
      var space := Space(m.localPos);
      if Stride(msg) > space >= HEADER_SIZE then h.(log := Append(h.log, Padding(space - HEADER_SIZE))) else h
    case Seeking(_, _) =>
      if m.sem > 0 then h.(log := h.log + [[]], stage := h.stage + [Live]) else h.(txMark := EndMark(h.log))
    case Blocked(_, _) => h.(log := h.log + [[]], stage := h.stage + [Live])
    case Reserved(msg) =>
      if msg.Data? && msg.src < |h.lastTx| then
        h.(log := Append(h.log, msg), lastTx := h.lastTx[msg.src := (m.localPos - 1) / SLOT_SIZE], lastData := (m.localPos - 1) / SLOT_SIZE)
      else h.(log := Append(h.log, msg))
    case Stored(msg) => h.(sent := h.sent + [msg], txMark := EndMark(h.log))
  }

  function RecordReceive(h: History, m: Machine, claim: bool): (r: History)
    requires ReceiveSafe(m)
  {
    match m.parser
    case Next => if m.rxPos == m.snap then h.(snapMark := h.txMark) else h
    case Header =>
      if HeaderAt(m).msg.Data? && claim then h else h.(parsed := h.parsed + [HeaderAt(m).msg], at := h.at + 1)
    case Claimed => h.(parsed := h.parsed + [HeaderAt(m).msg], at := h.at + 1)
    case Advanced =>
      if m.rxPos % SLOT_SIZE != 0 then h
      else (if LastHolder(m, m.rxSlot.value) then GiveBack(h, m.rxSlot.value) else h).(rx := h.rx + 1, at := 0)
  }

  function RecordRecycle(h: History, m: Machine): (r: History)
    requires RecycleGuard(m) && RecycleSafe(m)
  {
    match m.rc
    case Resting => h.(scanAt := 0)
    case Scanning(_, pos, _, _, _) =>
      if pos < SLOT_SIZE && Scan(m).rc.pos != pos then h.(scanAt := h.scanAt + 1) else h
    case Scanned => h.(stage := Recycled(h, m))
    case Raised => h
  }

  /** The slot number under rescan. */
  function Rescanned(released: seq<nat>, available: nat, n: nat): (f: nat) {
    if n <= available < n + |released| then released[available - n] else 0
  }

  function Recycled(h: History, m: Machine): (stage: seq<Stage>) {
    var f := Rescanned(h.released, m.available, |m.info|);
    if f < |h.stage| then h.stage[f := Done] else h.stage
  }

  /** A port without slots in use remembers the slot before the one being filled, if the source's
      numbers have one. */
  function RecordAdd(h: History, m: Machine, p: nat): (r: History)
    requires AddGuard(m, p)
  {
    if m.quotas.slotUse[p] == 0 && p < |h.lastTx| then
      h.(lastTx := h.lastTx[p := if SlotNumber(m.localPos) == 0 then -1 else m.localPos / SLOT_SIZE - 1])
    else h
  }

  function Record(h: History, m: Machine, a: Action): (r: History)
    requires Guard(m, a) && Safe(m, a)
  {
    match a
    case DoAdd(p) => RecordAdd(h, m, p)
    case DoSend => RecordSend(h, m)
    case DoReceive(claim) => RecordReceive(h, m, claim)
    case DoRelease(s, off) => if m.mem[s][off].claimed && LastHolder(m, s) then GiveBack(h, s) else h
    case DoRecycle => RecordRecycle(h, m)
    case _ => h
  }

  function Step(s: State, a: Action): (t: State)
    requires Guard(s.m, a) && Safe(s.m, a)
  {
    State(Do(s.m, a), Record(s.h, s.m, a))
  }

  function Start(n: nat, messageQuota: nat, slotQuota: nat): (s: State)
    requires 1 <= n <= RING
  {
    State(Initial(n, messageQuota, slotQuota),
          History([], [], seq(n, i => i), [], [], [], Mark(0, 0), Mark(0, 0), 0, 0, 0, seq(PORTS, i => -1), -1))
  }

  // ---------------------------------------------------------------- places of slots

  /** Ring position i stands for a slot the sender may still take, or for one in use. */
  predicate Owned(stage: seq<Stage>, i: nat) {
    i >= |stage| || stage[i].Live?
  }

  function CountBack(stage: seq<Stage>): (c: nat)
    ensures c <= |stage|
  {
    if |stage| == 0 then 0 else CountBack(stage[..|stage| - 1]) + if stage[|stage| - 1].Live? then 0 else 1
  }

  function CountDone(stage: seq<Stage>): (c: nat)
    ensures c <= |stage|
  {
    if |stage| == 0 then 0 else CountDone(stage[..|stage| - 1]) + if stage[|stage| - 1].Done? then 1 else 0
  }

  ghost predicate Places(n: nat, available: nat, order: seq<nat>, stage: seq<Stage>, released: seq<nat>) {
    && 1 <= n <= RING
    && |stage| <= available && n <= available <= |order| && |order| == n + |released|
    && CountBack(stage) == |released| && n + CountDone(stage) == available
    && (forall i :: 0 <= i < |order| ==> order[i] < n)
    && (forall r :: 0 <= r < |released| ==>
          released[r] < |stage| && order[n + r] == order[released[r]]
          && stage[released[r]] == if n + r < available then Done else Waiting)
    && (forall q, r :: 0 <= q < r < |released| ==> released[q] != released[r])
    && (forall k :: 0 <= k < |stage| && !stage[k].Live? ==> k in released)
    && OncePlaced(order, stage)
  }

  /** No slot is in two places. */
  ghost predicate OncePlaced(order: seq<nat>, stage: seq<Stage>) {
    forall i, j :: 0 <= i < j < |order| && Owned(stage, i) && Owned(stage, j) ==> order[i] != order[j]
  }

  /** The ring still shows the last entries put on it. */
  ghost predicate RingHolds(ring: seq<nat>, order: seq<nat>) {
    |ring| == RING && forall i :: 0 <= i < |order| && |order| <= i + RING ==> ring[i % RING] == order[i]
  }

  // ---------------------------------------------------------------- messages in slots

  /** The offset of message j of a slot. */
  function Offset(msgs: seq<Msg>, j: nat): (off: nat)
    requires j <= |msgs|
    ensures off % HEADER_SIZE == 0
  {
    if j == 0 then 0 else Offset(msgs, j - 1) + Stride(msgs[j - 1])
  }

  function End(msgs: seq<Msg>): (off: nat)
    ensures off % HEADER_SIZE == 0
  {
    Offset(msgs, |msgs|)
  }

  /** The position behind the last message of the log. */
  function Filled(log: seq<seq<Msg>>): (pos: nat) {
    if |log| == 0 then 0 else SLOT_SIZE * (|log| - 1) + End(log[|log| - 1])
  }

  ghost predicate Layout(log: seq<seq<Msg>>, rx: nat) {
    && (forall k :: 0 <= k < |log| - 1 ==> End(log[k]) == SLOT_SIZE)
    && (forall k :: 0 <= k < |log| ==> End(log[k]) <= SLOT_SIZE)
    && (forall k :: 0 <= k < |log| && k < rx ==> End(log[k]) == SLOT_SIZE)
    && rx <= |log|
  }

  /** A slot's memory shows these messages, header by header. */
  ghost predicate Holds(s: Slot, msgs: seq<Msg>) {
    forall j :: 0 <= j < |msgs| ==> Offset(msgs, j) in s && s[Offset(msgs, j)].msg == msgs[j]
  }

  /** Every slot that is in use or waits for its rescan holds exactly its messages. */
  ghost predicate Contents(mem: seq<Slot>, order: seq<nat>, log: seq<seq<Msg>>, stage: seq<Stage>) {
    && |log| == |stage| <= |order|
    && (forall k :: 0 <= k < |log| ==> order[k] < |mem|)
    && forall k :: 0 <= k < |log| && !stage[k].Done? ==> Holds(mem[order[k]], log[k])
  }

  ghost predicate MarkOk(log: seq<seq<Msg>>, k: Mark, pos: nat) {
    (k == Mark(0, 0) && pos == 0)
    || (k.fill < |log| && k.index <= |log[k.fill]| && pos == SLOT_SIZE * k.fill + Offset(log[k.fill], k.index))
  }

  // ---------------------------------------------------------------- the sender

  ghost predicate Sending(localPos: nat, txPos: nat, txSlot: nat, available: nat, sem: nat, tx: Sender, raised: bool,
                          order: seq<nat>, log: seq<seq<Msg>>, txMark: Mark) {
    && (|log| > 0 ==> |log| <= |order| && txSlot == order[|log| - 1])
    && sem + |log| + (if raised then 1 else 0) == available
    && (!tx.Idle? ==> Sendable(tx.msg))
    && (!tx.Reserved? && |log| > 0 ==> |log[|log| - 1]| > 0)
    && MarkOk(log, txMark, txPos) && txPos <= Filled(log) && txPos <= localPos
    && match tx
       case Idle => localPos == Filled(log) == txPos
       case Admitted(msg) => localPos == Filled(log)
       case Seeking(msg, pos) => localPos <= pos == Filled(log) < localPos + SLOT_SIZE && pos % SLOT_SIZE == 0
       case Blocked(msg, pos) => localPos == txPos == pos == Filled(log) && pos % SLOT_SIZE == 0
       case Reserved(msg) => |log| > 0 && localPos == Filled(log) + Stride(msg) <= SLOT_SIZE * |log|
       case Stored(msg) =>
         && localPos == Filled(log) && txPos + Stride(msg) <= Filled(log)
         && |log| > 0 && log[|log| - 1][|log[|log| - 1]| - 1] == msg
  }

  // ---------------------------------------------------------------- the receiver

  ghost predicate Receiving(snap: nat, rxPos: nat, rxSlot: Option<nat>, parser: Parser, txPos: nat,
                            order: seq<nat>, log: seq<seq<Msg>>, stage: seq<Stage>, snapMark: Mark, rx: nat, at: nat) {
    && |log| == |stage| <= |order|
    && MarkOk(log, snapMark, snap) && rxPos <= snap <= txPos
    && rx <= |log|
    && (forall k :: 0 <= k < |stage| && k >= rx ==> stage[k].Live?)
    && match rxSlot
       case None => parser.Next? && at == 0 && rxPos == SLOT_SIZE * rx
       case Some(s) =>
         && rx < |log| && s == order[rx] && at <= |log[rx]| && rxPos == SLOT_SIZE * rx + Offset(log[rx], at)
         && (parser.Next? ==> Offset(log[rx], at) < SLOT_SIZE)
         && (parser.Header? || parser.Claimed? ==> at < |log[rx]| && rxPos < snap)
         && (parser.Claimed? ==> log[rx][at].Data?)
         && (parser.Advanced? ==> at > 0)
  }

  // ---------------------------------------------------------------- claims

  ghost function ClaimedHeaders(s: Slot): (c: set<int>) {
    set x | x in s && s[x].claimed
  }

  ghost function Claims(s: Slot): (c: nat) {
    |ClaimedHeaders(s)|
  }

  /** The receiver has opened slot number k and not given it back. */
  predicate Opened(stage: seq<Stage>, rx: nat, parsing: bool, k: nat) {
    k < |stage| && stage[k].Live? && (k < rx || (k == rx && parsing))
  }

  /** The header at offset x of slot number k may be claimed: it has been handed out. */
  predicate HandedOut(log: seq<seq<Msg>>, rx: nat, at: nat, taken: bool, k: nat, x: int) {
    k < |log| && x < End(log[k])
    && (k == rx && at <= |log[k]| ==> x < Offset(log[k], at) || (taken && x == Offset(log[k], at)))
  }

  /** Only headers of opened slots are claimed, and the two counters of an opened slot differ
      by its claimed headers, plus one while it is being parsed. */
  ghost predicate Counting(mem: seq<Slot>, info: seq<Info>, order: seq<nat>, log: seq<seq<Msg>>, stage: seq<Stage>,
                           rx: nat, at: nat, parsing: bool, taken: bool) {
    && |mem| == |info| && |log| == |stage| <= |order|
    && (forall k :: 0 <= k < |log| ==> order[k] < |mem|)
    && (forall s, x :: 0 <= s < |mem| && x in mem[s] && mem[s][x].claimed ==> HasClaimant(order, log, stage, rx, at, parsing, taken, s, x))
    && (forall k: nat :: Opened(stage, rx, parsing, k) ==>
          && info[order[k]].useCount - info[order[k]].releaseCount == Claims(mem[order[k]]) + (if k == rx then 1 else 0)
          && (k < rx ==> Claims(mem[order[k]]) > 0))
  }

  ghost predicate Claimant(order: seq<nat>, log: seq<seq<Msg>>, stage: seq<Stage>, rx: nat, at: nat, parsing: bool, taken: bool,
                           s: nat, x: int, k: nat)
  {
    Opened(stage, rx, parsing, k) && k < |order| && order[k] == s && HandedOut(log, rx, at, taken, k, x)
  }

  ghost predicate HasClaimant(order: seq<nat>, log: seq<seq<Msg>>, stage: seq<Stage>, rx: nat, at: nat, parsing: bool, taken: bool,
                              s: nat, x: int)
  {
    exists k: nat :: Claimant(order, log, stage, rx, at, parsing, taken, s, x, k)
  }

  // ---------------------------------------------------------------- quotas

  /** What a counter counts: DATA messages of a port, slots with DATA of a port, slots with
      any DATA. */
  datatype Measure = Messages(port: nat) | Slots(port: nat) | AnyData

  predicate Hits(m: Msg, w: Measure) {
    m.Data? && (w.AnyData? || m.src == w.port)
  }

  /** What one slot with these messages adds to a counter. */
  function Weigh(msgs: seq<Msg>, w: Measure): (c: nat) {
    if |msgs| == 0 then 0
    else
      var rest := Weigh(msgs[..|msgs| - 1], w);
      if !Hits(msgs[|msgs| - 1], w) then rest else if w.Messages? then rest + 1 else 1
  }

  /** The same over all slots not yet rescanned. */
  function InUse(log: seq<seq<Msg>>, stage: seq<Stage>, w: Measure): (c: nat)
    requires |log| == |stage|
  {
    if |log| == 0 then 0
    else
      var n := |log| - 1;
      InUse(log[..n], stage[..n], w) + if stage[n].Done? then 0 else Weigh(log[n], w)
  }

  predicate ValidMeasure(w: Measure) {
    w.AnyData? || w.port < PORTS
  }

  function Counter(q: Quotas, w: Measure): (c: nat)
    requires QuotasShaped(q) && ValidMeasure(w)
  {
    match w
    case Messages(p) => q.messageUse[p]
    case Slots(p) => q.slotUse[p]
    case AnyData => q.dataUse
  }

  /** What the rescan in progress has already taken off a counter. */
  function Credit(rc: Recycler, msgs: seq<Msg>, scanAt: nat, w: Measure): (c: nat) {
    if rc.Scanned? then Weigh(msgs, w)
    else if rc.Scanning? && scanAt <= |msgs| then
      match w
      case Messages(_) =>
        if rc.counted && scanAt < |msgs| then Weigh(msgs[..scanAt + 1], w) else Weigh(msgs[..scanAt], w)
      case Slots(_) => Weigh(msgs[..scanAt], w)
      case AnyData => 0
    else 0
  }

  /** The rescan stands between two messages of a slot that came back. */
  ghost predicate Scans(rc: Recycler, n: nat, available: nat, order: seq<nat>, log: seq<seq<Msg>>, released: seq<nat>, scanAt: nat) {
    var f := Rescanned(released, available, n);
    && (rc.Scanning? || rc.Scanned? ==> n <= available < n + |released| && f < |log| && f < |order|)
    && (rc.Scanning? ==>
          && rc.slot == order[f] && scanAt <= |log[f]| && rc.pos == Offset(log[f], scanAt)
          && (rc.counted ==> scanAt < |log[f]| && log[f][scanAt].Data?)
          && (forall p :: p in rc.found <==> Weigh(log[f][..scanAt], Slots(p)) > 0)
          && (rc.dataFound <==> Weigh(log[f][..scanAt], AnyData) > 0))
  }

  /** Counters are exact: what is in use, less what the rescan in progress has taken off. */
  ghost predicate Accounts(q: Quotas, rc: Recycler, n: nat, available: nat, log: seq<seq<Msg>>, stage: seq<Stage>,
                           released: seq<nat>, scanAt: nat) {
    && QuotasShaped(q) && |log| == |stage|
    && forall w :: ValidMeasure(w) ==>
         Counter(q, w) + Credit(rc, LogAt(log, Rescanned(released, available, n)), scanAt, w) == InUse(log, stage, w)
  }

  function LogAt(log: seq<seq<Msg>>, f: nat): (msgs: seq<Msg>) {
    if f < |log| then log[f] else []
  }

  /** DATA in the log comes from ports in range. */
  ghost predicate PortsOk(log: seq<seq<Msg>>) {
    forall k, j :: 0 <= k < |log| && 0 <= j < |log[k]| && log[k][j].Data? ==> log[k][j].src < PORTS
  }

  /** A slot number as the counters keep it. */
  function Kept(last: int): (k: int) {
    if last < 0 then -1 else last % SLOT_NUMBERS
  }

  /** The slot numbers remembered for the last DATA, per port and overall. */
  ghost predicate Remembered(q: Quotas, lastTx: seq<int>, lastData: int, localPos: nat, tx: Sender, log: seq<seq<Msg>>) {
    && QuotasShaped(q) && |lastTx| == PORTS
    && q.previousData == Kept(lastData)
    && (forall k :: 0 <= k < |log| && Weigh(log[k], AnyData) > 0 ==> k <= lastData)
    && (lastData >= 0 ==> lastData < |log| && Weigh(log[lastData], AnyData) > 0)
    && (forall p :: 0 <= p < PORTS ==> RememberedPort(q, lastTx, localPos, tx, log, p))
  }

  /** The port may still add to the last slot number. */
  predicate Filling(localPos: nat, tx: Sender, log: seq<seq<Msg>>, p: nat) {
    |log| > 0 && (localPos < SLOT_SIZE * |log| || (tx.Reserved? && tx.msg.Data? && tx.msg.src == p))
  }

  ghost predicate RememberedPort(q: Quotas, lastTx: seq<int>, localPos: nat, tx: Sender, log: seq<seq<Msg>>, p: nat)
    requires QuotasShaped(q) && |lastTx| == PORTS && p < PORTS
  {
    var last := lastTx[p];
    && (tx != Idle && tx.msg.Data? && tx.msg.src == p ==> p in q.open)
    && (p in q.open ==>
      && -1 <= last < |log| && q.previousTx[p] == Kept(last)
      && (Filling(localPos, tx, log, p) ==> (last == |log| - 1 <==> Weigh(log[|log| - 1], Slots(p)) > 0)))
    && (p !in q.open ==> forall k :: 0 <= k < |log| ==> Weigh(log[k], Slots(p)) == 0)
  }

  /** No service exceeds its quotas, and a service past the quota check has room for its message. */
  ghost predicate WithinQuotas(q: Quotas, localPos: nat, tx: Sender) {
    && QuotasShaped(q)
    && (forall p :: 0 <= p < PORTS ==> q.messageUse[p] <= q.messageQuota[p] && q.slotUse[p] <= q.slotQuota[p])
    && (!tx.Idle? && tx.msg.Data? && !tx.Stored? ==>
          var p := tx.msg.src;
          p < PORTS && q.messageUse[p] < q.messageQuota[p]
          && (q.slotUse[p] < q.slotQuota[p] || EndNumber(localPos, tx) % SLOT_NUMBERS == q.previousTx[p]))
  }

  /** The slot number the message in hand ends in. */
  function EndNumber(localPos: nat, tx: Sender): (k: int)
    requires !tx.Idle?
  {
    match tx
    case Admitted(msg) => (localPos + Stride(msg) - 1) / SLOT_SIZE
    case Seeking(msg, pos) => (pos + Stride(msg) - 1) / SLOT_SIZE
    case Blocked(msg, pos) => (pos + Stride(msg) - 1) / SLOT_SIZE
    case _ => (localPos - 1) / SLOT_SIZE
  }

  // ---------------------------------------------------------------- deliveries

  function Flatten(log: seq<seq<Msg>>): (msgs: seq<Msg>) {
    if |log| == 0 then [] else Flatten(log[..|log| - 1]) + log[|log| - 1]
  }

  /** Messages without padding. */
  function Payload(msgs: seq<Msg>): (r: seq<Msg>) {
    if |msgs| == 0 then []
    else Payload(msgs[..|msgs| - 1]) + if msgs[|msgs| - 1].Padding? then [] else [msgs[|msgs| - 1]]
  }

  ghost predicate Delivered(tx: Sender, log: seq<seq<Msg>>, sent: seq<Msg>, parsed: seq<Msg>, rx: nat, at: nat) {
    && Payload(Flatten(log)) == sent + (if tx.Stored? then [tx.msg] else [])
    && rx <= |log| && at <= |LogAt(log, rx)|
    && parsed == Flatten(log[..rx]) + LogAt(log, rx)[..at]
  }

  // ---------------------------------------------------------------- the whole invariant

  /** What every step of every thread keeps. */
  ghost predicate Sound(s: State) {
    && |s.m.info| == |s.m.mem| && s.m.recycle == |s.h.order|
    && Places(|s.m.info|, s.m.available, s.h.order, s.h.stage, s.h.released)
    && RingHolds(s.m.ring, s.h.order)
    && Layout(s.h.log, s.h.rx)
    && PortsOk(s.h.log)
    && Contents(s.m.mem, s.h.order, s.h.log, s.h.stage)
    && Sending(s.m.localPos, s.m.txPos, s.m.txSlot, s.m.available, s.m.sem, s.m.tx, s.m.rc.Raised?, s.h.order, s.h.log, s.h.txMark)
    && Receiving(s.m.snap, s.m.rxPos, s.m.rxSlot, s.m.parser, s.m.txPos, s.h.order, s.h.log, s.h.stage, s.h.snapMark, s.h.rx, s.h.at)
    && Counting(s.m.mem, s.m.info, s.h.order, s.h.log, s.h.stage, s.h.rx, s.h.at, s.m.rxSlot.Some?, s.m.parser.Claimed?)
    && Scans(s.m.rc, |s.m.info|, s.m.available, s.h.order, s.h.log, s.h.released, s.h.scanAt)
    && WithinQuotas(s.m.quotas, s.m.localPos, s.m.tx)
    && Delivered(s.m.tx, s.h.log, s.h.sent, s.h.parsed, s.h.rx, s.h.at)
    && |s.h.lastTx| == PORTS
  }

  /** The counters are exact, and the remembered slot numbers are those last written to. */
  ghost predicate Exact(s: State) {
    && Accounts(s.m.quotas, s.m.rc, |s.m.info|, s.m.available, s.h.log, s.h.stage, s.h.released, s.h.scanAt)
    && Remembered(s.m.quotas, s.h.lastTx, s.h.lastData, s.m.localPos, s.m.tx, s.h.log)
  }

  /** A remembered slot number is taken for k exactly when it is k. */
  predicate Apart(last: int, k: nat) {
    last < 0 || last == k || (k - last) % SLOT_NUMBERS != 0
  }

  /** The step does not count a DATA message whose slot number is, in 20 bits, another one
      remembered for its port or for all DATA. */
  predicate Unaliased(s: State, a: Action) {
    a.DoSend? && s.m.tx.Reserved? && s.m.tx.msg.Data? && s.m.localPos > 0 && s.m.tx.msg.src < |s.h.lastTx| ==>
      var k := (s.m.localPos - 1) / SLOT_SIZE;
      Apart(s.h.lastTx[s.m.tx.msg.src], k) && Apart(s.h.lastData, k)
  }
}
