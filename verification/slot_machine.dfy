/** The slot transport as a machine: one sending side with its recycle thread, and the
    receiving side, taking atomic steps over one shared state. */
module SlotMachine {
  import opened Basics

  const SLOT_SIZE: nat := 4096
  const HEADER_SIZE: nat := 8

  /** Entries of the ring of slot indices, a power of two. */
  const RING: nat := 64

  const PORTS: nat := 4096

  /** Positions have 32 bits in the source, so the numbers of slots taken from them have 20. */
  const SLOT_NUMBERS: nat := 0x10_0000

  // ---------------------------------------------------------------- messages and slots

  datatype Msg =
    | Padding(room: nat)
    | Control(id: nat, data: seq<byte>)
    | Data(src: nat, dst: nat, data: seq<byte>)

  function Size(m: Msg): (n: nat) {
    if m.Padding? then m.room else |m.data|
  }

  /** A message the transport's callers may queue. */
  predicate Sendable(m: Msg) {
    !m.Padding? && Size(m) <= SLOT_SIZE - HEADER_SIZE && (m.Data? ==> m.src < PORTS)
  }

  /** The room a message of this size takes, header included. */
  function CalcStride(size: nat): (s: nat)
    ensures s % HEADER_SIZE == 0 && size + HEADER_SIZE <= s < size + 2 * HEADER_SIZE
  {
    (size + HEADER_SIZE + HEADER_SIZE - 1) / HEADER_SIZE * HEADER_SIZE
  }

  function Stride(m: Msg): (s: nat)
    ensures s % HEADER_SIZE == 0 && s >= HEADER_SIZE
  {
    CalcStride(Size(m))
  }

  /** A header in a slot with the message behind it; claimed is a bit of its message id. */
  datatype Cell = Cell(msg: Msg, claimed: bool)

  /** The headers of one slot by offset. */
  type Slot = map<int, Cell>

  /** Writing a message overwrites every header it covers. */
  function Written(s: Slot, off: nat, msg: Msg): (t: Slot) {
    (map x | x in s && (x < off || off + Stride(msg) <= x) :: s[x])[off := Cell(msg, false)]
  }

  datatype Info = Info(useCount: int, releaseCount: int)

  // ---------------------------------------------------------------- the machine

  /** Where the holder of the slot mutex is in queue_message. */
  datatype Sender =
    | Idle
    | Admitted(msg: Msg)
    | Seeking(msg: Msg, pos: nat)
    | Blocked(msg: Msg, pos: nat)
    | Reserved(msg: Msg)
    | Stored(msg: Msg)

  /** Where the recycle thread is in process_free_queue. */
  datatype Recycler =
    | Resting
    | Scanning(slot: nat, pos: nat, found: set<nat>, dataFound: bool, counted: bool)
    | Scanned
    | Raised

  /** Where the slot handler is in parse_rx_slots. */
  datatype Parser = Next | Header | Claimed | Advanced

  /** The quota counters. previousTx and previousData are slot numbers of 20 bits, or -1. */
  datatype Quotas = Quotas(
    messageUse: seq<nat>, slotUse: seq<nat>, previousTx: seq<int>,
    dataUse: nat, previousData: int,
    messageQuota: seq<nat>, slotQuota: seq<nat>, open: set<nat>)

  datatype Machine = Machine(
    // shared by the two sides
    ring: seq<nat>, recycle: nat, txPos: nat, mem: seq<Slot>,
    // the sending side
    localPos: nat, txSlot: nat, available: nat, sem: nat, tx: Sender, quotas: Quotas,
    // its recycle thread
    rc: Recycler,
    // the receiving side
    snap: nat, rxPos: nat, rxSlot: Option<nat>, parser: Parser, info: seq<Info>)

  function Space(pos: nat): (n: nat) {
    SLOT_SIZE - pos % SLOT_SIZE
  }

  /** The slot number of a position as the source computes it. */
  function SlotNumber(pos: nat): (k: nat)
    ensures k < SLOT_NUMBERS
  {
    pos / SLOT_SIZE % SLOT_NUMBERS
  }

  function Dec(x: nat): (y: nat) {
    if x > 0 then x - 1 else 0
  }

  // ---------------------------------------------------------------- sending

  /** The slot number a message would end in, as the quota check predicts it. */
  function PredictedEnd(localPos: nat, msg: Msg): (k: nat) {
    SlotNumber(localPos + Stride(msg) - 1)
  }

  /** The test both wait loops of queue_message end with, for this message's service. */
  predicate WithinQuota(q: Quotas, localPos: nat, msg: Msg)
    requires msg.Data? && QuotasShaped(q) && msg.src < PORTS
  {
    && q.messageUse[msg.src] != q.messageQuota[msg.src]
    && (PredictedEnd(localPos, msg) == q.previousTx[msg.src] || q.slotUse[msg.src] != q.slotQuota[msg.src])
  }

  predicate QuotasShaped(q: Quotas) {
    |q.messageUse| == |q.slotUse| == |q.previousTx| == |q.messageQuota| == |q.slotQuota| == PORTS
  }

  predicate AdmitGuard(m: Machine, msg: Msg) {
    && m.tx.Idle? && Sendable(msg) && QuotasShaped(m.quotas)
    && (msg.Data? ==> msg.src in m.quotas.open && WithinQuota(m.quotas, m.localPos, msg))
  }

  /** What the sending code asserts or relies on before its next step. */
  predicate SendSafe(m: Machine) {
    match m.tx
    case Idle => true
    case Admitted(msg) =>
      Stride(msg) > Space(m.localPos) ==>
        m.localPos % SLOT_SIZE != 0 && Space(m.localPos) >= HEADER_SIZE && m.txSlot < |m.mem|
    case Seeking(msg, pos) => m.sem > 0 ==> TakeSafe(m, pos)
    case Blocked(msg, pos) => m.sem > 0 ==> TakeSafe(m, pos)
    case Reserved(msg) =>
      && m.txSlot < |m.mem| && Stride(msg) <= m.localPos && QuotasShaped(m.quotas)
      && (msg.Data? ==> msg.src < PORTS)
    case Stored(msg) => true
  }

  /** A slot is taken only while the queue of available slots is not empty. */
  predicate TakeSafe(m: Machine, pos: nat) {
    |m.ring| == RING && pos % SLOT_SIZE == 0 && pos != m.available * SLOT_SIZE
  }

  function BeginReserve(m: Machine): (r: Machine)
    requires m.tx.Admitted? && SendSafe(m)
  {
    var msg := m.tx.msg;
    var space := Space(m.localPos);
    if Stride(msg) > space then
      var pad := Padding(space - HEADER_SIZE);
      m.(mem := m.mem[m.txSlot := Written(m.mem[m.txSlot], m.localPos % SLOT_SIZE, pad)],
         tx := Seeking(msg, m.localPos + space))
    else if m.localPos % SLOT_SIZE == 0 then m.(tx := Seeking(msg, m.localPos))
    else m.(localPos := m.localPos + Stride(msg), tx := Reserved(msg))
  }

  function TakeSlot(m: Machine, msg: Msg, pos: nat): (r: Machine)
    requires m.sem > 0 && TakeSafe(m, pos)
  {
    m.(sem := m.sem - 1, txSlot := m.ring[pos / SLOT_SIZE % RING], localPos := pos + Stride(msg), tx := Reserved(msg))
  }

  /** No slot is free: publish everything written so far before waiting or giving up. */
  function Flush(m: Machine, msg: Msg, pos: nat): (r: Machine) {
    m.(localPos := pos, txPos := pos, tx := Blocked(msg, pos))
  }

  /** The counters after one more DATA message of a port that ends in slot number k, as the
      source numbers slots. */
  function Counted(q: Quotas, p: nat, k: nat): (r: Quotas)
    requires QuotasShaped(q) && p < PORTS
  {
    var r := q.(messageUse := q.messageUse[p := q.messageUse[p] + 1]);
    var r := if k != r.previousData then r.(previousData := k, dataUse := r.dataUse + 1) else r;
    if k != r.previousTx[p] then r.(previousTx := r.previousTx[p := k], slotUse := r.slotUse[p := r.slotUse[p] + 1]) else r
  }

  function Commit(m: Machine): (r: Machine)
    requires m.tx.Reserved? && SendSafe(m)
  {
    var msg := m.tx.msg;
    var off := (m.localPos - Stride(msg)) % SLOT_SIZE;
    m.(mem := m.mem[m.txSlot := Written(m.mem[m.txSlot], off, msg)],
       quotas := if msg.Data? then Counted(m.quotas, msg.src, SlotNumber(m.localPos - 1)) else m.quotas,
       tx := Stored(msg))
  }

  predicate SendGuard(m: Machine) {
    !m.tx.Idle? && (m.tx.Blocked? ==> m.sem > 0)
  }

  /** The next step of the thread that holds the slot mutex. */
  function Send(m: Machine): (r: Machine)
    requires SendGuard(m) && SendSafe(m)
  {
    match m.tx
    case Admitted(msg) => BeginReserve(m)
    case Seeking(msg, pos) => if m.sem > 0 then TakeSlot(m, msg, pos) else Flush(m, msg, pos)
    case Blocked(msg, pos) => TakeSlot(m, msg, pos)
    case Reserved(msg) => Commit(m)
    case Stored(msg) => m.(txPos := m.localPos, tx := Idle)
  }

  /** A service is added: a port without slots in use forgets the slot it last wrote to. */
  predicate AddGuard(m: Machine, p: nat) {
    p < PORTS && QuotasShaped(m.quotas) && (m.tx.Idle? || !m.tx.msg.Data? || m.tx.msg.src != p)
  }

  function AddService(m: Machine, p: nat): (r: Machine)
    requires AddGuard(m, p)
  {
    var q := m.quotas.(open := m.quotas.open + {p});
    m.(quotas := if q.slotUse[p] == 0 then q.(previousTx := q.previousTx[p := SlotNumber(m.localPos) - 1]) else q)
  }

  // ---------------------------------------------------------------- receiving

  predicate ReceiveSafe(m: Machine) {
    match m.parser
    case Next => m.rxPos != m.snap && m.rxSlot.None? ==>
      m.rxPos % SLOT_SIZE == 0 && |m.ring| == RING && m.ring[m.rxPos / SLOT_SIZE % RING] < |m.info|
    case Advanced => m.rxPos % SLOT_SIZE == 0 ==>
      m.rxSlot.Some? && m.rxSlot.value < |m.info| && |m.ring| == RING
    case _ =>
      && m.rxSlot.Some? && m.rxSlot.value < |m.mem| && m.rxSlot.value < |m.info|
      && m.rxPos % SLOT_SIZE in m.mem[m.rxSlot.value]
      && m.rxPos % SLOT_SIZE + Stride(HeaderAt(m).msg) <= SLOT_SIZE
  }

  function HeaderAt(m: Machine): (c: Cell)
    requires m.rxSlot.Some? && m.rxSlot.value < |m.mem| && m.rxPos % SLOT_SIZE in m.mem[m.rxSlot.value]
  {
    m.mem[m.rxSlot.value][m.rxPos % SLOT_SIZE]
  }

  /** Another holder of the slot is gone; the last one puts the slot on the ring of free slots. */
  function Unhold(m: Machine, s: nat): (r: Machine)
    requires s < |m.info| && |m.ring| == RING
  {
    var i := Info(m.info[s].useCount, m.info[s].releaseCount + 1);
    var m := m.(info := m.info[s := i]);
    if i.releaseCount == i.useCount then m.(ring := m.ring[m.recycle % RING := s], recycle := m.recycle + 1) else m
  }

  /** The next step of the slot handler; claim says whether a DATA message has an open service. */
  function Receive(m: Machine, claim: bool): (r: Machine)
    requires ReceiveSafe(m)
  {
    match m.parser
    case Next =>
      if m.rxPos == m.snap then m.(snap := m.txPos)
      else if m.rxSlot.None? then
        var s := m.ring[m.rxPos / SLOT_SIZE % RING];
        m.(rxSlot := Some(s), info := m.info[s := Info(1, 0)], parser := Header)
      else m.(parser := Header)
    case Header =>
      var s := m.rxSlot.value;
      var c := HeaderAt(m);
      if c.msg.Data? && claim then
        m.(mem := m.mem[s := m.mem[s][m.rxPos % SLOT_SIZE := c.(claimed := true)]],
           info := m.info[s := m.info[s].(useCount := m.info[s].useCount + 1)],
           parser := Claimed)
      else m.(rxPos := m.rxPos + Stride(c.msg), parser := Advanced)
    case Claimed => m.(rxPos := m.rxPos + Stride(HeaderAt(m).msg), parser := Advanced)
    case Advanced =>
      if m.rxPos % SLOT_SIZE == 0 then Unhold(m, m.rxSlot.value).(rxSlot := None, parser := Next)
      else m.(parser := Next)
  }

  predicate ReleaseGuard(m: Machine, s: nat, off: nat) {
    s < |m.mem| && s < |m.info| && |m.ring| == RING && off in m.mem[s]
  }

  /** A client lets go of a header. Only a claimed header counts. */
  function Release(m: Machine, s: nat, off: nat): (r: Machine)
    requires ReleaseGuard(m, s, off)
  {
    var c := m.mem[s][off];
    if !c.claimed then m
    else Unhold(m.(mem := m.mem[s := m.mem[s][off := c.(claimed := false)]]), s)
  }

  // ---------------------------------------------------------------- recycling

  predicate RecycleGuard(m: Machine) {
    m.rc.Resting? ==> m.available != m.recycle
  }

  /** The header under the scan is there and fits its slot, and the scan ends at the slot's end. */
  predicate RecycleSafe(m: Machine) {
    && QuotasShaped(m.quotas)
    && (m.rc.Resting? ==> |m.ring| == RING)
    && (m.rc.Scanning? && m.rc.pos < SLOT_SIZE ==>
          && m.rc.slot < |m.mem| && m.rc.pos in m.mem[m.rc.slot]
          && var c := m.mem[m.rc.slot][m.rc.pos];
             !c.claimed && m.rc.pos + Stride(c.msg) <= SLOT_SIZE && (c.msg.Data? ==> c.msg.src < PORTS))
    && (m.rc.Scanning? && m.rc.pos >= SLOT_SIZE ==> m.rc.pos == SLOT_SIZE)
  }

  /** No counter the scan is about to lower is zero; otherwise the source warns of a bad count. */
  predicate CountersCover(m: Machine)
    requires RecycleSafe(m)
  {
    m.rc.Scanning? ==>
      if m.rc.pos < SLOT_SIZE then
        var msg := m.mem[m.rc.slot][m.rc.pos].msg;
        msg.Data? ==>
          if !m.rc.counted then m.quotas.messageUse[msg.src] > 0
          else msg.src !in m.rc.found ==> m.quotas.slotUse[msg.src] > 0
      else m.rc.dataFound ==> m.quotas.dataUse > 0
  }

  function Scan(m: Machine): (r: Machine)
    requires m.rc.Scanning? && m.rc.pos < SLOT_SIZE && RecycleSafe(m)
  {
    var c := m.mem[m.rc.slot][m.rc.pos];
    var q := m.quotas;
    if c.msg.Data? && !c.claimed && !m.rc.counted then
      var p := c.msg.src;
      m.(quotas := q.(messageUse := q.messageUse[p := Dec(q.messageUse[p])]), rc := m.rc.(counted := true))
    else if c.msg.Data? && !c.claimed then
      var p := c.msg.src;
      m.(quotas := if p in m.rc.found then q else q.(slotUse := q.slotUse[p := Dec(q.slotUse[p])]),
         rc := Scanning(m.rc.slot, m.rc.pos + Stride(c.msg), m.rc.found + {p}, true, false))
    else m.(rc := m.rc.(pos := m.rc.pos + Stride(c.msg)))
  }

  /** The next step of the recycle thread. */
  function Recycle(m: Machine): (r: Machine)
    requires RecycleGuard(m) && RecycleSafe(m)
  {
    match m.rc
    case Resting => m.(rc := Scanning(m.ring[m.available % RING], 0, {}, false, false))
    case Scanning(_, pos, _, dataFound, _) =>
      if pos < SLOT_SIZE then Scan(m)
      else m.(quotas := if dataFound then m.quotas.(dataUse := Dec(m.quotas.dataUse)) else m.quotas, rc := Scanned)
    case Scanned => m.(available := m.available + 1, rc := Raised)
    case Raised => m.(sem := m.sem + 1, rc := Resting)
  }

  // ---------------------------------------------------------------- actions

  datatype Action =
    | DoAdd(port: nat)
    | DoAdmit(msg: Msg)
    | DoSend
    | DoGiveUp
    | DoReceive(claim: bool)
    | DoDefer
    | DoRelease(slot: nat, off: nat)
    | DoRecycle

  /** The thread concerned can take the step. */
  predicate Guard(m: Machine, a: Action) {
    match a
    case DoAdd(p) => AddGuard(m, p)
    case DoAdmit(msg) => AdmitGuard(m, msg)
    case DoSend => SendGuard(m)
    case DoGiveUp => m.tx.Blocked?
    case DoReceive(_) => true
    case DoDefer => m.parser.Header?
    case DoRelease(s, off) => ReleaseGuard(m, s, off)
    case DoRecycle => RecycleGuard(m)
  }

  /** The assertions and warnings of the code on that step, and the memory it reads. */
  predicate Safe(m: Machine, a: Action) {
    match a
    case DoSend => SendSafe(m)
    case DoReceive(_) => ReceiveSafe(m)
    case DoRecycle => RecycleSafe(m)
    case _ => true
  }

  function Do(m: Machine, a: Action): (r: Machine)
    requires Guard(m, a) && Safe(m, a)
  {
    match a
    case DoAdd(p) => AddService(m, p)
    case DoAdmit(msg) => m.(tx := Admitted(msg))
    case DoSend => Send(m)
    case DoGiveUp => m.(tx := Idle)
    case DoReceive(claim) => Receive(m, claim)
    case DoDefer => m.(parser := Next)
    case DoRelease(s, off) => Release(m, s, off)
    case DoRecycle => Recycle(m)
  }

  /** The state vchiq_init_state sets up for n data slots: every slot is on the ring. */
  function Initial(n: nat, messageQuota: nat, slotQuota: nat): (m: Machine)
    requires 1 <= n <= RING
  {
    Machine(
      seq(RING, i => if 0 <= i < n then i else 0), n, 0, seq(n, i => map[]),
      0, 0, n, n, Idle,
      Quotas(seq(PORTS, i => 0), seq(PORTS, i => 0), seq(PORTS, i => 0), 0, -1,
             seq(PORTS, i => messageQuota), seq(PORTS, i => slotQuota), {}),
      Resting,
      0, 0, None, Next, seq(n, i => Info(0, 0)))
  }
}
