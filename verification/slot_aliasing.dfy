/** A run on which a slot number is taken for another and a counter is found to be zero. */
module SlotAliasing {
  import opened Basics
  import opened SlotMachine
  import opened SlotHistory
  import opened SlotTransport

  /** Some run from start leads to the machine m. */
  ghost predicate Leads(start: State, m: Machine) {
    exists acts :: LeadsBy(start, acts, m)
  }

  ghost predicate LeadsBy(start: State, acts: seq<Action>, m: Machine) {
    Run(start, acts).Some? && Run(start, acts).value.m == m
  }

  lemma LeadsOn(start: State, m: Machine, a: Action)
    requires Leads(start, m) && Guard(m, a) && Safe(m, a)
    ensures Leads(start, Do(m, a))
  {
    hide Run, Guard, Safe, Do;
    var acts :| LeadsBy(start, acts, m);
    RunMore(start, acts, Run(start, acts).value, a);
    StepMachine(Run(start, acts).value, a);
    assert LeadsBy(start, acts + [a], Do(m, a));
  }

  lemma StepMachine(s: State, a: Action)
    requires Guard(s.m, a) && Safe(s.m, a)
    ensures Step(s, a).m == Do(s.m, a)
  {
    hide Guard, Safe, Do, Record;
  }

  // ---------------------------------------------------------------- one slot, filled again and again

  function NoRing(): (r: seq<nat>)
    ensures |r| == RING
  {
    seq(RING, i => 0)
  }

  /** A message that takes a whole slot. */
  predicate Whole(msg: Msg) {
    Sendable(msg) && Stride(msg) == SLOT_SIZE
  }

  /** Everything at rest after k slots. */
  function Rest(k: nat, q: Quotas, slot: Slot, i: Info): (m: Machine) {
    Machine(NoRing(), k + 1, SLOT_SIZE * k, [slot], SLOT_SIZE * k, 0, k + 1, 1, Idle, q, Resting,
            SLOT_SIZE * k, SLOT_SIZE * k, None, Next, [i])
  }

  predicate InSlot(slot: Slot) {
    forall x :: x in slot ==> 0 <= x < SLOT_SIZE
  }

  lemma WholePositions(k: nat)
    ensures SLOT_SIZE * k % SLOT_SIZE == 0 && SLOT_SIZE * k / SLOT_SIZE == k && Space(SLOT_SIZE * k) == SLOT_SIZE
    ensures SLOT_SIZE * (k + 1) % SLOT_SIZE == 0 && (SLOT_SIZE * (k + 1) - 1) / SLOT_SIZE == k
    ensures SlotNumber(SLOT_SIZE * (k + 1) - 1) == k % SLOT_NUMBERS
  {
  }

  lemma WholeWritten(slot: Slot, msg: Msg)
    requires InSlot(slot) && Whole(msg)
    ensures Written(slot, 0, msg) == map[0 := Cell(msg, false)]
  {
    hide Stride;
  }

  /** After the message was stored and published. */
  function Sent(k: nat, q: Quotas, msg: Msg, i: Info): (m: Machine) {
    Rest(k, q, map[0 := Cell(msg, false)], i).(txPos := SLOT_SIZE * (k + 1), localPos := SLOT_SIZE * (k + 1), sem := 0)
  }

  function AfterCount(q: Quotas, msg: Msg, k: nat): (r: Quotas)
    requires msg.Data? ==> QuotasShaped(q) && msg.src < PORTS
  {
    if msg.Data? then Counted(q, msg.src, k % SLOT_NUMBERS) else q
  }

  lemma Sends(start: State, k: nat, q: Quotas, slot: Slot, i: Info, msg: Msg)
    requires Leads(start, Rest(k, q, slot, i)) && InSlot(slot) && Whole(msg) && AdmitGuard(Rest(k, q, slot, i), msg)
    ensures Leads(start, Sent(k, AfterCount(q, msg, k), msg, i))
  {
    hide Leads, Stride, SlotNumber, Written, Counted;
    WholePositions(k);
    WholeWritten(slot, msg);
    var m0 := Rest(k, q, slot, i);
    LeadsOn(start, m0, DoAdmit(msg));
    var m1 := m0.(tx := Admitted(msg));
    LeadsOn(start, m1, DoSend);
    var m2 := m0.(tx := Seeking(msg, SLOT_SIZE * k));
    LeadsOn(start, m2, DoSend);
    var m3 := m0.(sem := 0, localPos := SLOT_SIZE * (k + 1), tx := Reserved(msg));
    LeadsOn(start, m3, DoSend);
    var m4 := m3.(mem := [map[0 := Cell(msg, false)]], quotas := AfterCount(q, msg, k), tx := Stored(msg));
    assert m3.mem[0 := map[0 := Cell(msg, false)]] == [map[0 := Cell(msg, false)]];
    assert Do(m3, DoSend) == m4;
    LeadsOn(start, m4, DoSend);
  }

  /** After the receiver has passed the slot and given it back. */
  function Back(k: nat, q: Quotas, msg: Msg): (m: Machine) {
    Rest(k + 1, q, map[0 := Cell(msg, false)], Info(1, 1)).(available := k + 1, sem := 0)
  }

  lemma Receives(start: State, k: nat, q: Quotas, msg: Msg, i: Info)
    requires Leads(start, Sent(k, q, msg, i)) && Whole(msg)
    ensures Leads(start, Back(k, q, msg))
  {
    hide Leads, Stride, SlotNumber, Written, Counted;
    WholePositions(k);
    var m0 := Sent(k, q, msg, i);
    LeadsOn(start, m0, DoReceive(false));
    var m1 := m0.(snap := SLOT_SIZE * (k + 1));
    LeadsOn(start, m1, DoReceive(false));
    var m2 := m1.(rxSlot := Some(0), info := [Info(1, 0)], parser := Header);
    assert Do(m1, DoReceive(false)) == m2;
    LeadsOn(start, m2, DoReceive(false));
    var m3 := m2.(rxPos := SLOT_SIZE * (k + 1), parser := Advanced);
    assert Do(m2, DoReceive(false)) == m3;
    LeadsOn(start, m3, DoReceive(false));
    assert NoRing()[(k + 1) % RING := 0] == NoRing();
    assert m3.info[0 := Info(1, 1)] == [Info(1, 1)];
    assert Do(m3, DoReceive(false)) == Back(k, q, msg);
  }

  /** The rescan stands at the slot's one message. */
  function Rescan(k: nat, q: Quotas, msg: Msg, counted: bool): (m: Machine) {
    Back(k, q, msg).(rc := Scanning(0, 0, {}, false, counted))
  }

  lemma Fetches(start: State, k: nat, q: Quotas, msg: Msg)
    requires Leads(start, Back(k, q, msg)) && QuotasShaped(q)
    ensures Leads(start, Rescan(k, q, msg, false))
  {
    hide Leads, Stride, SlotNumber, Written, Counted;
    LeadsOn(start, Back(k, q, msg), DoRecycle);
  }

  /** From the end of the slot the rescan finishes and everything is at rest again. */
  lemma Finishes(start: State, k: nat, q: Quotas, msg: Msg, found: set<nat>, dataFound: bool)
    requires Leads(start, Back(k, q, msg).(rc := Scanning(0, SLOT_SIZE, found, dataFound, false))) && QuotasShaped(q)
    ensures Leads(start, Rest(k + 1, if dataFound then q.(dataUse := Dec(q.dataUse)) else q, map[0 := Cell(msg, false)], Info(1, 1)))
  {
    hide Leads, Stride, SlotNumber, Written, Counted;
    var m0 := Back(k, q, msg).(rc := Scanning(0, SLOT_SIZE, found, dataFound, false));
    LeadsOn(start, m0, DoRecycle);
    var r := if dataFound then q.(dataUse := Dec(q.dataUse)) else q;
    var m1 := Back(k, r, msg).(rc := Scanned);
    LeadsOn(start, m1, DoRecycle);
    var m2 := m1.(available := k + 2, rc := Raised);
    LeadsOn(start, m2, DoRecycle);
  }

  /** A slot of other traffic goes round and leaves the counters as they are. */
  lemma ControlRound(start: State, k: nat, q: Quotas, slot: Slot, i: Info, msg: Msg)
    requires Leads(start, Rest(k, q, slot, i)) && InSlot(slot) && Whole(msg) && msg.Control? && QuotasShaped(q)
    ensures Leads(start, Rest(k + 1, q, map[0 := Cell(msg, false)], Info(1, 1)))
  {
    hide Leads, Stride, SlotNumber, Written, Counted;
    Sends(start, k, q, slot, i, msg);
    Receives(start, k, q, msg, i);
    Fetches(start, k, q, msg);
    var m := Rescan(k, q, msg, false);
    LeadsOn(start, m, DoRecycle);
    Finishes(start, k, q, msg, {}, false);
  }

  lemma {:induction false} ControlRounds(start: State, k: nat, q: Quotas, slot: Slot, i: Info, msg: Msg, n: nat)
    requires Leads(start, Rest(k, q, slot, i)) && InSlot(slot) && Whole(msg) && msg.Control? && QuotasShaped(q) && n > 0
    ensures Leads(start, Rest(k + n, q, map[0 := Cell(msg, false)], Info(1, 1)))
    decreases n
  {
    hide Leads, Stride, Rest;
    ControlRound(start, k, q, slot, i, msg);
    if n > 1 {
      ControlRounds(start, k + 1, q, map[0 := Cell(msg, false)], Info(1, 1), msg, n - 1);
      assert k + 1 + (n - 1) == k + n;
    }
  }

  /** A slot of DATA of port 0 that was counted goes round: it is counted off again. */
  lemma DataRound(start: State, k: nat, q: Quotas, slot: Slot, i: Info, msg: Msg)
    requires Leads(start, Rest(k, q, slot, i)) && InSlot(slot) && Whole(msg) && msg.Data? && msg.src == 0
    requires AdmitGuard(Rest(k, q, slot, i), msg) && Unused(q)
    requires q.previousTx[0] != k % SLOT_NUMBERS && q.previousData != k % SLOT_NUMBERS
    ensures Leads(start, Rest(k + 1, Latest(q, k), map[0 := Cell(msg, false)], Info(1, 1)))
  {
    hide Leads, Stride, SlotNumber, Written;
    Sends(start, k, q, slot, i, msg);
    var c := AfterCount(q, msg, k);
    Receives(start, k, c, msg, i);
    Fetches(start, k, c, msg);
    var m0 := Rescan(k, c, msg, false);
    LeadsOn(start, m0, DoRecycle);
    var c1 := c.(messageUse := c.messageUse[0 := 0]);
    var m1 := Rescan(k, c1, msg, true);
    assert Do(m0, DoRecycle) == m1;
    LeadsOn(start, m1, DoRecycle);
    var c2 := c1.(slotUse := c1.slotUse[0 := 0]);
    var m2 := Back(k, c2, msg).(rc := Scanning(0, SLOT_SIZE, {} + {0}, true, false));
    assert Do(m1, DoRecycle) == m2;
    Finishes(start, k, c2, msg, {} + {0}, true);
    assert c2.messageUse == q.messageUse && c2.slotUse == q.slotUse;
    assert c2.(dataUse := Dec(c2.dataUse)) == Latest(q, k);
  }

  /** Port 0 is open and nothing of it is in use, nor any DATA. */
  predicate Unused(q: Quotas) {
    QuotasShaped(q) && q.messageUse[0] == 0 && q.slotUse[0] == 0 && q.dataUse == 0 && 0 in q.open
  }

  function Latest(q: Quotas, k: nat): (r: Quotas)
    requires QuotasShaped(q)
  {
    q.(previousTx := q.previousTx[0 := k % SLOT_NUMBERS], previousData := k % SLOT_NUMBERS)
  }

  /** DATA in a slot whose number is taken for the remembered one is not counted as a slot; its
      rescan finds the slot count at zero. */
  lemma AliasedRound(start: State, k: nat, q: Quotas, slot: Slot, i: Info, msg: Msg)
    requires Leads(start, Rest(k, q, slot, i)) && InSlot(slot) && Whole(msg) && msg.Data? && msg.src == 0
    requires AdmitGuard(Rest(k, q, slot, i), msg) && Unused(q)
    requires q.previousTx[0] == k % SLOT_NUMBERS && q.previousData == k % SLOT_NUMBERS
    ensures exists m :: Leads(start, m) && RecycleGuard(m) && RecycleSafe(m) && !CountersCover(m)
  {
    hide Leads, Stride, SlotNumber, Written;
    Sends(start, k, q, slot, i, msg);
    var c := AfterCount(q, msg, k);
    Receives(start, k, c, msg, i);
    Fetches(start, k, c, msg);
    var m0 := Rescan(k, c, msg, false);
    LeadsOn(start, m0, DoRecycle);
    var c1 := c.(messageUse := c.messageUse[0 := 0]);
    var m1 := Rescan(k, c1, msg, true);
    assert Do(m0, DoRecycle) == m1;
    assert RecycleSafe(m1) && !CountersCover(m1);
  }

  // ---------------------------------------------------------------- the run

  function Filler(): (msg: Msg) {
    Control(1, seq(SLOT_SIZE - HEADER_SIZE, i => 0))
  }

  function Datum(): (msg: Msg) {
    Data(0, 0, seq(SLOT_SIZE - HEADER_SIZE, i => 0))
  }

  lemma BothWhole()
    ensures Whole(Filler()) && Filler().Control? && Whole(Datum()) && Datum().Data? && Datum().src == 0
  {
  }

  /** The counters once port 0 has been added. */
  function Opened0(): (q: Quotas)
    ensures Unused(q) && q.previousTx[0] == -1 && q.previousData == -1 && q.messageQuota[0] == 1 && q.slotQuota[0] == 1
  {
    var q := Initial(1, 1, 1).quotas;
    q.(open := {} + {0}, previousTx := q.previousTx[0 := -1])
  }

  lemma Opens()
    ensures Leads(Start(1, 1, 1), Rest(0, Opened0(), map[], Info(0, 0)))
  {
    hide Leads;
    var start := Start(1, 1, 1);
    LeadsAtOnce(start);
    LeadsOn(start, start.m, DoAdd(0));
    OpensTo();
  }

  lemma OpensTo()
    ensures AddGuard(Start(1, 1, 1).m, 0) && Do(Start(1, 1, 1).m, DoAdd(0)) == Rest(0, Opened0(), map[], Info(0, 0))
  {
    var m := Start(1, 1, 1).m;
    assert m.ring == NoRing();
    assert m.mem == [map[]] && m.info == [Info(0, 0)];
  }

  lemma LeadsAtOnce(start: State)
    ensures Leads(start, start.m)
  {
    assert LeadsBy(start, [], start.m);
  }

  /** With one message and one slot as quota: DATA in slot number 0, other traffic up to slot number
      2^20, and DATA again. The slot is not counted, and its rescan is about to lower a counter
      that is zero. */
  lemma CountGoesMissing()
    ensures exists s :: Reachable(s) && RecycleGuard(s.m) && RecycleSafe(s.m) && !CountersCover(s.m)
  {
    hide Leads, Rest, Opened0, Filler, Datum, Whole;
    var start := Start(1, 1, 1);
    var q0 := Opened0();
    BothWhole();
    Opens();
    Admits(0, q0, map[], Info(0, 0), Datum());
    DataRound(start, 0, q0, map[], Info(0, 0), Datum());
    var q := Latest(q0, 0);
    ControlRounds(start, 1, q, map[0 := Cell(Datum(), false)], Info(1, 1), Filler(), SLOT_NUMBERS - 1);
    var slot := map[0 := Cell(Filler(), false)];
    Admits(SLOT_NUMBERS, q, slot, Info(1, 1), Datum());
    AliasedRound(start, SLOT_NUMBERS, q, slot, Info(1, 1), Datum());
    var m :| Leads(start, m) && RecycleGuard(m) && RecycleSafe(m) && !CountersCover(m);
    LedReachable(m);
  }

  lemma Admits(k: nat, q: Quotas, slot: Slot, i: Info, msg: Msg)
    requires Unused(q) && q.messageQuota[0] > 0 && q.slotQuota[0] > 0 && Whole(msg) && msg.Data? && msg.src == 0
    ensures AdmitGuard(Rest(k, q, slot, i), msg)
  {
    hide Stride, SlotNumber;
  }

  lemma LedReachable(m: Machine)
    requires Leads(Start(1, 1, 1), m)
    ensures exists s :: Reachable(s) && s.m == m
  {
    hide Start, Run;
    var acts :| LeadsBy(Start(1, 1, 1), acts, m);
    var s := Run(Start(1, 1, 1), acts).value;
    assert Reaches(1, 1, 1, acts, s);
    assert Reachable(s) && s.m == m;
  }
}
