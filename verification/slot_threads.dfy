/** The transport's functions as they run, updating the shared structures in place. Each is
    shown to be a run of the machine's atomic steps of its own thread, so what holds on every run
    holds around every call. */
module SlotThreads {
  import opened Basics
  import opened SlotMachine
  import opened SlotHistory
  import opened SlotLedger
  import opened SlotAccounts
  import opened SlotRuns
  import opened SlotSteps
  import opened SlotExact
  import opened SlotTransport
  import opened SlotHandover

  /** One more step at the end of a run. */
  lemma Extend(start: State, acts: seq<Action>, s: State, a: Action)
    requires Run(start, acts) == Some(s) && Sound(s) && Guard(s.m, a)
    ensures Safe(s.m, a) && Run(start, acts + [a]) == Some(Step(s, a)) && Sound(Step(s, a))
  {
    hide Sound, Run, Guard, Safe, Step;
    EveryStepKeeps(s, a);
    RunMore(start, acts, s, a);
  }

  class Transport {
    // shared by the two sides
    const ring: array<nat>
    var recycle: nat
    var txPos: nat
    var mem: seq<Slot>
    // the sending side
    var localPos: nat
    var txSlot: nat
    var available: nat
    var sem: nat
    var quotas: Quotas
    // the receiving side
    var rxPos: nat
    var rxSlot: Option<nat>
    const info: array<Info>
    // where each thread is, and what happened so far
    ghost var tx: Sender
    ghost var rc: Recycler
    ghost var snap: nat
    ghost var parser: Parser
    ghost var h: History

    ghost function View(): (m: Machine)
      reads this, ring, info
    {
      Machine(ring[..], recycle, txPos, mem, localPos, txSlot, available, sem, tx, quotas, rc, snap, rxPos, rxSlot, parser, info[..])
    }

    ghost function Now(): (s: State)
      reads this, ring, info
    {
      State(View(), h)
    }

    /** Slots 0 up to n are put on the ring one by one. */
    constructor (n: nat, messageQuota: nat, slotQuota: nat)
      requires 1 <= n <= RING
      ensures Now() == Start(n, messageQuota, slotQuota) && fresh(ring) && fresh(info)
    {
      ring := new nat[RING](_ => 0);
      info := new Info[n](_ => Info(0, 0));
      recycle, txPos, localPos, txSlot, available, sem := 0, 0, 0, 0, 0, 0;
      mem := seq(n, i => map[]);
      quotas := Initial(n, messageQuota, slotQuota).quotas;
      rxPos, rxSlot := 0, None;
      tx, rc, snap, parser := Idle, Resting, 0, Next;
      h := Start(n, messageQuota, slotQuota).h;
      new;
      while available < n
        invariant available == sem <= n && recycle == 0
        invariant forall i :: 0 <= i < RING ==> ring[i] == if i < available then i else 0
        invariant forall i :: 0 <= i < n ==> info[i] == Info(0, 0)
        invariant h == Start(n, messageQuota, slotQuota).h
        invariant View() == Initial(n, messageQuota, slotQuota).(ring := ring[..], recycle := 0, available := available, sem := sem, info := info[..])
      {
        ring[available] := available;
        available := available + 1;
        sem := sem + 1;
      }
      recycle := available;
      assert ring[..] == Initial(n, messageQuota, slotQuota).ring;
      assert info[..] == Initial(n, messageQuota, slotQuota).info;
    }

    // ------------------------------------------------------------ recycling

    /** Rescans every slot that came back, takes its DATA messages off the counters and makes it
        available. Afterwards every slot that came back is available again, and counters that were
        exact count exactly the slots still in use. */
    method ProcessFreeQueue() returns (ghost acts: seq<Action>)
      requires Sound(Now()) && rc == Resting
      modifies this`available, this`sem, this`quotas, this`rc, this`h
      ensures Run(old(Now()), acts) == Some(Now()) && Sound(Now()) && rc == Resting
      ensures available == recycle && sem == old(sem) + recycle - old(available)
      ensures h == old(h).(stage := h.stage, scanAt := h.scanAt)
      ensures |h.stage| == |h.log| && forall k :: 0 <= k < |h.stage| ==> h.stage[k].Live? || h.stage[k].Done?
      ensures QuotasShaped(quotas)
      ensures old(Exact(Now())) ==> Exact(Now()) && forall w :: ValidMeasure(w) ==> Counter(quotas, w) == InUse(h.log, h.stage, w)
    {
      hide Sound, Exact, Run, Step, InUse, Weigh, OnlyRecycles;
      NothingRecycled();
      acts := [];
      var slotQueueAvailable := available;
      RunNothing(Now());
      AvailableBound(Now());
      while slotQueueAvailable != recycle
        invariant Run(old(Now()), acts) == Some(Now()) && Sound(Now()) && rc == Resting && OnlyRecycles(acts)
        invariant slotQueueAvailable == available <= recycle && sem == old(sem) + available - old(available)
        invariant h == old(h).(stage := h.stage, scanAt := h.scanAt)
        decreases recycle - available
      {
        var more := RescanSlot(old(Now()), acts);
        acts := more;
        slotQueueAvailable := slotQueueAvailable + 1;
        AvailableBound(Now());
      }
      AllBack(Now());
      if Exact(old(Now())) {
        OnlyRecyclesUnaliased(old(Now()), acts);
        RunExact(old(Now()), acts);
        AllCounted(Now());
      }
    }

    /** Rescans the slot at the head of the free queue. */
    method RescanSlot(ghost start: State, ghost before: seq<Action>) returns (ghost acts: seq<Action>)
      requires Run(start, before) == Some(Now()) && Sound(Now()) && OnlyRecycles(before) && rc == Resting && available != recycle
      modifies this`available, this`sem, this`quotas, this`rc, this`h
      ensures Run(start, acts) == Some(Now()) && Sound(Now()) && OnlyRecycles(acts) && rc == Resting
      ensures available == old(available) + 1 && sem == old(sem) + 1
      ensures h == old(h).(stage := h.stage, scanAt := h.scanAt)
    {
      hide Sound, Run, Stride, RecycleSafe, Step;
      var slotIndex;
      slotIndex, acts := HeadOfQueue(start, before);
      var dataFound := false;
      var found: set<nat> := {};
      var pos := 0;
      while pos < SLOT_SIZE
        invariant Run(start, acts) == Some(Now()) && Sound(Now()) && OnlyRecycles(acts)
        invariant rc == Scanning(slotIndex, pos, found, dataFound, false)
        invariant available == old(available) && sem == old(sem)
        invariant h == old(h).(stage := h.stage, scanAt := h.scanAt)
        decreases SLOT_SIZE - pos
      {
        pos, found, dataFound, acts := RescanHeader(start, acts, slotIndex, pos, found, dataFound);
      }
      acts := CountSlotOff(start, acts, dataFound);
      acts := MakeAvailable(start, acts);
    }

    /** One header of the slot under rescan. */
    method RescanHeader(ghost start: State, ghost before: seq<Action>, slotIndex: nat, pos: nat, found: set<nat>, dataFound: bool)
        returns (next: nat, ports: set<nat>, any: bool, ghost acts: seq<Action>)
      requires Run(start, before) == Some(Now()) && Sound(Now()) && OnlyRecycles(before)
      requires rc == Scanning(slotIndex, pos, found, dataFound, false) && pos < SLOT_SIZE
      modifies this`quotas, this`rc, this`h
      ensures Run(start, acts) == Some(Now()) && Sound(Now()) && OnlyRecycles(acts)
      ensures rc == Scanning(slotIndex, next, ports, any, false) && pos < next <= SLOT_SIZE
      ensures h == old(h).(stage := h.stage, scanAt := h.scanAt)
    {
      hide Sound, Run, Stride, RecycleSafe, Step;
      ScanReads(Now());
      ScanRoom(Now());
      var header := mem[slotIndex][pos];
      next := pos + Stride(header.msg);
      if header.msg.Data? && !header.claimed {
        acts := CountOff(start, before, header, slotIndex, pos, found, dataFound);
        ports, any := found + {header.msg.src}, true;
      } else {
        acts := PassOver(start, before, header);
        ports, any := found, dataFound;
      }
    }

    method HeadOfQueue(ghost start: State, ghost before: seq<Action>) returns (slotIndex: nat, ghost acts: seq<Action>)
      requires Run(start, before) == Some(Now()) && Sound(Now()) && OnlyRecycles(before) && rc == Resting && available != recycle
      modifies this`rc, this`h
      ensures Run(start, acts) == Some(Now()) && Sound(Now()) && OnlyRecycles(acts)
      ensures ring.Length == RING && slotIndex == ring[available % RING] && rc == Scanning(slotIndex, 0, {}, false, false)
      ensures h == old(h).(scanAt := h.scanAt)
    {
      hide Sound, Run, RecycleSafe, Step;
      Extend(start, before, Now(), DoRecycle);
      FetchStep(Now());
      slotIndex := ring[available % RING];
      rc := Scanning(slotIndex, 0, {}, false, false);
      h := h.(scanAt := 0);
      acts := before + [DoRecycle];
    }

    method PassOver(ghost start: State, ghost before: seq<Action>, header: Cell) returns (ghost acts: seq<Action>)
      requires Run(start, before) == Some(Now()) && Sound(Now()) && OnlyRecycles(before)
      requires rc.Scanning? && !rc.counted && rc.pos < SLOT_SIZE && RecycleSafe(View())
      requires header == mem[rc.slot][rc.pos] && !header.msg.Data?
      modifies this`rc, this`h
      ensures Run(start, acts) == Some(Now()) && Sound(Now()) && OnlyRecycles(acts)
      ensures rc == old(rc).(pos := old(rc.pos) + Stride(header.msg))
      ensures h == old(h).(scanAt := h.scanAt)
    {
      hide Sound, Run, Step, Stride;
      Extend(start, before, Now(), DoRecycle);
      PassStep(Now());
      rc := rc.(pos := rc.pos + Stride(header.msg));
      h := h.(scanAt := h.scanAt + 1);
      acts := before + [DoRecycle];
    }

    /** Takes one DATA message off its port's counters, and its slot when the port is new in it. */
    method CountOff(ghost start: State, ghost before: seq<Action>, header: Cell, slotIndex: nat, pos: nat, found: set<nat>, dataFound: bool)
        returns (ghost acts: seq<Action>)
      requires Run(start, before) == Some(Now()) && Sound(Now()) && OnlyRecycles(before)
      requires rc == Scanning(slotIndex, pos, found, dataFound, false) && pos < SLOT_SIZE && RecycleSafe(View())
      requires header == mem[slotIndex][pos] && header.msg.Data? && !header.claimed
      modifies this`quotas, this`rc, this`h
      ensures Run(start, acts) == Some(Now()) && Sound(Now()) && OnlyRecycles(acts)
      ensures rc == Scanning(slotIndex, pos + Stride(header.msg), found + {header.msg.src}, true, false)
      ensures h == old(h).(stage := h.stage, scanAt := h.scanAt)
    {
      hide Sound, Run, Stride;
      var port := header.msg.src;
      ghost var s := Now();
      Extend(start, before, s, DoRecycle);
      var count := quotas.messageUse[port];
      if count > 0 {
        quotas := quotas.(messageUse := quotas.messageUse[port := count - 1]);
      }
      rc := rc.(counted := true);
      assert Now() == Step(s, DoRecycle);
      acts := CountPortOff(start, before + [DoRecycle], header, slotIndex, pos, found, dataFound);
    }

    /** Counts the slot off for the message's port, once a slot. */
    method CountPortOff(ghost start: State, ghost before: seq<Action>, header: Cell, slotIndex: nat, pos: nat, found: set<nat>, dataFound: bool)
        returns (ghost acts: seq<Action>)
      requires Run(start, before) == Some(Now()) && Sound(Now()) && OnlyRecycles(before)
      requires rc == Scanning(slotIndex, pos, found, dataFound, true) && pos < SLOT_SIZE && RecycleSafe(View())
      requires header == mem[slotIndex][pos] && header.msg.Data? && !header.claimed
      modifies this`quotas, this`rc, this`h
      ensures Run(start, acts) == Some(Now()) && Sound(Now()) && OnlyRecycles(acts)
      ensures rc == Scanning(slotIndex, pos + Stride(header.msg), found + {header.msg.src}, true, false)
      ensures h == old(h).(stage := h.stage, scanAt := h.scanAt)
    {
      hide Sound, Run, Stride;
      var port := header.msg.src;
      ghost var s := Now();
      Extend(start, before, s, DoRecycle);
      if port !in found {
        var count := quotas.slotUse[port];
        if count > 0 {
          quotas := quotas.(slotUse := quotas.slotUse[port := count - 1]);
        }
      }
      rc := Scanning(slotIndex, pos + Stride(header.msg), found + {port}, true, false);
      h := h.(scanAt := h.scanAt + 1);
      assert Now() == Step(s, DoRecycle);
      acts := before + [DoRecycle];
    }

    /** Counts the slot itself off when it held any DATA. */
    method CountSlotOff(ghost start: State, ghost before: seq<Action>, dataFound: bool) returns (ghost acts: seq<Action>)
      requires Run(start, before) == Some(Now()) && Sound(Now()) && OnlyRecycles(before)
      requires rc.Scanning? && rc.pos >= SLOT_SIZE && rc.dataFound == dataFound
      modifies this`quotas, this`rc
      ensures Run(start, acts) == Some(Now()) && Sound(Now()) && OnlyRecycles(acts) && rc == Scanned
      ensures quotas == if dataFound then old(quotas).(dataUse := Dec(old(quotas).dataUse)) else old(quotas)
    {
      hide Sound, Run, RecycleSafe, Step;
      Extend(start, before, Now(), DoRecycle);
      EndStep(Now());
      if dataFound {
        var count := quotas.dataUse;
        if count > 0 {
          quotas := quotas.(dataUse := count - 1);
        }
      }
      rc := Scanned;
      acts := before + [DoRecycle];
    }

    /** Hands the slot to the sender. */
    method MakeAvailable(ghost start: State, ghost before: seq<Action>) returns (ghost acts: seq<Action>)
      requires Run(start, before) == Some(Now()) && Sound(Now()) && OnlyRecycles(before) && rc == Scanned
      modifies this`available, this`sem, this`rc, this`h
      ensures Run(start, acts) == Some(Now()) && Sound(Now()) && OnlyRecycles(acts) && rc == Resting
      ensures available == old(available) + 1 && sem == old(sem) + 1
      ensures h == old(h).(stage := h.stage)
    {
      hide Sound, Run, RecycleSafe, Step, Recycled;
      Extend(start, before, Now(), DoRecycle);
      RaiseStep(Now());
      h := h.(stage := Recycled(h, View()));
      available := available + 1;
      rc := Raised;
      acts := before + [DoRecycle];

      Extend(start, acts, Now(), DoRecycle);
      UpStep(Now());
      sem := sem + 1;
      rc := Resting;
      acts := acts + [DoRecycle];
    }

    // ------------------------------------------------------------ sending

    /** Reserves room for the message in hand. With no slot free it publishes what is written and,
        unless it may block, gives up; a blocking caller is left waiting and goes on with
        WokenReserve or InterruptedReserve. */
    method ReserveSpace(ghost start: State, ghost before: seq<Action>, msg: Msg, isBlocking: bool)
        returns (outcome: Outcome, ghost acts: seq<Action>)
      requires Run(start, before) == Some(Now()) && Sound(Now()) && tx == Admitted(msg)
      modifies this`mem, this`localPos, this`txPos, this`txSlot, this`sem, this`tx, this`h
      ensures Run(start, acts) == Some(Now()) && Sound(Now())
      ensures outcome == Ready || outcome == Refused || outcome == Waits
      ensures outcome == Ready ==> tx == Reserved(msg)
      ensures outcome == Refused ==> !isBlocking && old(sem) == 0 && tx == Idle && localPos == txPos && localPos % SLOT_SIZE == 0
      ensures outcome == Waits ==> isBlocking && old(sem) == 0 && tx == Blocked(msg, localPos) && localPos == txPos
      ensures h.sent == old(h).sent && h.parsed == old(h).parsed
    {
      hide Sound, Run, Step, Stride, Safe;
      var pos := localPos;
      var slotSpace := Space(pos);
      if Stride(msg) > slotSpace {
        pos, acts := PadSlot(start, before, msg, slotSpace);
      } else if pos % SLOT_SIZE == 0 {
        Extend(start, before, Now(), DoSend);
        SeekStepIs(Now());
        tx := Seeking(msg, pos);
        acts := before + [DoSend];
      } else {
        Extend(start, before, Now(), DoSend);
        FitStepIs(Now());
        acts := before + [DoSend];
        localPos := pos + Stride(msg);
        tx := Reserved(msg);
        return Ready, acts;
      }
      if sem == 0 {
        acts := FlushAll(start, acts, msg, pos);
        if isBlocking {
          return Waits, acts;
        }
        acts := InterruptedReserve(start, acts);
        return Refused, acts;
      }
      acts := NextSlot(start, acts, msg, pos);
      outcome := Ready;
    }

    /** Fills the rest of the slot with a padding message. */
    method PadSlot(ghost start: State, ghost before: seq<Action>, msg: Msg, slotSpace: nat)
        returns (pos: nat, ghost acts: seq<Action>)
      requires Run(start, before) == Some(Now()) && Sound(Now())
      requires tx == Admitted(msg) && slotSpace == Space(localPos) && Stride(msg) > slotSpace
      modifies this`mem, this`tx, this`h
      ensures Run(start, acts) == Some(Now()) && Sound(Now()) && tx == Seeking(msg, pos)
      ensures h == old(h).(log := h.log)
    {
      hide Sound, Run, Step, Stride, Safe;
      Extend(start, before, Now(), DoSend);
      PadStepIs(Now());
      acts := before + [DoSend];
      var header := Padding(slotSpace - HEADER_SIZE);
      mem := mem[txSlot := Written(mem[txSlot], localPos % SLOT_SIZE, header)];
      h := h.(log := Append(h.log, header));
      pos := localPos + slotSpace;
      tx := Seeking(msg, pos);
    }

    method FlushAll(ghost start: State, ghost before: seq<Action>, msg: Msg, pos: nat) returns (ghost acts: seq<Action>)
      requires Run(start, before) == Some(Now()) && Sound(Now()) && tx == Seeking(msg, pos) && sem == 0
      modifies this`localPos, this`txPos, this`tx, this`h
      ensures Run(start, acts) == Some(Now()) && Sound(Now())
      ensures tx == Blocked(msg, pos) && localPos == txPos == pos && pos % SLOT_SIZE == 0
      ensures h == old(h).(txMark := h.txMark)
    {
      hide Sound, Run, Step, Stride, Safe;
      Extend(start, before, Now(), DoSend);
      FlushStepIs(Now());
      h := h.(txMark := EndMark(h.log));
      localPos := pos;
      txPos := pos;
      tx := Blocked(msg, pos);
      acts := before + [DoSend];
      BlockedAtBoundary(Now());
    }

    /** Takes the next slot off the ring. */
    method NextSlot(ghost start: State, ghost before: seq<Action>, msg: Msg, pos: nat) returns (ghost acts: seq<Action>)
      requires Run(start, before) == Some(Now()) && Sound(Now()) && sem > 0
      requires tx == Seeking(msg, pos) || tx == Blocked(msg, pos)
      modifies this`localPos, this`txSlot, this`sem, this`tx, this`h
      ensures Run(start, acts) == Some(Now()) && Sound(Now()) && tx == Reserved(msg)
      ensures h == old(h).(log := h.log, stage := h.stage)
    {
      hide Sound, Run, Step, Stride, Safe;
      Extend(start, before, Now(), DoSend);
      TakeStepIs(Now(), msg, pos);
      assert pos != available * SLOT_SIZE;
      sem := sem - 1;
      var slotIndex := ring[pos / SLOT_SIZE % RING];
      txSlot := slotIndex;
      localPos := pos + Stride(msg);
      tx := Reserved(msg);
      h := h.(log := h.log + [[]], stage := h.stage + [Live]);
      acts := before + [DoSend];
    }

    method InterruptedReserve(ghost start: State, ghost before: seq<Action>) returns (ghost acts: seq<Action>)
      requires Run(start, before) == Some(Now()) && Sound(Now()) && tx.Blocked?
      modifies this`tx
      ensures Run(start, acts) == Some(Now()) && Sound(Now()) && tx == Idle
    {
      hide Sound, Run;
      Extend(start, before, Now(), DoGiveUp);
      tx := Idle;
      acts := before + [DoGiveUp];
      assert Now() == Step(old(Now()), DoGiveUp);
    }

    /** Stores the message in the reserved room and counts it. */
    method StoreMessage(ghost start: State, ghost before: seq<Action>, msg: Msg) returns (ghost acts: seq<Action>)
      requires Run(start, before) == Some(Now()) && Sound(Now()) && tx == Reserved(msg)
      modifies this`mem, this`quotas, this`tx, this`h
      ensures Run(start, acts) == Some(Now()) && Sound(Now()) && tx == Stored(msg)
      ensures h == old(h).(log := h.log, lastTx := h.lastTx, lastData := h.lastData)
    {
      hide Sound, Run, Step, Stride, Safe, Counted, Written, Append, QuotasShaped, AdmitGuard, SlotNumber;
      ghost var s := Now();
      Extend(start, before, s, DoSend);
      CommitStepIs(s);
      mem := mem[txSlot := Written(mem[txSlot], (localPos - Stride(msg)) % SLOT_SIZE, msg)];
      if msg.Data? {
        CountMessage(msg.src, SlotNumber(localPos - 1));
      }
      tx := Stored(msg);
      h := Step(s, DoSend).h;
      acts := before + [DoSend];
    }

    /** Makes the message visible to the peer. */
    method Publish(ghost start: State, ghost before: seq<Action>, msg: Msg) returns (ghost acts: seq<Action>)
      requires Run(start, before) == Some(Now()) && Sound(Now()) && tx == Stored(msg)
      modifies this`txPos, this`tx, this`h
      ensures Run(start, acts) == Some(Now()) && Sound(Now()) && tx == Idle
      ensures txPos == localPos && h == old(h).(sent := old(h).sent + [msg], txMark := h.txMark)
    {
      hide Sound, Run, Step, Stride, Safe;
      Extend(start, before, Now(), DoSend);
      PublishStepIs(Now());
      h := h.(sent := h.sent + [msg], txMark := EndMark(h.log));
      txPos := localPos;
      tx := Idle;
      acts := before + [DoSend];
    }

    /** Counts one DATA message of a port that ends in slot number txEndIndex. */
    method CountMessage(port: nat, txEndIndex: nat)
      requires QuotasShaped(quotas) && port < PORTS
      modifies this`quotas
      ensures quotas == Counted(old(quotas), port, txEndIndex)
    {
      quotas := quotas.(messageUse := quotas.messageUse[port := quotas.messageUse[port] + 1]);
      if txEndIndex != quotas.previousData {
        quotas := quotas.(previousData := txEndIndex, dataUse := quotas.dataUse + 1);
      }
      if txEndIndex != quotas.previousTx[port] {
        quotas := quotas.(previousTx := quotas.previousTx[port := txEndIndex], slotUse := quotas.slotUse[port := quotas.slotUse[port] + 1]);
      }
    }

    /** Queues a message. When it succeeds the message is sent and published. A message that does
        not fit a slot is refused, one over its service's quota is left to wait for the quota, and
        when no slot is free a caller that may not block gets nothing sent. */
    method QueueMessage(msg: Msg, isBlocking: bool) returns (outcome: Outcome, ghost acts: seq<Action>)
      requires Sound(Now()) && tx == Idle && !msg.Padding? && (msg.Data? ==> msg.src < PORTS && msg.src in quotas.open)
      modifies this`mem, this`localPos, this`txPos, this`txSlot, this`sem, this`tx, this`h, this`quotas
      ensures Run(old(Now()), acts) == Some(Now()) && Sound(Now())
      ensures outcome == TooBig <==> Size(msg) > SLOT_SIZE - HEADER_SIZE
      ensures QuotasShaped(old(quotas))
      ensures outcome == OverQuota <==>
        Size(msg) <= SLOT_SIZE - HEADER_SIZE && msg.Data?
        && (old(quotas).messageUse[msg.src] == old(quotas).messageQuota[msg.src]
            || ((old(localPos) + Stride(msg) - 1) / SLOT_SIZE % SLOT_NUMBERS != old(quotas).previousTx[msg.src]
                && old(quotas).slotUse[msg.src] == old(quotas).slotQuota[msg.src]))
      ensures outcome != TooBig && old(Truthful(Now(), msg)) ==> (outcome == OverQuota <==> old(TrulyOver(Now(), msg)))
      ensures outcome == TooBig || outcome == OverQuota ==> Now() == old(Now())
      ensures outcome == Ready ==> tx == Idle && txPos == localPos && h.sent == old(h).sent + [msg]
      ensures outcome == Refused ==> !isBlocking && tx == Idle && h.sent == old(h).sent && localPos == txPos && localPos % SLOT_SIZE == 0
      ensures outcome == Waits ==> isBlocking && tx == Blocked(msg, localPos) && h.sent == old(h).sent
      ensures outcome == Refused || outcome == Waits ==> old(sem) == 0
      ensures h.parsed == old(h).parsed
    {
      hide Sound, Run, Step, Stride, Safe, WithinQuota, Truthful, TrulyOver;
      RunNothing(Now());
      QuotasShape(Now());
      if Size(msg) > SLOT_SIZE - HEADER_SIZE {
        return TooBig, [];
      }
      QuotaTells(Now(), msg);
      if msg.Data? && !WithinQuota(quotas, localPos, msg) {
        return OverQuota, [];
      }
      Extend(Now(), [], Now(), DoAdmit(msg));
      AdmitStepIs(Now(), msg);
      tx := Admitted(msg);
      acts := [] + [DoAdmit(msg)];
      outcome, acts := ReserveSpace(old(Now()), acts, msg, isBlocking);
      if outcome == Ready {
        acts := StoreMessage(old(Now()), acts, msg);
        acts := Publish(old(Now()), acts, msg);
      }
    }

    /** A slot has become available to a caller that was left waiting: the message is sent. */
    method WokenQueueMessage(msg: Msg, pos: nat) returns (ghost acts: seq<Action>)
      requires Sound(Now()) && tx == Blocked(msg, pos) && sem > 0
      modifies this`mem, this`localPos, this`txPos, this`txSlot, this`sem, this`tx, this`h, this`quotas
      ensures Run(old(Now()), acts) == Some(Now()) && Sound(Now())
      ensures tx == Idle && txPos == localPos && h.sent == old(h).sent + [msg] && h.parsed == old(h).parsed
    {
      hide Sound, Run, Step, Stride, Safe;
      RunNothing(Now());
      acts := NextSlot(old(Now()), [], msg, pos);
      acts := StoreMessage(old(Now()), acts, msg);
      acts := Publish(old(Now()), acts, msg);
    }

    /** Brings a port into use: without slots in use it starts behind the slot being filled. */
    method AddServicePort(port: nat) returns (ghost acts: seq<Action>)
      requires Sound(Now()) && tx == Idle && port < PORTS
      modifies this`quotas, this`h
      ensures Run(old(Now()), acts) == Some(Now()) && Sound(Now()) && port in quotas.open
      ensures QuotasShaped(quotas) && QuotasShaped(old(quotas))
      ensures quotas.slotUse == old(quotas).slotUse && quotas.messageUse == old(quotas).messageUse
      ensures old(quotas).slotUse[port] == 0 ==> quotas.previousTx[port] == SlotNumber(localPos) - 1
    {
      hide Sound, Run;
      RunNothing(Now());
      QuotasShape(Now());
      Extend(Now(), [], Now(), DoAdd(port));
      quotas := quotas.(open := quotas.open + {port});
      if quotas.slotUse[port] == 0 {
        quotas := quotas.(previousTx := quotas.previousTx[port := SlotNumber(localPos) - 1]);
      }
      h := Step(old(Now()), DoAdd(port)).h;
      assert Now() == Step(old(Now()), DoAdd(port));
      acts := [] + [DoAdd(port)];
    }

    // ------------------------------------------------------------ receiving

    /** Lets go of one header, or of the parser's own hold on the slot. The last holder puts the
        slot on the peer's ring of free slots. */
    method ReleaseSlot(slot: nat, header: Option<nat>)
      requires slot < info.Length && slot < |mem| && ring.Length == RING && (header.Some? ==> header.value in mem[slot])
      modifies this`mem, this`recycle, ring, info
      ensures View() == if header.Some? then Release(old(View()), slot, header.value) else Unhold(old(View()), slot)
    {
      if header.Some? {
        var cell := mem[slot][header.value];
        if !cell.claimed {
          return;
        }
        mem := mem[slot := mem[slot][header.value := cell.(claimed := false)]];
      }
      var releaseCount := info[slot].releaseCount + 1;
      info[slot] := Info(info[slot].useCount, releaseCount);
      if releaseCount == info[slot].useCount {
        ring[recycle % RING] := slot;
        recycle := recycle + 1;
      }
    }

    /** A client lets go of a message header. Headers nobody holds are left alone. */
    method ReleaseMessage(slot: nat, off: nat) returns (ghost acts: seq<Action>)
      requires Sound(Now()) && slot < |mem| && off in mem[slot]
      modifies this`mem, this`recycle, this`h, ring, info
      ensures Run(old(Now()), acts) == Some(Now()) && Sound(Now())
      ensures off in mem[slot] && !mem[slot][off].claimed
      ensures !old(mem[slot][off].claimed) ==> Now() == old(Now())
    {
      hide Sound, Run, Step, Release;
      RunNothing(Now());
      SlotShape(Now());
      ghost var s := Now();
      Extend(s, [], s, DoRelease(slot, off));
      ReleaseStepIs(s, slot, off);
      ReleaseSlot(slot, Some(off));
      h := Step(s, DoRelease(slot, off)).h;
      acts := [] + [DoRelease(slot, off)];
    }

    /** Of the messages parsed since (rx0, at0), exactly the DATA of open services is claimed. */
    ghost predicate HandedSince(rx0: nat, at0: nat, open: Msg -> bool)
      reads this
    {
      Handed(mem, h.order, h.log, h.stage, rx0, at0, h.rx, h.at, open)
    }

    /** Parses everything published. The DATA messages whose service is open, and no others, are
        claimed and handed to the client, in order; afterwards the read position has reached the
        published one, and with no message half sent everything sent has been delivered, in order. */
    method ParseRxSlots(open: Msg -> bool) returns (handed: seq<Msg>, ghost acts: seq<Action>)
      requires Sound(Now()) && parser == Next && rxPos == snap
      modifies this`mem, this`recycle, this`h, this`rxPos, this`rxSlot, this`snap, this`parser, ring, info
      ensures Run(old(Now()), acts) == Some(Now()) && Sound(Now())
      ensures parser == Next && rxPos == snap == txPos
      ensures h.sent == old(h).sent
      ensures tx == Idle ==> Payload(h.parsed) == h.sent
      ensures old(h).parsed <= h.parsed && handed == Openings(h.parsed[|old(h).parsed|..], open)
      ensures HandedSince(old(h).rx, old(h).at, open)
    {
      hide Sound, Run, Step, Stride, Safe, Payload, Handed, Openings;
      var pos := txPos;
      NothingHanded(Now(), open);
      acts := LookAtPublished();
      handed := [];
      NoOpenings(h.parsed, open);
      while rxPos != pos
        invariant Run(old(Now()), acts) == Some(Now()) && Sound(Now())
        invariant parser == Next && snap == pos == txPos && rxPos <= pos
        invariant h.sent == old(h).sent && old(h).parsed <= h.parsed
        invariant handed == Openings(h.parsed[|old(h).parsed|..], open) && HandedSince(old(h).rx, old(h).at, open)
        decreases pos - rxPos
      {
        ghost var parsed := h.parsed;
        handed, acts := ParseOne(old(Now()), acts, open, handed, old(h).rx, old(h).at);
        OneParsed(old(h).parsed, parsed, h.parsed, open);
      }
      if tx == Idle {
        AllDelivered(Now());
      }
    }

    method LookAtPublished() returns (ghost acts: seq<Action>)
      requires Sound(Now()) && parser == Next && rxPos == snap
      modifies this`h, this`snap
      ensures Run(old(Now()), acts) == Some(Now()) && Sound(Now())
      ensures snap == txPos && rxPos <= snap && h == old(h).(snapMark := h.snapMark)
    {
      hide Sound, Run, Step, Stride, Safe;
      RunNothing(Now());
      ghost var s := Now();
      Extend(s, [], s, DoReceive(false));
      SnapStepIs(s);
      snap := txPos;
      h := h.(snapMark := h.txMark);
      acts := [] + [DoReceive(false)];
      SnapAhead(Now());
    }

    /** Parses one message, opening its slot before and closing it behind where needed. */
    method ParseOne(ghost start: State, ghost before: seq<Action>, open: Msg -> bool, was: seq<Msg>, ghost rx0: nat, ghost at0: nat)
        returns (handed: seq<Msg>, ghost acts: seq<Action>)
      requires Run(start, before) == Some(Now()) && Sound(Now()) && parser == Next && rxPos != snap
      requires HandedSince(rx0, at0, open)
      modifies this`mem, this`recycle, this`h, this`rxPos, this`rxSlot, this`parser, ring, info
      ensures Run(start, acts) == Some(Now()) && Sound(Now())
      ensures parser == Next && old(rxPos) < rxPos <= snap && h.sent == old(h).sent
      ensures HandedSince(rx0, at0, open) && |h.parsed| == |old(h).parsed| + 1 && old(h).parsed <= h.parsed
      ensures var msg := h.parsed[|old(h).parsed|]; handed == was + if msg.Data? && open(msg) then [msg] else []
    {
      hide Sound, Run, Step, Stride, Safe, Handed;
      acts := OpenSlot(start, before);
      handed, acts := ParseHeader(start, acts, open, was, rx0, at0);
      ghost var s := Now();
      acts := EndOfSlot(start, acts);
      HandsOn(s, Now(), rx0, at0, open);
      SnapAhead(Now());
    }

    /** Takes the next slot off the ring, unless the parser is in the middle of one. */
    method OpenSlot(ghost start: State, ghost before: seq<Action>) returns (ghost acts: seq<Action>)
      requires Run(start, before) == Some(Now()) && Sound(Now()) && parser == Next && rxPos != snap
      modifies this`rxSlot, this`parser, info
      ensures Run(start, acts) == Some(Now()) && Sound(Now()) && parser == Header && rxSlot.Some?
      ensures rxPos == old(rxPos)
    {
      hide Sound, Run, Step, Stride, Safe;
      ghost var s := Now();
      Extend(start, before, s, DoReceive(false));
      if rxSlot.None? {
        OpenStepIs(s);
        var rxIndex := ring[rxPos / SLOT_SIZE % RING];
        rxSlot := Some(rxIndex);
        info[rxIndex] := Info(1, 0);
      } else {
        ResumeStepIs(s);
      }
      parser := Header;
      acts := before + [DoReceive(false)];
    }

    /** One message: claimed for its client when it is DATA for an open service, then passed. */
    method ParseHeader(ghost start: State, ghost before: seq<Action>, open: Msg -> bool, was: seq<Msg>, ghost rx0: nat, ghost at0: nat)
        returns (handed: seq<Msg>, ghost acts: seq<Action>)
      requires Run(start, before) == Some(Now()) && Sound(Now()) && parser == Header
      requires HandedSince(rx0, at0, open)
      modifies this`mem, this`rxPos, this`parser, this`h, info
      ensures Run(start, acts) == Some(Now()) && Sound(Now()) && parser == Advanced
      ensures rxPos > old(rxPos) && h == old(h).(parsed := h.parsed, at := h.at)
      ensures HandedSince(rx0, at0, open) && |h.parsed| == |old(h).parsed| + 1 && old(h).parsed <= h.parsed
      ensures var msg := h.parsed[|old(h).parsed|]; handed == was + if msg.Data? && open(msg) then [msg] else []
    {
      hide Sound, Run, Step, Stride, Safe, Handed;
      handed := was;
      HeaderRead(Now());
      HeaderSafe(Now());
      HandsNext(Now(), rx0, at0, open);
      var slot := rxSlot.value;
      var header := mem[slot][rxPos % SLOT_SIZE];
      acts := before;
      if header.msg.Data? && open(header.msg) {
        acts := ClaimSlot(start, before, slot, header);
        handed := handed + [header.msg];
      }
      acts := Advance(start, acts, header.msg);
    }

    method ClaimSlot(ghost start: State, ghost before: seq<Action>, slot: nat, header: Cell) returns (ghost acts: seq<Action>)
      requires Run(start, before) == Some(Now()) && Sound(Now()) && parser == Header && ReceiveSafe(View())
      requires rxSlot == Some(slot) && header == HeaderAt(View()) && header.msg.Data?
      modifies this`mem, this`parser, info
      ensures Run(start, acts) == Some(Now()) && Sound(Now()) && parser == Claimed && ReceiveSafe(View())
      ensures HeaderAt(View()).msg == header.msg
      ensures mem == old(WithClaim(View(), true))
    {
      hide Sound, Run, Step, Stride, Safe;
      ghost var s := Now();
      Extend(start, before, s, DoReceive(true));
      ClaimStepIs(s);
      mem := mem[slot := mem[slot][rxPos % SLOT_SIZE := header.(claimed := true)]];
      info[slot] := info[slot].(useCount := info[slot].useCount + 1);
      parser := Claimed;
      acts := before + [DoReceive(true)];
      HeaderRead(Now());
    }

    method Advance(ghost start: State, ghost before: seq<Action>, msg: Msg) returns (ghost acts: seq<Action>)
      requires Run(start, before) == Some(Now()) && Sound(Now()) && (parser == Header || parser == Claimed)
      requires ReceiveSafe(View()) && HeaderAt(View()).msg == msg
      modifies this`rxPos, this`parser, this`h
      ensures Run(start, acts) == Some(Now()) && Sound(Now()) && parser == Advanced
      ensures rxPos > old(rxPos) && h == old(h).(parsed := old(h).parsed + [msg], at := old(h).at + 1)
    {
      hide Sound, Run, Step, Stride, Safe;
      ghost var s := Now();
      Extend(start, before, s, DoReceive(false));
      AdvanceStepIs(s);
      rxPos := rxPos + Stride(msg);
      h := h.(parsed := h.parsed + [msg], at := h.at + 1);
      parser := Advanced;
      acts := before + [DoReceive(false)];
    }

    /** At the end of a slot the parser lets go of it. */
    method EndOfSlot(ghost start: State, ghost before: seq<Action>) returns (ghost acts: seq<Action>)
      requires Run(start, before) == Some(Now()) && Sound(Now()) && parser == Advanced
      modifies this`recycle, this`h, this`rxSlot, this`parser, this`mem, ring, info
      ensures Run(start, acts) == Some(Now()) && Sound(Now()) && parser == Next
      ensures h.sent == old(h).sent && Quiet(old(Now()), Now())
    {
      hide Sound, Run, Step, Stride, Unhold, Quiet;
      ghost var s := Now();
      Extend(start, before, s, DoReceive(false));
      EndsQuietly(s);
      EndStepIs(s);
      SlotShape(s);
      if rxPos % SLOT_SIZE == 0 {
        ReleaseSlot(rxSlot.value, None);
        rxSlot := None;
      }
      parser := Next;
      h := Step(s, DoReceive(false)).h;
      acts := before + [DoReceive(false)];
    }
  }

  // ---------------------------------------------------------------- the recycle thread's steps

  lemma FetchStep(s: State)
    requires Guard(s.m, DoRecycle) && Safe(s.m, DoRecycle) && s.m.rc.Resting?
    ensures |s.m.ring| == RING
    ensures Step(s, DoRecycle) ==
      State(s.m.(rc := Scanning(s.m.ring[s.m.available % RING], 0, {}, false, false)), s.h.(scanAt := 0))
  {
  }

  /** A header without DATA is passed over. */
  lemma PassStep(s: State)
    requires Guard(s.m, DoRecycle) && Safe(s.m, DoRecycle) && s.m.rc.Scanning? && s.m.rc.pos < SLOT_SIZE
    requires !s.m.mem[s.m.rc.slot][s.m.rc.pos].msg.Data?
    ensures Step(s, DoRecycle) ==
      State(s.m.(rc := s.m.rc.(pos := s.m.rc.pos + Stride(s.m.mem[s.m.rc.slot][s.m.rc.pos].msg))), s.h.(scanAt := s.h.scanAt + 1))
  {
  }

  lemma EndStep(s: State)
    requires Guard(s.m, DoRecycle) && Safe(s.m, DoRecycle) && s.m.rc.Scanning? && s.m.rc.pos >= SLOT_SIZE
    ensures Step(s, DoRecycle) ==
      State(s.m.(quotas := if s.m.rc.dataFound then s.m.quotas.(dataUse := Dec(s.m.quotas.dataUse)) else s.m.quotas, rc := Scanned), s.h)
  {
  }

  lemma RaiseStep(s: State)
    requires Guard(s.m, DoRecycle) && Safe(s.m, DoRecycle) && s.m.rc.Scanned?
    ensures Step(s, DoRecycle) == State(s.m.(available := s.m.available + 1, rc := Raised), s.h.(stage := Recycled(s.h, s.m)))
  {
  }

  lemma UpStep(s: State)
    requires Guard(s.m, DoRecycle) && Safe(s.m, DoRecycle) && s.m.rc.Raised?
    ensures Step(s, DoRecycle) == State(s.m.(sem := s.m.sem + 1, rc := Resting), s.h)
  {
  }

  lemma RunNothing(s: State)
    ensures Run(s, []) == Some(s)
  {
  }

  lemma AvailableBound(s: State)
    requires Sound(s)
    ensures s.m.available <= s.m.recycle
  {
    hide Contents, Counting, Scans, Delivered, MarkOk, WithinQuotas, OncePlaced, RingHolds, Receiving, Stride, Sending, Layout;
  }

  lemma ScanRoom(s: State)
    requires Sound(s) && s.m.rc.Scanning? && s.m.rc.pos < SLOT_SIZE && RecycleSafe(s.m)
    ensures s.m.rc.pos + Stride(s.m.mem[s.m.rc.slot][s.m.rc.pos].msg) <= SLOT_SIZE
    ensures s.m.rc.slot < |s.m.mem| && s.m.rc.pos in s.m.mem[s.m.rc.slot] && !s.m.mem[s.m.rc.slot][s.m.rc.pos].claimed
  {
    hide Stride, Sound;
  }

  ghost predicate OnlyRecycles(acts: seq<Action>) {
    forall i :: 0 <= i < |acts| ==> acts[i] == DoRecycle
  }

  lemma NothingRecycled()
    ensures OnlyRecycles([])
  {
  }

  lemma {:induction false} OnlyRecyclesUnaliased(s: State, acts: seq<Action>)
    requires OnlyRecycles(acts)
    ensures NoneAliased(s, acts)
  {
    hide Run;
    if |acts| > 0 {
      OnlyRecyclesUnaliased(s, acts[..|acts| - 1]);
    }
  }

  lemma AllCounted(s: State)
    requires Exact(s) && s.m.rc.Resting? && QuotasShaped(s.m.quotas)
    ensures |s.h.log| == |s.h.stage| && forall w :: ValidMeasure(w) ==> Counter(s.m.quotas, w) == InUse(s.h.log, s.h.stage, w)
  {
    hide InUse, Weigh, Remembered;
  }

  /** With the free queue empty and no rescan in progress, no slot waits. */
  lemma AllBack(s: State)
    requires Sound(s) && s.m.rc.Resting? && s.m.available == s.m.recycle
    ensures |s.h.stage| == |s.h.log| && forall k :: 0 <= k < |s.h.stage| ==> s.h.stage[k].Live? || s.h.stage[k].Done?
    ensures QuotasShaped(s.m.quotas)
  {
    hide Contents, Counting, Scans, Delivered, MarkOk, OncePlaced, RingHolds, Receiving, Stride, Sending, Layout, InUse, Weigh;
    ReceiverBehind(s);
    forall k | 0 <= k < |s.h.stage| ensures s.h.stage[k].Live? || s.h.stage[k].Done? {
      if !s.h.stage[k].Done? {
        var i := PlaceOf(|s.m.info|, s.m.available, s.h.order, s.h.stage, s.h.released, k);
      }
    }
  }

  // ---------------------------------------------------------------- the sender's steps

  /** How sending ended: done, without a free slot, waiting for one, or not begun. */
  datatype Outcome = Ready | Refused | Waits | TooBig | OverQuota

  lemma AdmitStepIs(s: State, msg: Msg)
    requires Guard(s.m, DoAdmit(msg)) && Safe(s.m, DoAdmit(msg))
    ensures Step(s, DoAdmit(msg)) == State(s.m.(tx := Admitted(msg)), s.h)
  {
  }

  lemma PadStepIs(s: State)
    requires Guard(s.m, DoSend) && Safe(s.m, DoSend) && s.m.tx.Admitted? && Stride(s.m.tx.msg) > Space(s.m.localPos)
    ensures Space(s.m.localPos) >= HEADER_SIZE && s.m.txSlot < |s.m.mem|
    ensures var space := Space(s.m.localPos); var pad := Padding(space - HEADER_SIZE);
      Step(s, DoSend) ==
        State(s.m.(mem := s.m.mem[s.m.txSlot := Written(s.m.mem[s.m.txSlot], s.m.localPos % SLOT_SIZE, pad)],
                   tx := Seeking(s.m.tx.msg, s.m.localPos + space)),
              s.h.(log := Append(s.h.log, pad)))
  {
  }

  lemma SeekStepIs(s: State)
    requires Guard(s.m, DoSend) && Safe(s.m, DoSend) && s.m.tx.Admitted? && Stride(s.m.tx.msg) <= Space(s.m.localPos) && s.m.localPos % SLOT_SIZE == 0
    ensures Step(s, DoSend) == State(s.m.(tx := Seeking(s.m.tx.msg, s.m.localPos)), s.h)
  {
  }

  lemma FitStepIs(s: State)
    requires Guard(s.m, DoSend) && Safe(s.m, DoSend) && s.m.tx.Admitted? && Stride(s.m.tx.msg) <= Space(s.m.localPos) && s.m.localPos % SLOT_SIZE != 0
    ensures Step(s, DoSend) == State(s.m.(localPos := s.m.localPos + Stride(s.m.tx.msg), tx := Reserved(s.m.tx.msg)), s.h)
  {
  }

  lemma FlushStepIs(s: State)
    requires Guard(s.m, DoSend) && Safe(s.m, DoSend) && s.m.tx.Seeking? && s.m.sem == 0
    ensures Step(s, DoSend) ==
      State(s.m.(localPos := s.m.tx.pos, txPos := s.m.tx.pos, tx := Blocked(s.m.tx.msg, s.m.tx.pos)), s.h.(txMark := EndMark(s.h.log)))
  {
  }

  lemma BlockedAtBoundary(s: State)
    requires Sound(s) && s.m.tx.Blocked?
    ensures s.m.tx.pos % SLOT_SIZE == 0
  {
    hide Contents, Counting, Scans, Delivered, MarkOk, WithinQuotas, OncePlaced, RingHolds, Receiving, Stride, Layout, Places, Filled;
  }

  lemma TakeStepIs(s: State, msg: Msg, pos: nat)
    requires Guard(s.m, DoSend) && Safe(s.m, DoSend) && s.m.sem > 0 && (s.m.tx == Seeking(msg, pos) || s.m.tx == Blocked(msg, pos))
    ensures |s.m.ring| == RING && pos != s.m.available * SLOT_SIZE
    ensures Step(s, DoSend) ==
      State(s.m.(sem := s.m.sem - 1, txSlot := s.m.ring[pos / SLOT_SIZE % RING], localPos := pos + Stride(msg), tx := Reserved(msg)),
            s.h.(log := s.h.log + [[]], stage := s.h.stage + [Live]))
  {
  }

  lemma CommitStepIs(s: State)
    requires Guard(s.m, DoSend) && Safe(s.m, DoSend) && s.m.tx.Reserved?
    ensures var msg := s.m.tx.msg;
      && s.m.txSlot < |s.m.mem| && Stride(msg) <= s.m.localPos && QuotasShaped(s.m.quotas) && (msg.Data? ==> msg.src < PORTS)
      && s.m.localPos >= 1
      && Step(s, DoSend).m ==
        s.m.(mem := s.m.mem[s.m.txSlot := Written(s.m.mem[s.m.txSlot], (s.m.localPos - Stride(msg)) % SLOT_SIZE, msg)],
             quotas := if msg.Data? then Counted(s.m.quotas, msg.src, SlotNumber(s.m.localPos - 1)) else s.m.quotas,
             tx := Stored(msg))
      && var h := Step(s, DoSend).h; h == s.h.(log := h.log, lastTx := h.lastTx, lastData := h.lastData)
  {
  }

  lemma PublishStepIs(s: State)
    requires Guard(s.m, DoSend) && Safe(s.m, DoSend) && s.m.tx.Stored?
    ensures Step(s, DoSend) ==
      State(s.m.(txPos := s.m.localPos, tx := Idle), s.h.(sent := s.h.sent + [s.m.tx.msg], txMark := EndMark(s.h.log)))
  {
  }

  /** The quota test spelled out, and what it means when the counters tell the truth. */
  lemma QuotaTells(s: State, msg: Msg)
    requires Sound(s) && s.m.tx.Idle? && Sendable(msg) && (msg.Data? ==> msg.src < PORTS && msg.src in s.m.quotas.open)
    ensures QuotasShaped(s.m.quotas)
    ensures msg.Data? ==> (!WithinQuota(s.m.quotas, s.m.localPos, msg) <==>
      s.m.quotas.messageUse[msg.src] == s.m.quotas.messageQuota[msg.src]
      || ((s.m.localPos + Stride(msg) - 1) / SLOT_SIZE % SLOT_NUMBERS != s.m.quotas.previousTx[msg.src]
          && s.m.quotas.slotUse[msg.src] == s.m.quotas.slotQuota[msg.src]))
    ensures Truthful(s, msg) ==> msg.Data? && (!WithinQuota(s.m.quotas, s.m.localPos, msg) <==> TrulyOver(s, msg))
  {
    hide Sound, Stride, Truthful, TrulyOver;
    QuotasShape(s);
    if Truthful(s, msg) {
      TruthfulData(s, msg);
      OverQuotaExactly(s, msg);
    }
  }

  lemma TruthfulData(s: State, msg: Msg)
    requires Truthful(s, msg)
    ensures msg.Data?
  {
  }

  // ---------------------------------------------------------------- the receiver's steps

  lemma NoOpenings(parsed: seq<Msg>, open: Msg -> bool)
    ensures Openings(parsed[|parsed|..], open) == []
  {
  }

  lemma OneParsed(first: seq<Msg>, was: seq<Msg>, now: seq<Msg>, open: Msg -> bool)
    requires first <= was <= now && |now| == |was| + 1
    ensures first <= now
    ensures var m := now[|was|];
      Openings(now[|first|..], open) == Openings(was[|first|..], open) + if m.Data? && open(m) then [m] else []
  {
    OpeningsMore(was[|first|..], now[|was|], open);
    assert now[|first|..] == was[|first|..] + [now[|was|]];
  }

  lemma SlotShape(s: State)
    requires Sound(s)
    ensures |s.m.info| == |s.m.mem| && |s.m.ring| == RING
  {
    hide Contents, Counting, Scans, Delivered, MarkOk, WithinQuotas, OncePlaced, Receiving, Stride, Layout, Places, Filled;
  }

  lemma SnapAhead(s: State)
    requires Sound(s)
    ensures s.m.rxPos <= s.m.snap <= s.m.txPos
  {
    hide Contents, Counting, Scans, Delivered, MarkOk, WithinQuotas, OncePlaced, Stride, Layout, Places, Filled, Sending;
  }

  lemma ReleaseStepIs(s: State, slot: nat, off: nat)
    requires Guard(s.m, DoRelease(slot, off)) && Safe(s.m, DoRelease(slot, off))
    ensures Step(s, DoRelease(slot, off)).m == Release(s.m, slot, off)
    ensures var m := Release(s.m, slot, off);
      m == s.m.(mem := m.mem, info := m.info, ring := m.ring, recycle := m.recycle)
      && |m.mem| == |s.m.mem| && off in m.mem[slot] && !m.mem[slot][off].claimed
    ensures !s.m.mem[slot][off].claimed ==> Step(s, DoRelease(slot, off)) == s
  {
  }

  lemma SnapStepIs(s: State)
    requires Safe(s.m, DoReceive(false)) && s.m.parser.Next? && s.m.rxPos == s.m.snap
    ensures Step(s, DoReceive(false)) == State(s.m.(snap := s.m.txPos), s.h.(snapMark := s.h.txMark))
  {
  }

  lemma OpenStepIs(s: State)
    requires Safe(s.m, DoReceive(false)) && s.m.parser.Next? && s.m.rxPos != s.m.snap && s.m.rxSlot.None?
    ensures |s.m.ring| == RING && s.m.ring[s.m.rxPos / SLOT_SIZE % RING] < |s.m.info|
    ensures var c := s.m.ring[s.m.rxPos / SLOT_SIZE % RING];
      Step(s, DoReceive(false)) == State(s.m.(rxSlot := Some(c), info := s.m.info[c := Info(1, 0)], parser := Header), s.h)
  {
  }

  lemma ResumeStepIs(s: State)
    requires Safe(s.m, DoReceive(false)) && s.m.parser.Next? && s.m.rxPos != s.m.snap && s.m.rxSlot.Some?
    ensures Step(s, DoReceive(false)) == State(s.m.(parser := Header), s.h)
  {
  }

  lemma HeaderSafe(s: State)
    requires ReceiveSafe(s.m) && s.m.parser.Header?
    ensures s.m.rxSlot.Some? && s.m.rxSlot.value < |s.m.mem| && s.m.rxPos % SLOT_SIZE in s.m.mem[s.m.rxSlot.value]
    ensures HeaderAt(s.m) == s.m.mem[s.m.rxSlot.value][s.m.rxPos % SLOT_SIZE]
  {
  }

  lemma ClaimStepIs(s: State)
    requires Safe(s.m, DoReceive(true)) && s.m.parser.Header? && s.m.rxSlot.Some? && s.m.rxSlot.value < |s.m.mem|
    requires s.m.rxPos % SLOT_SIZE in s.m.mem[s.m.rxSlot.value] && HeaderAt(s.m).msg.Data?
    ensures var c := s.m.rxSlot.value; var x := s.m.rxPos % SLOT_SIZE;
      && c < |s.m.info|
      && Step(s, DoReceive(true)) ==
        State(s.m.(mem := s.m.mem[c := s.m.mem[c][x := HeaderAt(s.m).(claimed := true)]],
                   info := s.m.info[c := s.m.info[c].(useCount := s.m.info[c].useCount + 1)],
                   parser := Claimed), s.h)
  {
  }

  lemma AdvanceStepIs(s: State)
    requires Safe(s.m, DoReceive(false)) && (s.m.parser.Header? || s.m.parser.Claimed?)
    ensures ReceiveSafe(s.m)
    ensures var msg := HeaderAt(s.m).msg;
      Step(s, DoReceive(false)) ==
        State(s.m.(rxPos := s.m.rxPos + Stride(msg), parser := Advanced), s.h.(parsed := s.h.parsed + [msg], at := s.h.at + 1))
  {
  }

  lemma EndStepIs(s: State)
    requires Safe(s.m, DoReceive(false)) && s.m.parser.Advanced?
    ensures s.m.rxPos % SLOT_SIZE == 0 ==> s.m.rxSlot.Some? && s.m.rxSlot.value < |s.m.info| && |s.m.ring| == RING
    ensures Step(s, DoReceive(false)).m ==
      if s.m.rxPos % SLOT_SIZE == 0 then Unhold(s.m, s.m.rxSlot.value).(rxSlot := None, parser := Next) else s.m.(parser := Next)
    ensures Step(s, DoReceive(false)).h.sent == s.h.sent
  {
  }

  /** When everything published is parsed and no message is in hand, everything sent is delivered. */
  lemma AllDelivered(s: State)
    requires Sound(s) && s.m.tx.Idle? && s.m.parser.Next? && s.m.rxPos == s.m.txPos
    ensures Payload(s.h.parsed) == s.h.sent
  {
    hide Contents, Counting, Scans, MarkOk, WithinQuotas, OncePlaced, Places, RingHolds, Flatten, Payload, Offset, Stride;
    var log := s.h.log;
    FilledSpace(log, s.h.rx);
    if s.m.rxSlot.None? {
      assert log[..s.h.rx] == log;
      assert s.h.parsed == Flatten(log);
    } else {
      LastParsed(s);
      assert log == log[..s.h.rx] + [log[s.h.rx]];
      FlattenMore(log[..s.h.rx], log[s.h.rx]);
      assert log[s.h.rx][..s.h.at] == log[s.h.rx];
    }
  }

  lemma LastParsed(s: State)
    requires Sound(s) && s.m.tx.Idle? && s.m.parser.Next? && s.m.rxPos == s.m.txPos && s.m.rxSlot.Some?
    ensures s.h.rx == |s.h.log| - 1 && s.h.at == |s.h.log[s.h.rx]|
  {
    hide Contents, Counting, Scans, MarkOk, WithinQuotas, OncePlaced, Places, RingHolds, Delivered, Stride, Offset;
    var log := s.h.log;
    FilledSpace(log, s.h.rx);
    if s.h.at < |log[s.h.rx]| {
      OffsetBound(log[s.h.rx], s.h.at);
    }
  }
}
