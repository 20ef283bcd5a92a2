/** Quota counters against the messages they count. */
module SlotAccounts {
  import opened Basics
  import opened SlotMachine
  import opened SlotHistory
  import opened SlotLedger

  // ---------------------------------------------------------------- weights

  lemma WeighAppend(msgs: seq<Msg>, m: Msg, w: Measure)
    ensures Weigh(msgs + [m], w) ==
      if !Hits(m, w) then Weigh(msgs, w) else if w.Messages? then Weigh(msgs, w) + 1 else 1
  {
    assert (msgs + [m])[..|msgs|] == msgs;
  }

  lemma WeighStep(msgs: seq<Msg>, j: nat, w: Measure)
    requires j < |msgs|
    ensures Weigh(msgs[..j + 1], w) ==
      if !Hits(msgs[j], w) then Weigh(msgs[..j], w) else if w.Messages? then Weigh(msgs[..j], w) + 1 else 1
  {
    assert msgs[..j + 1] == msgs[..j] + [msgs[j]];
    WeighAppend(msgs[..j], msgs[j], w);
  }

  lemma {:induction false} WeighBound(msgs: seq<Msg>, w: Measure)
    ensures !w.Messages? ==> Weigh(msgs, w) <= 1
  {
    if |msgs| > 0 {
      WeighBound(msgs[..|msgs| - 1], w);
    }
  }

  lemma {:induction false} WeighPrefix(msgs: seq<Msg>, j: nat, w: Measure)
    requires j <= |msgs|
    ensures Weigh(msgs[..j], w) <= Weigh(msgs, w)
    decreases |msgs|
  {
    if j == |msgs| {
      assert msgs[..j] == msgs;
    } else {
      var n := |msgs| - 1;
      WeighPrefix(msgs[..n], j, w);
      assert msgs[..n][..j] == msgs[..j];
      WeighBound(msgs[..n], w);
    }
  }

  lemma {:induction false} WeighForeign(msgs: seq<Msg>, w: Measure)
    requires forall j :: 0 <= j < |msgs| ==> !Hits(msgs[j], w)
    ensures Weigh(msgs, w) == 0
  {
    if |msgs| > 0 {
      WeighForeign(msgs[..|msgs| - 1], w);
    }
  }

  function Part(msgs: seq<Msg>, t: Stage, w: Measure): (c: nat) {
    if t.Done? then 0 else Weigh(msgs, w)
  }

  lemma {:induction false} InUseUpdate(log: seq<seq<Msg>>, stage: seq<Stage>, k: nat, msgs: seq<Msg>, t: Stage, w: Measure)
    requires |log| == |stage| && k < |log|
    ensures InUse(log[k := msgs], stage[k := t], w) == InUse(log, stage, w) - Part(log[k], stage[k], w) + Part(msgs, t, w)
    ensures InUse(log, stage, w) >= Part(log[k], stage[k], w)
  {
    var n := |log| - 1;
    if k == n {
      assert log[k := msgs][..n] == log[..n] && stage[k := t][..n] == stage[..n];
    } else {
      InUseUpdate(log[..n], stage[..n], k, msgs, t, w);
      assert log[k := msgs][..n] == log[..n][k := msgs] && stage[k := t][..n] == stage[..n][k := t];
    }
  }

  lemma InUseAppend(log: seq<seq<Msg>>, stage: seq<Stage>, m: Msg, w: Measure)
    requires |log| == |stage| > 0 && !stage[|log| - 1].Done?
    ensures InUse(Append(log, m), stage, w) == InUse(log, stage, w)
      - Weigh(log[|log| - 1], w) + Weigh(log[|log| - 1] + [m], w)
  {
    var k := |log| - 1;
    AppendLog(log, m);
    InUseUpdate(log, stage, k, log[k] + [m], stage[k], w);
    assert stage[k := stage[k]] == stage;
  }

  lemma InUseTake(log: seq<seq<Msg>>, stage: seq<Stage>, w: Measure)
    requires |log| == |stage|
    ensures InUse(log + [[]], stage + [Live], w) == InUse(log, stage, w)
  {
    assert (log + [[]])[..|log|] == log && (stage + [Live])[..|log|] == stage;
  }

  lemma InUseStage(log: seq<seq<Msg>>, stage: seq<Stage>, k: nat, t: Stage, w: Measure)
    requires |log| == |stage| && k < |log|
    ensures InUse(log, stage[k := t], w) == InUse(log, stage, w) - Part(log[k], stage[k], w) + Part(log[k], t, w)
    ensures InUse(log, stage, w) >= Part(log[k], stage[k], w)
  {
    InUseUpdate(log, stage, k, log[k], t, w);
    assert log[k := log[k]] == log;
  }

  // ---------------------------------------------------------------- the sender

  /** Padding and control messages weigh nothing; a slot under rescan is not the one being filled. */
  lemma AccountsAppend(q: Quotas, rc: Recycler, n: nat, available: nat, log: seq<seq<Msg>>, stage: seq<Stage>,
                       released: seq<nat>, scanAt: nat, m: Msg)
    requires Accounts(q, rc, n, available, log, stage, released, scanAt) && !m.Data?
    requires |log| > 0 && stage[|log| - 1].Live?
    requires Rescanned(released, available, n) != |log| - 1 || rc.Resting? || rc.Raised?
    ensures Accounts(q, rc, n, available, Append(log, m), stage, released, scanAt)
  {
    hide InUse, Weigh;
    AppendLog(log, m);
    forall w | ValidMeasure(w)
      ensures Counter(q, w) + Credit(rc, LogAt(Append(log, m), Rescanned(released, available, n)), scanAt, w) == InUse(Append(log, m), stage, w)
    {
      InUseAppend(log, stage, m, w);
      WeighAppend(log[|log| - 1], m, w);
      assert LogAt(Append(log, m), Rescanned(released, available, n)) == LogAt(log, Rescanned(released, available, n))
        || rc.Resting? || rc.Raised?;
    }
  }

  /** A counted DATA message: each counter grows exactly when the slot weighs more, if the source's
      number of the slot is remembered exactly when the slot already counts. */
  lemma AccountsCommit(q: Quotas, rc: Recycler, n: nat, available: nat, log: seq<seq<Msg>>, stage: seq<Stage>,
                       released: seq<nat>, scanAt: nat, m: Msg, k: nat)
    requires Accounts(q, rc, n, available, log, stage, released, scanAt) && m.Data? && m.src < PORTS
    requires |log| > 0 && stage[|log| - 1].Live?
    requires Rescanned(released, available, n) != |log| - 1 || rc.Resting? || rc.Raised?
    requires q.previousData == k <==> Weigh(log[|log| - 1], AnyData) > 0
    requires q.previousTx[m.src] == k <==> Weigh(log[|log| - 1], Slots(m.src)) > 0
    ensures Accounts(Counted(q, m.src, k), rc, n, available, Append(log, m), stage, released, scanAt)
  {
    hide InUse, Weigh;
    AppendLog(log, m);
    var r := Counted(q, m.src, k);
    forall w | ValidMeasure(w)
      ensures Counter(r, w) + Credit(rc, LogAt(Append(log, m), Rescanned(released, available, n)), scanAt, w) == InUse(Append(log, m), stage, w)
    {
      InUseAppend(log, stage, m, w);
      WeighAppend(log[|log| - 1], m, w);
      WeighBound(log[|log| - 1], w);
      assert LogAt(Append(log, m), Rescanned(released, available, n)) == LogAt(log, Rescanned(released, available, n))
        || rc.Resting? || rc.Raised?;
    }
  }

  lemma AccountsTake(q: Quotas, rc: Recycler, n: nat, available: nat, log: seq<seq<Msg>>, stage: seq<Stage>,
                     released: seq<nat>, scanAt: nat)
    requires Accounts(q, rc, n, available, log, stage, released, scanAt)
    requires Rescanned(released, available, n) < |log| || rc.Resting? || rc.Raised?
    ensures Accounts(q, rc, n, available, log + [[]], stage + [Live], released, scanAt)
  {
    hide InUse, Weigh;
    forall w | ValidMeasure(w) ensures InUse(log + [[]], stage + [Live], w) == InUse(log, stage, w) {
      InUseTake(log, stage, w);
    }
  }

  /** A slot that comes back still counts until its rescan. */
  lemma AccountsGiveBack(q: Quotas, rc: Recycler, n: nat, available: nat, log: seq<seq<Msg>>, stage: seq<Stage>,
                         released: seq<nat>, scanAt: nat, k: nat)
    requires Accounts(q, rc, n, available, log, stage, released, scanAt) && k < |stage| && stage[k].Live?
    requires available < n + |released| || rc.Resting? || rc.Raised?
    ensures Accounts(q, rc, n, available, log, stage[k := Waiting], released + [k], scanAt)
  {
    hide InUse, Weigh;
    forall w | ValidMeasure(w) ensures InUse(log, stage[k := Waiting], w) == InUse(log, stage, w) {
      InUseStage(log, stage, k, Waiting, w);
    }
  }

  // ---------------------------------------------------------------- the rescan

  /** The counters a rescan is about to lower are not zero. */
  lemma RescanCovered(q: Quotas, rc: Recycler, n: nat, available: nat, order: seq<nat>, log: seq<seq<Msg>>, stage: seq<Stage>,
                      released: seq<nat>, scanAt: nat)
    requires Accounts(q, rc, n, available, log, stage, released, scanAt)
    requires Scans(rc, n, available, order, log, released, scanAt) && rc.Scanning?
    requires var f := Rescanned(released, available, n); stage[f].Waiting?
    ensures var f := Rescanned(released, available, n);
      && (rc.dataFound ==> q.dataUse > 0)
      && (scanAt < |log[f]| && log[f][scanAt].Data? && log[f][scanAt].src < PORTS ==>
            && (!rc.counted ==> q.messageUse[log[f][scanAt].src] > 0)
            && (log[f][scanAt].src !in rc.found ==> q.slotUse[log[f][scanAt].src] > 0))
  {
    hide InUse, Weigh;
    var f := Rescanned(released, available, n);
    InUseStage(log, stage, f, Waiting, AnyData);
    WeighPrefix(log[f], scanAt, AnyData);
    assert Counter(q, AnyData) == q.dataUse;
    if scanAt < |log[f]| && log[f][scanAt].Data? && log[f][scanAt].src < PORTS {
      var p := log[f][scanAt].src;
      InUseStage(log, stage, f, Waiting, Messages(p));
      InUseStage(log, stage, f, Waiting, Slots(p));
      WeighStep(log[f], scanAt, Messages(p));
      WeighStep(log[f], scanAt, Slots(p));
      WeighPrefix(log[f], scanAt + 1, Messages(p));
      WeighPrefix(log[f], scanAt + 1, Slots(p));
      assert Counter(q, Messages(p)) == q.messageUse[p] && Counter(q, Slots(p)) == q.slotUse[p];
    }
  }

  /** The rescan passes a message: its place and what it has found move along. */
  lemma ScansStep(m: Machine, n: nat, order: seq<nat>, log: seq<seq<Msg>>, released: seq<nat>, scanAt: nat)
    requires m.rc.Scanning? && m.rc.pos < SLOT_SIZE && RecycleSafe(m)
    requires Scans(m.rc, n, m.available, order, log, released, scanAt)
    requires var f := Rescanned(released, m.available, n);
      scanAt < |log[f]| && m.mem[m.rc.slot][m.rc.pos].msg == log[f][scanAt]
    ensures Scan(m).rc.Scanning?
    ensures Scans(Scan(m).rc, n, m.available, order, log, released, if Scan(m).rc.pos == m.rc.pos then scanAt else scanAt + 1)
  {
    hide InUse, Weigh;
    var f := Rescanned(released, m.available, n);
    var msg := log[f][scanAt];
    WeighStep(log[f], scanAt, AnyData);
    forall p: nat ensures Weigh(log[f][..scanAt + 1], Slots(p)) == if Hits(msg, Slots(p)) then 1 else Weigh(log[f][..scanAt], Slots(p)) {
      WeighStep(log[f], scanAt, Slots(p));
    }
  }

  /** What the rescan takes off the counters is what the message adds to its credit. */
  lemma AccountsScan(m: Machine, n: nat, order: seq<nat>, log: seq<seq<Msg>>, stage: seq<Stage>, released: seq<nat>, scanAt: nat)
    requires m.rc.Scanning? && m.rc.pos < SLOT_SIZE && RecycleSafe(m) && CountersCover(m)
    requires Accounts(m.quotas, m.rc, n, m.available, log, stage, released, scanAt)
    requires Scans(m.rc, n, m.available, order, log, released, scanAt)
    requires var f := Rescanned(released, m.available, n);
      scanAt < |log[f]| && m.mem[m.rc.slot][m.rc.pos].msg == log[f][scanAt]
    ensures Accounts(Scan(m).quotas, Scan(m).rc, n, m.available, log, stage, released, if Scan(m).rc.pos == m.rc.pos then scanAt else scanAt + 1)
  {
    hide InUse, Weigh, Accounts, Scans;
    if Scan(m).rc.pos == m.rc.pos {
      ScanCounts(m, n, order, log, stage, released, scanAt);
    } else {
      ScanPasses(m, n, order, log, stage, released, scanAt);
    }
  }

  lemma ScanCounts(m: Machine, n: nat, order: seq<nat>, log: seq<seq<Msg>>, stage: seq<Stage>, released: seq<nat>, scanAt: nat)
    requires m.rc.Scanning? && m.rc.pos < SLOT_SIZE && RecycleSafe(m) && CountersCover(m)
    requires Accounts(m.quotas, m.rc, n, m.available, log, stage, released, scanAt)
    requires Scans(m.rc, n, m.available, order, log, released, scanAt)
    requires var f := Rescanned(released, m.available, n);
      scanAt < |log[f]| && m.mem[m.rc.slot][m.rc.pos].msg == log[f][scanAt]
    requires Scan(m).rc.pos == m.rc.pos
    ensures Accounts(Scan(m).quotas, Scan(m).rc, n, m.available, log, stage, released, scanAt)
  {
    hide InUse, Weigh;
    var f := Rescanned(released, m.available, n);
    forall w | ValidMeasure(w)
      ensures Counter(Scan(m).quotas, w) + Credit(Scan(m).rc, log[f], scanAt, w) == InUse(log, stage, w)
    {
      WeighStep(log[f], scanAt, w);
      assert Counter(m.quotas, w) + Credit(m.rc, log[f], scanAt, w) == InUse(log, stage, w);
    }
  }

  lemma ScanPasses(m: Machine, n: nat, order: seq<nat>, log: seq<seq<Msg>>, stage: seq<Stage>, released: seq<nat>, scanAt: nat)
    requires m.rc.Scanning? && m.rc.pos < SLOT_SIZE && RecycleSafe(m) && CountersCover(m)
    requires Accounts(m.quotas, m.rc, n, m.available, log, stage, released, scanAt)
    requires Scans(m.rc, n, m.available, order, log, released, scanAt)
    requires var f := Rescanned(released, m.available, n);
      scanAt < |log[f]| && m.mem[m.rc.slot][m.rc.pos].msg == log[f][scanAt]
    requires Scan(m).rc.pos != m.rc.pos
    ensures Accounts(Scan(m).quotas, Scan(m).rc, n, m.available, log, stage, released, scanAt + 1)
  {
    hide InUse, Weigh;
    var f := Rescanned(released, m.available, n);
    forall w | ValidMeasure(w)
      ensures Counter(Scan(m).quotas, w) + Credit(Scan(m).rc, log[f], scanAt + 1, w) == InUse(log, stage, w)
    {
      WeighStep(log[f], scanAt, w);
      WeighBound(log[f][..scanAt], w);
      assert Counter(m.quotas, w) + Credit(m.rc, log[f], scanAt, w) == InUse(log, stage, w);
    }
  }

  /** At the end of a slot the credit is the whole slot. */
  lemma AccountsScanned(q: Quotas, rc: Recycler, n: nat, available: nat, order: seq<nat>, log: seq<seq<Msg>>, stage: seq<Stage>,
                        released: seq<nat>, scanAt: nat)
    requires Accounts(q, rc, n, available, log, stage, released, scanAt) && rc.Scanning? && !rc.counted
    requires Scans(rc, n, available, order, log, released, scanAt)
    requires var f := Rescanned(released, available, n); scanAt == |log[f]|
    requires rc.dataFound ==> q.dataUse > 0
    ensures Accounts(if rc.dataFound then q.(dataUse := Dec(q.dataUse)) else q, Scanned, n, available, log, stage, released, scanAt)
  {
    hide InUse, Weigh;
    var f := Rescanned(released, available, n);
    var r := if rc.dataFound then q.(dataUse := Dec(q.dataUse)) else q;
    assert log[f][..scanAt] == log[f];
    WeighBound(log[f], AnyData);
    forall w | ValidMeasure(w) ensures Counter(r, w) + Credit(Scanned, log[f], scanAt, w) == InUse(log, stage, w) {
      assert Counter(q, w) + Credit(rc, log[f], scanAt, w) == InUse(log, stage, w);
    }
  }

  /** The rescanned slot leaves the accounts. */
  lemma AccountsRaised(q: Quotas, n: nat, available: nat, log: seq<seq<Msg>>, stage: seq<Stage>, released: seq<nat>, scanAt: nat)
    requires Accounts(q, Scanned, n, available, log, stage, released, scanAt)
    requires var f := Rescanned(released, available, n); f < |log| && stage[f].Waiting?
    ensures var f := Rescanned(released, available, n);
      Accounts(q, Raised, n, available + 1, log, stage[f := Done], released, scanAt)
  {
    hide InUse, Weigh;
    var f := Rescanned(released, available, n);
    forall w | ValidMeasure(w) ensures Counter(q, w) == InUse(log, stage[f := Done], w) {
      InUseStage(log, stage, f, Done, w);
      assert Counter(q, w) + Credit(Scanned, log[f], scanAt, w) == InUse(log, stage, w);
    }
  }

  /** A rescan starts with no credit. */
  lemma AccountsFetch(q: Quotas, slot: nat, n: nat, available: nat, log: seq<seq<Msg>>, stage: seq<Stage>,
                      released: seq<nat>, scanAt: nat)
    requires Accounts(q, Resting, n, available, log, stage, released, scanAt)
    ensures Accounts(q, Scanning(slot, 0, {}, false, false), n, available, log, stage, released, 0)
  {
    hide InUse;
    var f := Rescanned(released, available, n);
    forall w | ValidMeasure(w) ensures Credit(Scanning(slot, 0, {}, false, false), LogAt(log, f), 0, w) == 0 {
    }
    assert forall w :: ValidMeasure(w) ==> Counter(q, w) + Credit(Resting, LogAt(log, f), scanAt, w) == InUse(log, stage, w);
  }

  // ---------------------------------------------------------------- what is remembered

  lemma RememberAppend(q: Quotas, lastTx: seq<int>, lastData: int, localPos: nat, tx: Sender, log: seq<seq<Msg>>, m: Msg)
    requires Remembered(q, lastTx, lastData, localPos, tx, log) && |log| > 0 && !m.Data?
    ensures Remembered(q, lastTx, lastData, localPos, tx, Append(log, m))
  {
    hide Weigh;
    AppendLog(log, m);
    forall k: nat, w {:trigger Weigh(Append(log, m)[k], w)} | k < |log| ensures Weigh(Append(log, m)[k], w) == Weigh(log[k], w) {
      WeighAppend(log[k], m, w);
    }
    forall p: nat | p < PORTS ensures RememberedPort(q, lastTx, localPos, tx, Append(log, m), p) {
      assert RememberedPort(q, lastTx, localPos, tx, log, p);
    }
  }

  lemma KeptTells(last: int, k: nat)
    requires last <= k
    ensures Kept(last) == k % SLOT_NUMBERS <==> last >= 0 && (k - last) % SLOT_NUMBERS == 0
  {
  }

  /** Before a message is counted, the true numbers tell whether its slot already counts, and the
      kept ones agree with them exactly when no number is taken for another. */
  lemma RememberTells(q: Quotas, lastTx: seq<int>, lastData: int, localPos: nat, tx: Sender, log: seq<seq<Msg>>)
    requires Remembered(q, lastTx, lastData, localPos, tx, log) && tx.Reserved? && tx.msg.Data? && tx.msg.src < PORTS && |log| > 0
    ensures var k := |log| - 1; var p := tx.msg.src;
      && (lastData == k <==> Weigh(log[k], AnyData) > 0)
      && (lastTx[p] == k <==> Weigh(log[k], Slots(p)) > 0)
      && ((q.previousData == k % SLOT_NUMBERS <==> lastData == k) <==> Apart(lastData, k))
      && ((q.previousTx[p] == k % SLOT_NUMBERS <==> lastTx[p] == k) <==> Apart(lastTx[p], k))
  {
    hide Weigh, Kept;
    assert RememberedPort(q, lastTx, localPos, tx, log, tx.msg.src);
    KeptTells(lastData, |log| - 1);
    KeptTells(lastTx[tx.msg.src], |log| - 1);
  }

  /** The kept number tells whether a port has DATA in slot number k, the one being filled or a later one. */
  lemma PortTells(q: Quotas, lastTx: seq<int>, lastData: int, localPos: nat, tx: Sender, log: seq<seq<Msg>>, p: nat, k: nat)
    requires Remembered(q, lastTx, lastData, localPos, tx, log) && p < PORTS && p in q.open && Apart(lastTx[p], k)
    requires k >= |log| || (k == |log| - 1 && localPos < SLOT_SIZE * |log|)
    ensures q.previousTx[p] == k % SLOT_NUMBERS <==> Weigh(LogAt(log, k), Slots(p)) > 0
  {
    hide Kept;
    assert RememberedPort(q, lastTx, localPos, tx, log, p);
    KeptTells(lastTx[p], k);
  }

  lemma RememberCommit(q: Quotas, lastTx: seq<int>, lastData: int, localPos: nat, tx: Sender, log: seq<seq<Msg>>)
    requires Remembered(q, lastTx, lastData, localPos, tx, log) && tx.Reserved? && tx.msg.Data? && tx.msg.src < PORTS && |log| > 0
    ensures var k := |log| - 1;
      Remembered(Counted(q, tx.msg.src, k % SLOT_NUMBERS), lastTx[tx.msg.src := k], k, localPos, Stored(tx.msg), Append(log, tx.msg))
  {
    hide Weigh;
    var m := tx.msg;
    AppendLog(log, m);
    var l := Append(log, m);
    var r := Counted(q, m.src, (|log| - 1) % SLOT_NUMBERS);
    forall k: nat, w {:trigger Weigh(l[k], w)} | k < |log|
      ensures Weigh(l[k], w) == if k < |log| - 1 || !Hits(m, w) then Weigh(log[k], w) else if w.Messages? then Weigh(log[k], w) + 1 else 1
    {
      WeighAppend(log[k], m, w);
    }
    var latest := lastTx[m.src := |log| - 1];
    forall p: nat | p < PORTS ensures RememberedPort(r, latest, localPos, Stored(m), l, p) {
      assert RememberedPort(q, lastTx, localPos, tx, log, p);
    }
  }

  lemma RememberTake(q: Quotas, lastTx: seq<int>, lastData: int, localPos: nat, tx: Sender, log: seq<seq<Msg>>, newPos: nat)
    requires Remembered(q, lastTx, lastData, localPos, tx, log) && !tx.Idle?
    ensures Remembered(q, lastTx, lastData, newPos, Reserved(tx.msg), log + [[]])
  {
    hide Weigh;
    var l := log + [[]];
    forall w ensures Weigh(l[|log|], w) == 0 {
      WeighForeign([], w);
    }
    forall p: nat | p < PORTS ensures RememberedPort(q, lastTx, newPos, Reserved(tx.msg), l, p) {
      assert RememberedPort(q, lastTx, localPos, tx, log, p);
    }
  }

  /** Steps that keep the log: the position only grows within the slot being filled, and the
      message in hand stays the same. */
  lemma RememberMove(q: Quotas, lastTx: seq<int>, lastData: int, localPos: nat, tx: Sender, log: seq<seq<Msg>>, newPos: nat, newTx: Sender)
    requires Remembered(q, lastTx, lastData, localPos, tx, log) && newPos >= localPos
    requires !newTx.Idle? ==> !tx.Idle? && newTx.msg == tx.msg
    requires newTx.Reserved? ==> tx.Reserved? || localPos < SLOT_SIZE * |log|
    ensures Remembered(q, lastTx, lastData, newPos, newTx, log)
  {
    hide Weigh;
    forall p: nat | p < PORTS ensures RememberedPort(q, lastTx, newPos, newTx, log, p) {
      assert RememberedPort(q, lastTx, localPos, tx, log, p);
    }
  }

  lemma RememberAdmit(q: Quotas, lastTx: seq<int>, lastData: int, localPos: nat, log: seq<seq<Msg>>, m: Msg)
    requires Remembered(q, lastTx, lastData, localPos, Idle, log) && (m.Data? ==> m.src in q.open)
    ensures Remembered(q, lastTx, lastData, localPos, Admitted(m), log)
  {
    hide Weigh;
    forall p: nat | p < PORTS ensures RememberedPort(q, lastTx, localPos, Admitted(m), log, p) {
      assert RememberedPort(q, lastTx, localPos, Idle, log, p);
    }
  }

  /** Only the remembered slots and the open ports matter; the use counts do not. */
  lemma RememberCounts(q: Quotas, r: Quotas, lastTx: seq<int>, lastData: int, localPos: nat, tx: Sender, log: seq<seq<Msg>>)
    requires Remembered(q, lastTx, lastData, localPos, tx, log) && QuotasShaped(r)
    requires r.previousTx == q.previousTx && r.previousData == q.previousData && r.open == q.open
    ensures Remembered(r, lastTx, lastData, localPos, tx, log)
  {
    hide Weigh;
    forall p: nat | p < PORTS ensures RememberedPort(r, lastTx, localPos, tx, log, p) {
      assert RememberedPort(q, lastTx, localPos, tx, log, p);
    }
  }

  lemma {:induction false} InUseNone(log: seq<seq<Msg>>, stage: seq<Stage>, w: Measure)
    requires |log| == |stage| && forall k :: 0 <= k < |log| ==> Weigh(log[k], w) == 0
    ensures InUse(log, stage, w) == 0
  {
    if |log| > 0 {
      InUseNone(log[..|log| - 1], stage[..|log| - 1], w);
    }
  }

  /** A port without slots in use has no DATA in the slot being filled. */
  lemma UnusedPort(q: Quotas, rc: Recycler, n: nat, available: nat, order: seq<nat>, log: seq<seq<Msg>>, stage: seq<Stage>,
                   released: seq<nat>, scanAt: nat, p: nat, k: nat)
    requires Accounts(q, rc, n, available, log, stage, released, scanAt) && p < PORTS && q.slotUse[p] == 0
    requires Scans(rc, n, available, order, log, released, scanAt)
    requires k < |log| && !stage[k].Done?
    requires var f := Rescanned(released, available, n);
      rc.Scanning? || rc.Scanned? ==> f < |stage| && f != k && !stage[f].Done?
    ensures Weigh(log[k], Slots(p)) == 0
  {
    hide InUse, Weigh;
    var w := Slots(p);
    var f := Rescanned(released, available, n);
    assert Counter(q, w) == 0;
    if rc.Scanning? || rc.Scanned? {
      InUseStage(log, stage, f, Done, w);
      InUseStage(log, stage[f := Done], k, Done, w);
      if rc.Scanning? {
        WeighPrefix(log[f], scanAt, w);
      }
    } else {
      InUseStage(log, stage, k, Done, w);
    }
  }

  lemma SlotBefore(pos: nat)
    ensures SlotNumber(pos) > 0 ==> pos >= SLOT_SIZE && (pos / SLOT_SIZE - 1) % SLOT_NUMBERS == SlotNumber(pos) - 1
  {
  }

  /** A service added to an unused port starts behind every slot number it could write to next. */
  lemma RememberAdd(m: Machine, h: History, p: nat)
    requires Remembered(m.quotas, h.lastTx, h.lastData, m.localPos, m.tx, h.log) && AddGuard(m, p)
    requires SLOT_SIZE * (|h.log| - 1) <= m.localPos <= SLOT_SIZE * |h.log|
    requires m.quotas.slotUse[p] == 0 && |h.log| > 0 && m.localPos < SLOT_SIZE * |h.log| ==> Weigh(h.log[|h.log| - 1], Slots(p)) == 0
    requires m.quotas.slotUse[p] != 0 ==> p in m.quotas.open
    ensures Remembered(AddService(m, p).quotas, RecordAdd(h, m, p).lastTx, h.lastData, m.localPos, m.tx, h.log)
  {
    hide Weigh, SlotNumber;
    var r := AddService(m, p).quotas;
    SlotBefore(m.localPos);
    forall o: nat | o < PORTS ensures RememberedPort(r, RecordAdd(h, m, p).lastTx, m.localPos, m.tx, h.log, o) {
      assert RememberedPort(m.quotas, h.lastTx, m.localPos, m.tx, h.log, o);
    }
  }

  /** A port that was never opened has nothing in use. */
  lemma ClosedUnused(q: Quotas, rc: Recycler, lastTx: seq<int>, lastData: int, localPos: nat, tx: Sender, n: nat, available: nat,
                     log: seq<seq<Msg>>, stage: seq<Stage>, released: seq<nat>, scanAt: nat, p: nat)
    requires Accounts(q, rc, n, available, log, stage, released, scanAt) && Remembered(q, lastTx, lastData, localPos, tx, log)
    requires p < PORTS && p !in q.open
    ensures q.slotUse[p] == 0
  {
    hide InUse, Weigh;
    assert RememberedPort(q, lastTx, localPos, tx, log, p);
    InUseNone(log, stage, Slots(p));
    assert Counter(q, Slots(p)) == q.slotUse[p];
  }
}
