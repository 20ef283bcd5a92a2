/** The slave's queue of bulk transfers: a ring of four entries and five counters. */
module BulkQueues {

  const NUM_SERVICE_BULKS: nat := 4

  /** The result of a transfer that did not take place. */
  const ABORTED: int := -1

  datatype Mode = Callback | Blocking | NoCallback

  datatype Direction = Transmit | Receive

  datatype Bulk = Bulk(userdata: int, mode: Mode, dir: Direction, size: nat, actual: int)

  /** What the client is told when a bulk is removed. */
  datatype Notice =
    | Silent
    | Wakes(waiter: int, actual: int)
    | Calls(reason: Reason, userdata: int)

  datatype Reason = TransmitDone | TransmitAborted | ReceiveDone | ReceiveAborted

  function ReasonOf(b: Bulk): (r: Reason) {
    if b.dir == Transmit then (if b.actual == ABORTED then TransmitAborted else TransmitDone)
    else if b.actual == ABORTED then ReceiveAborted else ReceiveDone
  }

  function NoticeOf(b: Bulk): (n: Notice) {
    match b.mode
    case Blocking => Wakes(b.userdata, b.actual)
    case Callback => Calls(ReasonOf(b), b.userdata)
    case NoCallback => Silent
  }

  /** The bulks of a queue as they were handed in, in order, with the results of those finished. */
  function Finished(inserted: seq<Bulk>, results: seq<int>): (f: seq<Bulk>)
    requires |results| <= |inserted|
    ensures |f| == |results|
  {
    seq(|results|, i requires 0 <= i < |results| => inserted[i].(actual := results[i]))
  }

  lemma FinishedMore(inserted: seq<Bulk>, results: seq<int>, r: int)
    requires |results| < |inserted|
    ensures Finished(inserted, results + [r]) == Finished(inserted, results) + [inserted[|results|].(actual := r)]
  {
  }

  /** Counter values less than a ring apart use different entries. */
  lemma RingApart(i: nat, j: nat)
    requires i < j < i + NUM_SERVICE_BULKS
    ensures i % NUM_SERVICE_BULKS != j % NUM_SERVICE_BULKS
  {
  }

  lemma FinishedInsert(inserted: seq<Bulk>, results: seq<int>, b: Bulk)
    requires |results| <= |inserted|
    ensures Finished(inserted + [b], results) == Finished(inserted, results)
  {
  }

  /** The notices for a list of removed bulks. */
  function Notices(bulks: seq<Bulk>): (n: seq<Notice>)
    ensures |n| == |bulks|
  {
    seq(|bulks|, i requires 0 <= i < |bulks| => NoticeOf(bulks[i]))
  }

  /** What a client gets to know about its bulk: a blocking caller is woken with the result, a callback
      names the direction and whether the transfer was aborted (-1 in place of a byte count). */
  predicate Tells(n: Notice, b: Bulk, actual: int) {
    match b.mode
    case NoCallback => n == Silent
    case Blocking => n == Wakes(b.userdata, actual)
    case Callback =>
      && n.Calls? && n.userdata == b.userdata
      && (b.dir == Transmit <==> n.reason == TransmitDone || n.reason == TransmitAborted)
      && (actual == -1 <==> n.reason == TransmitAborted || n.reason == ReceiveAborted)
  }

  lemma NoticeTells(b: Bulk, actual: int)
    ensures Tells(NoticeOf(b.(actual := actual)), b, actual)
  {
  }

  class BulkQueue {
    var localInsert: nat
    var remoteInsert: nat
    var process: nat
    var remoteNotify: nat
    var remove: nat
    const bulks: array<Bulk>

    /** The bulk mutex is held by a transfer whose entry is written but not yet inserted. */
    var preparing: bool

    // every bulk inserted so far, the results of those finished, and what clients were told
    ghost var inserted: seq<Bulk>
    ghost var results: seq<int>
    ghost var told: seq<Notice>

    /** The bulk of every live counter value is in its ring entry. */
    ghost predicate Entries()
      reads this, bulks
      requires bulks.Length == NUM_SERVICE_BULKS && |results| <= |inserted|
    {
      forall i :: remove <= i < |inserted| ==>
        bulks[i % NUM_SERVICE_BULKS] == inserted[i].(actual := if i < |results| then results[i] else ABORTED)
    }

    ghost predicate Valid()
      reads this, bulks
    {
      && bulks.Length == NUM_SERVICE_BULKS
      && remove <= remoteNotify <= process == remoteInsert <= localInsert <= remove + NUM_SERVICE_BULKS
      && (preparing ==> localInsert < remove + NUM_SERVICE_BULKS)
      && |inserted| == localInsert && |results| == process
      && Entries()
      && told == Notices(Finished(inserted, results)[..remove])
    }

    constructor ()
      ensures Valid() && inserted == [] && results == [] && told == [] && !preparing && fresh(bulks)
    {
      bulks := new Bulk[NUM_SERVICE_BULKS](_ => Bulk(0, NoCallback, Transmit, 0, ABORTED));
      localInsert, remoteInsert, process, remoteNotify, remove := 0, 0, 0, 0, 0;
      preparing := false;
      inserted, results, told := [], [], [];
    }

    // ------------------------------------------------------------ vchiq_bulk_transfer

    /** Writes the entry of a new bulk, once there is a free one. Nothing in the queue changes. */
    method Prepare(userdata: int, mode: Mode, dir: Direction, size: nat) returns (ok: bool)
      requires Valid() && !preparing
      modifies this`preparing, bulks
      ensures Valid() && preparing == ok
      ensures ok <==> localInsert - remove < 4
      ensures ok ==> bulks[localInsert % NUM_SERVICE_BULKS] == Bulk(userdata, mode, dir, size, ABORTED)
    {
      if localInsert == remove + NUM_SERVICE_BULKS {
        return false;
      }
      bulks[localInsert % NUM_SERVICE_BULKS] := Bulk(userdata, mode, dir, size, ABORTED);
      preparing := true;
      ok := true;
    }

    /** The request was sent to the peer: the bulk is in the queue. */
    method Insert()
      requires Valid() && preparing && bulks[localInsert % NUM_SERVICE_BULKS].actual == ABORTED
      modifies this`localInsert, this`preparing, this`inserted
      ensures Valid() && !preparing
      ensures inserted == old(inserted) + [bulks[old(localInsert) % NUM_SERVICE_BULKS]]
    {
      inserted := inserted + [bulks[localInsert % NUM_SERVICE_BULKS]];
      localInsert := localInsert + 1;
      preparing := false;
      FinishedInsert(old(inserted), results, inserted[|inserted| - 1]);
    }

    /** The request could not be sent: the queue is as it was. */
    method CancelInsert()
      requires Valid() && preparing
      modifies this`preparing
      ensures Valid() && !preparing
    {
      preparing := false;
    }

    // ------------------------------------------------------------ the peer's answers

    /** The peer has finished the oldest unfinished bulk. An answer nothing waits for is refused. */
    method Done(actual: int) returns (expected: bool)
      requires Valid() && !preparing
      modifies this`process, this`remoteInsert, this`results, bulks
      ensures Valid()
      ensures expected <==> old(process) < localInsert
      ensures results == if expected then old(results) + [actual] else old(results)
    {
      if remoteInsert >= localInsert {
        return false;
      }
      assert process != localInsert && process == remoteInsert;
      var bulk := bulks[remoteInsert % NUM_SERVICE_BULKS].(actual := actual);
      bulks[remoteInsert % NUM_SERVICE_BULKS] := bulk;
      remoteInsert := remoteInsert + 1;
      forall i | remove <= i < localInsert && i != process ensures i % NUM_SERVICE_BULKS != process % NUM_SERVICE_BULKS {
        RingApart(if i < process then i else process, if i < process then process else i);
      }
      FinishedMore(inserted, results, actual);
      results := results + [actual];
      process := process + 1;
      expected := true;
    }

    // ------------------------------------------------------------ notify_bulks

    /** Tells the client about the oldest finished bulk and frees its entry. Clients may insert
        between one such step and the next. */
    method RemoveOne() returns (notice: Notice)
      requires Valid() && remove != remoteNotify
      modifies this`remove, this`told
      ensures Valid() && remove == old(remove) + 1 && told == old(told) + [notice]
      ensures notice == NoticeOf(inserted[old(remove)].(actual := results[old(remove)]))
    {
      var bulk := bulks[remove % NUM_SERVICE_BULKS];
      notice := NoticeOf(bulk);
      told := told + [notice];
      assert Finished(inserted, results)[..remove + 1] == Finished(inserted, results)[..remove] + [bulk];
      remove := remove + 1;
    }

    /** Tells the client about every finished bulk, oldest first. */
    method NotifyBulks()
      requires Valid()
      modifies this`remoteNotify, this`remove, this`told
      ensures Valid() && remove == remoteNotify == process
      ensures told == Notices(Finished(inserted, results))
    {
      remoteNotify := process;
      while remove != remoteNotify
        invariant Valid() && remoteNotify == process
        decreases remoteNotify - remove
      {
        var notice := RemoveOne();
      }
      assert Finished(inserted, results)[..remove] == Finished(inserted, results);
    }

    // ------------------------------------------------------------ abort_outstanding_bulks

    /** Finishes every bulk still in the queue as aborted. */
    method AbortOutstandingBulks()
      requires Valid() && !preparing
      modifies this`process, this`remoteInsert, this`results
      ensures Valid() && process == remoteInsert == localInsert
      ensures results == old(results) + seq(localInsert - old(process), i => ABORTED)
    {
      while process != localInsert || process != remoteInsert
        invariant Valid() && old(process) <= process
        invariant results == old(results) + seq(process - old(process), i => ABORTED)
        decreases localInsert - process
      {
        // the peer's side of this bulk is a dummy; the local side is there
        assert process != localInsert;
        if process == remoteInsert {
          remoteInsert := remoteInsert + 1;
        }
        FinishedMore(inserted, results, ABORTED);
        results := results + [ABORTED];
        process := process + 1;
      }
    }

    /** Closing: whatever was in the queue is aborted, and every bulk ever inserted has been
        reported exactly once, in the order of insertion. */
    method Close()
      requires Valid() && !preparing
      modifies this`process, this`remoteInsert, this`results, this`remoteNotify, this`remove, this`told
      ensures Valid() && remove == remoteNotify == process == remoteInsert == localInsert
      ensures |results| == |inserted| && old(results) <= results
      ensures forall i :: |old(results)| <= i < |results| ==> results[i] == -1
      ensures told == Notices(Finished(inserted, results))
      ensures |told| == |inserted| && forall i :: 0 <= i < |told| ==> Tells(told[i], inserted[i], results[i])
    {
      AbortOutstandingBulks();
      NotifyBulks();
      ToldRight();
    }

    /** Every client told so far was told the right thing. */
    lemma ToldRight()
      requires Valid()
      ensures |told| <= |results| <= |inserted|
      ensures forall i :: 0 <= i < |told| ==> Tells(told[i], inserted[i], results[i])
    {
      forall i | 0 <= i < |told| ensures Tells(told[i], inserted[i], results[i]) {
        NoticeTells(inserted[i], results[i]);
      }
    }

    /** No ring entry serves two bulks that are both in the queue, and the entry of a bulk being
        prepared serves none. */
    lemma EntriesApart(i: nat, j: nat)
      requires Valid() && remove <= i < j && (j < localInsert || (j == localInsert && preparing))
      ensures i % NUM_SERVICE_BULKS != j % NUM_SERVICE_BULKS
    {
      RingApart(i, j);
    }

    /** What clients were told so far is the beginning of the list of finished bulks, and those are
        the beginning of the list of inserted ones. */
    lemma ToldInOrder()
      requires Valid()
      ensures told <= Notices(Finished(inserted, results))
      ensures |told| == remove && |results| <= |inserted|
    {
      var f := Finished(inserted, results);
      assert Notices(f[..remove]) == Notices(f)[..remove];
    }
  }
}
