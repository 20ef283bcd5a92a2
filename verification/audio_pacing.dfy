/** Playing sound through the audio service: chunks are written ahead of the peer, paced by its
    completion messages. */
module AudioPacing {
  import opened Basics

  /** 32-bit positions wrap around. */
  const WORD: nat := 0x1_0000_0000

  /** The largest packet the peer takes. */
  const MAX_PACKET: nat := 4000

  /** The bits of a completion message that hold its byte count. */
  const COUNT_LIMIT: nat := 0x4000_0000

  datatype PlayState = Idle | Error | Running | Cancelled | Terminating

  /** What goes to the peer: the announcement of a chunk, then its bytes in packets. */
  datatype Message = Write(count: nat) | Packet(data: seq<byte>)

  function Add(a: uint32, n: nat): (r: uint32) {
    (a + n) % WORD
  }

  function Sub(a: uint32, b: uint32): (r: uint32) {
    (a - b) % WORD
  }

  /** The bytes of a list of packets. */
  function Contents(ms: seq<Message>): (b: seq<byte>) {
    if |ms| == 0 then [] else Contents(ms[..|ms| - 1]) + if ms[|ms| - 1].Packet? then ms[|ms| - 1].data else []
  }

  predicate Packets(ms: seq<Message>) {
    forall i :: 0 <= i < |ms| ==> ms[i].Packet? && 1 <= |ms[i].data| <= MAX_PACKET
  }

  lemma ContentsMore(ms: seq<Message>, m: Message)
    ensures Contents(ms + [m]) == Contents(ms) + if m.Packet? then m.data else []
  {
    assert (ms + [m])[..|ms|] == ms;
  }

  function Least(a: nat, b: nat): (c: nat) {
    if a < b then a else b
  }

  /** The packets are the chunk's pieces of 4000 bytes, in order; only its last piece may be shorter. */
  ghost predicate Sliced(ms: seq<Message>, chunk: seq<byte>) {
    forall i :: 0 <= i < |ms| ==> 4000 * i < |chunk| && ms[i] == Packet(chunk[4000 * i..Least(4000 * (i + 1), |chunk|)])
  }

  lemma NoneSliced(chunk: seq<byte>)
    ensures Sliced([], chunk)
  {
  }

  lemma SlicedMore(ms: seq<Message>, chunk: seq<byte>, rest: seq<byte>, n: nat)
    requires Sliced(ms, chunk) && |rest| > 0 && n == Least(|rest|, 4000)
    requires 4000 * |ms| + |rest| == |chunk| && rest == chunk[4000 * |ms|..]
    ensures Sliced(ms + [Packet(rest[..n])], chunk)
    ensures rest[n..] == chunk[4000 * |ms| + n..]
  {
    var k := |ms|;
    assert rest[..n] == chunk[4000 * k..4000 * k + n];
    assert 4000 * k + n == Least(4000 * (k + 1), |chunk|);
    var more := ms + [Packet(rest[..n])];
    forall i | 0 <= i < |more| ensures 4000 * i < |chunk| && more[i] == Packet(chunk[4000 * i..Least(4000 * (i + 1), |chunk|)]) {
      if i < k {
        assert more[i] == ms[i];
      }
    }
  }

  lemma CutPacket(ms: seq<Message>, rest: seq<byte>, n: nat)
    requires n <= |rest|
    ensures Contents(ms + [Packet(rest[..n])]) + rest[n..] == Contents(ms) + rest
    ensures Packets(ms) && 1 <= n <= MAX_PACKET ==> Packets(ms + [Packet(rest[..n])])
  {
    hide Contents;
    ContentsMore(ms, Packet(rest[..n]));
    assert rest == rest[..n] + rest[n..];
  }

  lemma NoPackets()
    ensures Packets([]) && Contents([]) == []
  {
  }

  /** Adding to a wrapped position wraps the true one. */
  lemma AddHolds(a: uint32, total: nat, n: nat)
    requires a == total % WORD
    ensures Add(a, n) == (total + n) % WORD
  {
  }

  /** The difference of wrapped positions is the true one while that fits a word. */
  lemma DifferenceHolds(w: uint32, c: uint32, written: nat, completed: nat)
    requires w == written % WORD && c == completed % WORD && completed <= written < completed + WORD
    ensures Sub(w, c) == written - completed
  {
    var a := written / WORD - completed / WORD;
    assert written - completed == (w - c) + a * WORD;
    WrapOnce(w - c, a);
  }

  lemma WrapOnce(d: int, a: int)
    requires 0 <= d + WORD && d < WORD && 0 <= d + a * WORD < WORD
    ensures d % WORD == d + a * WORD
  {
    assert a == 0 || a == 1;
  }

  /** How many packets n bytes take. */
  function PacketsFor(n: nat): (k: nat) {
    (n + MAX_PACKET - 1) / MAX_PACKET
  }

  // ---------------------------------------------------------------- completions

  /** A completion message for count bytes, the chunk the callback has ready when it is asked for
      one, and which calls into the queue succeed then. */
  datatype Completion = Completion(count: nat, chunk: seq<byte>, accepts: nat -> bool)

  /** Every call the chunk needs succeeds. */
  ghost predicate Accepted(chunk: seq<byte>, accepts: nat -> bool) {
    forall k: nat :: k <= PacketsFor(|chunk|) ==> accepts(k)
  }

  /** What pacing depends on: the state and the bytes in flight. */
  datatype Pace = Pace(state: PlayState, inFlight: int)

  predicate Deaf(state: PlayState) {
    state == Idle || state == Error
  }

  /** The completion makes the device ask for another chunk. */
  predicate Asks(p: Pace, c: Completion, chunkBytes: nat) {
    !Deaf(p.state) && p.state != Cancelled && p.inFlight - c.count <= chunkBytes
  }

  /** Handling one completion. */
  ghost function Handled(p: Pace, c: Completion, chunkBytes: nat): (q: Pace) {
    var left := p.inFlight - c.count;
    if Deaf(p.state) then p
    else if left > chunkBytes then p.(inFlight := left)
    else if p.state == Cancelled then Pace(Terminating, left)
    else if c.chunk == [] then Pace(Idle, left)
    else Pace(if Accepted(c.chunk, c.accepts) then p.state else Error, if c.accepts(0) then left + |c.chunk| else left)
  }

  ghost function HandledAll(p: Pace, cs: seq<Completion>, chunkBytes: nat): (q: Pace) {
    if |cs| == 0 then p else Handled(HandledAll(p, cs[..|cs| - 1], chunkBytes), cs[|cs| - 1], chunkBytes)
  }

  /** The pace at the i-th completion. */
  ghost function At(p: Pace, cs: seq<Completion>, i: nat, chunkBytes: nat): (q: Pace)
    requires i <= |cs|
  {
    HandledAll(p, cs[..i], chunkBytes)
  }

  /** The peer completes what it was sent and nothing else, and the callback returns one chunk at most. */
  ghost predicate Owed(p: Pace, cs: seq<Completion>, chunkBytes: nat) {
    forall i :: 0 <= i < |cs| ==>
      0 < cs[i].count < COUNT_LIMIT && |cs[i].chunk| <= chunkBytes
      && (!Deaf(At(p, cs, i, chunkBytes).state) ==> cs[i].count <= At(p, cs, i, chunkBytes).inFlight)
  }

  /** No completion that asks for a chunk meets an empty one or a failing queue. */
  ghost predicate NoneFails(p: Pace, cs: seq<Completion>, chunkBytes: nat) {
    forall i :: 0 <= i < |cs| && Asks(At(p, cs, i, chunkBytes), cs[i], chunkBytes) ==>
      cs[i].chunk != [] && Accepted(cs[i].chunk, cs[i].accepts)
  }

  /** No completion that asks for a chunk gets anything into the queue. */
  ghost predicate NoneQueues(p: Pace, cs: seq<Completion>, chunkBytes: nat) {
    forall i :: 0 <= i < |cs| && Asks(At(p, cs, i, chunkBytes), cs[i], chunkBytes) ==>
      cs[i].chunk == [] || !cs[i].accepts(0)
  }

  function Counts(cs: seq<Completion>): (n: nat) {
    if |cs| == 0 then 0 else Counts(cs[..|cs| - 1]) + cs[|cs| - 1].count
  }

  // ---------------------------------------------------------------- waiting calls

  /** What is handled while call k into the queue waits. */
  function Wait(waits: seq<seq<Completion>>, k: nat): (cs: seq<Completion>) {
    if k < |waits| then waits[k] else []
  }

  /** The pace before call k: call 0 announces a chunk of n bytes, which are in flight from then on. */
  ghost function Before(p: Pace, n: nat, waits: seq<seq<Completion>>, k: nat, chunkBytes: nat): (q: Pace) {
    if k == 0 then p
    else
      var w := HandledAll(Before(p, n, waits, k - 1, chunkBytes), Wait(waits, k - 1), chunkBytes);
      if k == 1 then Pace(w.state, w.inFlight + n) else w
  }

  /** The pace when so many calls succeeded, and unless all did, the next one waited and failed. */
  ghost function After(p: Pace, n: nat, waits: seq<seq<Completion>>, ok: bool, calls: nat, chunkBytes: nat): (q: Pace) {
    var q := Before(p, n, waits, calls, chunkBytes);
    if ok then q else HandledAll(q, Wait(waits, calls), chunkBytes)
  }

  /** So many calls were made for a chunk and succeeded; if not ok, the next one failed. */
  predicate Called(chunk: seq<byte>, accepts: nat -> bool, ok: bool, calls: nat) {
    && (forall k: nat :: k < calls ==> accepts(k))
    && (if ok then calls == PacketsFor(|chunk|) + 1 else calls <= PacketsFor(|chunk|) && !accepts(calls))
  }

  /** The completions handled during all waits are owed. */
  ghost predicate WaitsOwed(p: Pace, n: nat, waits: seq<seq<Completion>>, chunkBytes: nat) {
    forall k: nat :: k < |waits| ==> Owed(Before(p, n, waits, k, chunkBytes), waits[k], chunkBytes)
  }

  /** Nothing was queued while a packet waited. */
  ghost predicate Undisturbed(p: Pace, n: nat, waits: seq<seq<Completion>>, calls: nat, chunkBytes: nat) {
    forall k: nat :: 1 <= k < calls ==> NoneQueues(Before(p, n, waits, k, chunkBytes), Wait(waits, k), chunkBytes)
  }

  function Picked(queue: seq<Message>, own: seq<nat>): (ms: seq<Message>)
    requires forall i :: 0 <= i < |own| ==> own[i] < |queue|
  {
    seq(|own|, i requires 0 <= i < |own| => queue[own[i]])
  }

  /** At these places of the queue, in order, stand the announcement of n bytes and the packets. */
  ghost predicate Placed(queue: seq<Message>, own: seq<nat>, n: nat, packets: seq<Message>) {
    && |own| == 1 + |packets| && (forall i :: 0 <= i < |own| ==> own[i] < |queue|)
    && (forall i, j :: 0 <= i < j < |own| ==> own[i] < own[j])
    && queue[own[0]] == Write(n) && Picked(queue, own[1..]) == packets
  }

  /** At these places of the queue stand the messages of the chunk: its announcement, then packets
      of at most 4000 bytes that make it up. */
  ghost predicate Parts(queue: seq<Message>, own: seq<nat>, chunk: seq<byte>) {
    exists packets :: Placed(queue, own, |chunk|, packets)
      && Packets(packets) && Contents(packets) == chunk && |packets| == PacketsFor(|chunk|) && Sliced(packets, chunk)
  }

  predicate Contiguous(own: seq<nat>) {
    forall i :: 0 <= i < |own| ==> own[i] == own[0] + i
  }

  lemma LastOf(p: Pace, cs: seq<Completion>, c: Completion, chunkBytes: nat)
    ensures HandledAll(p, cs + [c], chunkBytes) == Handled(HandledAll(p, cs, chunkBytes), c, chunkBytes)
    ensures Counts(cs + [c]) == Counts(cs) + c.count
    ensures At(p, cs + [c], |cs|, chunkBytes) == HandledAll(p, cs, chunkBytes)
    ensures forall i :: 0 <= i <= |cs| ==> At(p, cs + [c], i, chunkBytes) == At(p, cs, i, chunkBytes)
  {
    assert (cs + [c])[..|cs|] == cs;
    forall i | 0 <= i <= |cs| ensures (cs + [c])[..i] == cs[..i] {
    }
    assert cs[..|cs|] == cs;
  }

  lemma FailsMore(p: Pace, cs: seq<Completion>, c: Completion, chunkBytes: nat)
    ensures NoneFails(p, cs + [c], chunkBytes) <==>
      NoneFails(p, cs, chunkBytes)
      && (Asks(HandledAll(p, cs, chunkBytes), c, chunkBytes) ==> c.chunk != [] && Accepted(c.chunk, c.accepts))
    ensures NoneQueues(p, cs + [c], chunkBytes) <==>
      NoneQueues(p, cs, chunkBytes) && (Asks(HandledAll(p, cs, chunkBytes), c, chunkBytes) ==> c.chunk == [] || !c.accepts(0))
    ensures Owed(p, cs + [c], chunkBytes) ==> Owed(p, cs, chunkBytes)
  {
    hide At, HandledAll, Accepted, Asks;
    LastOf(p, cs, c, chunkBytes);
    var all := cs + [c];
    assert all[|cs|] == c && forall i :: 0 <= i < |cs| ==> all[i] == cs[i];
  }

  /** The i-th completion of those owed, and what it adds to the first i. */
  lemma NextHandled(p: Pace, cs: seq<Completion>, i: nat, chunkBytes: nat)
    requires i < |cs| && Owed(p, cs, chunkBytes)
    ensures var q := HandledAll(p, cs[..i], chunkBytes); var c := cs[i];
      && 0 < c.count < COUNT_LIMIT && |c.chunk| <= chunkBytes && (!Deaf(q.state) ==> c.count <= q.inFlight)
      && HandledAll(p, cs[..i + 1], chunkBytes) == Handled(q, c, chunkBytes)
      && (NoneQueues(p, cs[..i + 1], chunkBytes) <==>
            NoneQueues(p, cs[..i], chunkBytes) && (Asks(q, c, chunkBytes) ==> c.chunk == [] || !c.accepts(0)))
  {
    hide HandledAll, Handled, Accepted, Asks;
    assert cs[..i + 1] == cs[..i] + [cs[i]];
    LastOf(p, cs[..i], cs[i], chunkBytes);
    FailsMore(p, cs[..i], cs[i], chunkBytes);
    assert At(p, cs, i, chunkBytes) == HandledAll(p, cs[..i], chunkBytes);
  }

  lemma OneStep(q: Pace, c: Completion, chunkBytes: nat)
    ensures Deaf(q.state) ==> Deaf(Handled(q, c, chunkBytes).state)
    ensures q.state == Cancelled ==>
      !Asks(q, c, chunkBytes) && Handled(q, c, chunkBytes).inFlight == q.inFlight - c.count
      && Handled(q, c, chunkBytes).state == if q.inFlight - c.count > chunkBytes then Cancelled else Terminating
    ensures q.state == Terminating ==>
      (Handled(q, c, chunkBytes).state == Terminating || Deaf(Handled(q, c, chunkBytes).state))
      && (Handled(q, c, chunkBytes).state == Terminating <==>
            (Asks(q, c, chunkBytes) ==> c.chunk != [] && Accepted(c.chunk, c.accepts)))
  {
    hide Accepted;
  }

  lemma NothingHandled(p: Pace, cs: seq<Completion>, chunkBytes: nat)
    requires cs == []
    ensures HandledAll(p, cs, chunkBytes) == p && NoneFails(p, cs, chunkBytes) && NoneQueues(p, cs, chunkBytes) && Counts(cs) == 0
  {
  }

  /** From a cancelled device on, the completions leave it waiting or terminating exactly when none
      of them fails; and it waits only while bytes are in flight. */
  lemma {:induction false} CancelledThen(p: Pace, cs: seq<Completion>, chunkBytes: nat)
    requires p.state == Cancelled && p.inFlight > 0
    ensures var q := HandledAll(p, cs, chunkBytes);
      && (q.state == Cancelled || q.state == Terminating <==> NoneFails(p, cs, chunkBytes))
      && (q.state == Cancelled ==> q.inFlight == p.inFlight - Counts(cs) > 0)
      && q.state != Running
  {
    hide HandledAll, Handled, NoneFails, NoneQueues, Counts, Asks, Accepted, At, Owed;
    if |cs| == 0 {
      NothingHandled(p, cs, chunkBytes);
    } else {
      var front, c := cs[..|cs| - 1], cs[|cs| - 1];
      CancelledThen(p, front, chunkBytes);
      assert cs == front + [c];
      LastOf(p, front, c, chunkBytes);
      FailsMore(p, front, c, chunkBytes);
      OneStep(HandledAll(p, front, chunkBytes), c, chunkBytes);
    }
  }

  class SoundDevice {
    const chunkSize: nat
    var state: PlayState
    var writePos: uint32
    var completePos: uint32

    // bytes announced and bytes whose completion was taken in this session, and all messages queued
    ghost var written: nat
    ghost var completed: nat
    ghost var queued: seq<Message>

    ghost function ChunkBytes(): (n: nat) {
      2 * chunkSize
    }

    ghost function InFlight(): (n: int)
      reads this`written, this`completed
    {
      written - completed
    }

    ghost function Now(): (p: Pace)
      reads this
    {
      Pace(state, InFlight())
    }

    /** The positions are those of the true counts, and three chunks at most are in flight. */
    ghost predicate Steady()
      reads this
    {
      && 0 < chunkSize && 3 * ChunkBytes() < WORD
      && writePos == written % WORD && completePos == completed % WORD
      && 0 <= InFlight() <= 3 * ChunkBytes()
    }

    /** A playing device is owed a completion. */
    ghost predicate Valid()
      reads this
    {
      Steady() && (state == Running || state == Cancelled ==> InFlight() > 0)
    }

    /** No more than two chunks are in flight. */
    ghost predicate Paced()
      reads this
    {
      InFlight() <= 2 * ChunkBytes()
    }

    constructor (chunkSize: nat)
      requires 0 < chunkSize && 6 * chunkSize < WORD
      ensures Valid() && state == Idle && this.chunkSize == chunkSize && queued == []
    {
      this.chunkSize := chunkSize;
      state := Idle;
      writePos, completePos := 0, 0;
      written, completed, queued := 0, 0, [];
    }

    /** The position the code compares with a chunk is the true number of bytes in flight. */
    lemma Distance()
      requires Valid()
      ensures Sub(writePos, completePos) == InFlight()
    {
      DifferenceHolds(writePos, completePos, written, completed);
    }

    /** Announces the next chunk and queues its bytes in packets, one call into the queue each.
        accepts says which calls succeed, waits what the thread that handles completions does while
        they wait. With nothing to play the device goes idle. The messages of a chunk are queued in
        order; they stand next to each other if and only if no chunk was queued while a packet
        waited. */
    method WriteChunk(chunk: seq<byte>, accepts: nat -> bool, waits: seq<seq<Completion>>)
        returns (ok: bool, calls: nat, ghost own: seq<nat>)
      requires Steady() && Paced() && |chunk| <= ChunkBytes() && WaitsOwed(Now(), |chunk|, waits, ChunkBytes())
      modifies this
      decreases if waits == [] then 0 else 1, 2
      ensures Steady() && old(queued) <= queued
      ensures chunk == [] ==> ok && Now() == Pace(Idle, old(InFlight())) && queued == old(queued)
      ensures chunk != [] ==> (ok <==> Accepted(chunk, accepts)) && Called(chunk, accepts, ok, calls)
      ensures chunk != [] ==> Now() == After(old(Now()), |chunk|, waits, ok, calls, ChunkBytes())
      ensures chunk != [] && calls > 0 ==> Valid()
      ensures chunk != [] && Before(old(Now()), |chunk|, waits, 1, ChunkBytes()).inFlight <= 2 * ChunkBytes() ==> Paced()
      ensures chunk != [] && ok ==> Parts(queued, own, chunk) && |old(queued)| <= own[0]
      ensures chunk != [] && ok ==> (Contiguous(own) <==> Undisturbed(old(Now()), |chunk|, waits, calls, ChunkBytes()))
      ensures waits == [] ==> (queued == old(queued) <==> chunk == [] || !accepts(0))
      ensures waits == [] && chunk != [] && ok ==> Sends(old(queued), queued, chunk)
    {
      hide Add, PacketsFor, Owed, WaitsOwed, HandledAll, NoneQueues, Undisturbed, Contiguous, Parts, Sends;
      ghost var p := Now();
      own, calls := [], 0;
      if chunk == [] {
        state := Idle;
        return true, calls, own;
      }
      AwaitCall(|chunk|, waits, 0, p);
      NothingHandled(p, [], ChunkBytes());
      if !accepts(0) {
        return false, calls, own;
      }
      queued := queued + [Write(|chunk|)];
      AddHolds(writePos, written, |chunk|);
      writePos := Add(writePos, |chunk|);
      written := written + |chunk|;
      ok, calls, own := QueuePackets(chunk, accepts, waits, p);
      if waits == [] {
        NeverDisturbed(p, |chunk|, calls, ChunkBytes());
        if ok {
          SendsWhole(old(queued), queued, own, chunk);
        }
      }
    }

    /** Call k waits, and completions are handled meanwhile. */
    method AwaitCall(n: nat, waits: seq<seq<Completion>>, k: nat, ghost p: Pace)
      requires Steady() && WaitsOwed(p, n, waits, ChunkBytes()) && Now() == Before(p, n, waits, k, ChunkBytes())
      modifies this
      decreases if waits == [] then 0 else 1, 0
      ensures Steady() && (old(Valid()) ==> Valid()) && (old(Paced()) ==> Paced()) && old(queued) <= queued
      ensures Now() == HandledAll(old(Now()), Wait(waits, k), ChunkBytes())
      ensures queued == old(queued) <==> NoneQueues(old(Now()), Wait(waits, k), ChunkBytes())
    {
      hide Owed, WaitsOwed, HandledAll, NoneQueues, Before;
      WaitOwed(p, n, waits, k, ChunkBytes());
      NothingHandled(Now(), [], ChunkBytes());
      if k < |waits| {
        Visit(waits[k]);
      }
    }

    /** Queues the bytes of an announced chunk in packets. */
    method QueuePackets(chunk: seq<byte>, accepts: nat -> bool, waits: seq<seq<Completion>>, ghost p: Pace)
        returns (ok: bool, calls: nat, ghost own: seq<nat>)
      requires Valid() && chunk != [] && WaitsOwed(p, |chunk|, waits, ChunkBytes()) && accepts(0)
      requires Now() == Before(p, |chunk|, waits, 1, ChunkBytes())
      requires |queued| > 0 && queued[|queued| - 1] == Write(|chunk|)
      modifies this
      decreases if waits == [] then 0 else 1, 1
      ensures Valid() && (old(Paced()) ==> Paced()) && old(queued) <= queued
      ensures (ok <==> Accepted(chunk, accepts)) && Called(chunk, accepts, ok, calls) && calls > 0
      ensures Now() == After(p, |chunk|, waits, ok, calls, ChunkBytes())
      ensures ok ==> Parts(queued, own, chunk) && own[0] == |old(queued)| - 1 && own[|own| - 1] == |queued| - 1
      ensures ok ==> (Contiguous(own) <==> Undisturbed(p, |chunk|, waits, calls, ChunkBytes()))
    {
      hide Packets, Contents, PacketsFor, Owed, WaitsOwed, HandledAll, NoneQueues, Undisturbed, Contiguous, Before, Placed, Parts, Wait, Sliced;
      NoneSliced(chunk);
      var rest := chunk;
      calls := 1;
      ghost var packets: seq<Message> := [];
      own := [|queued| - 1];
      NoPackets();
      OneContiguous(queued, own, |chunk|);
      NothingDisturbed(p, |chunk|, waits, ChunkBytes());
      while |rest| > 0
        modifies this
        invariant Valid() && (old(Paced()) ==> Paced()) && old(queued) <= queued
        invariant Now() == Before(p, |chunk|, waits, calls, ChunkBytes())
        invariant Placed(queued, own, |chunk|, packets) && Packets(packets) && |packets| == calls - 1
        invariant |own| == calls && own[0] == |old(queued)| - 1 && own[calls - 1] == |queued| - 1
        invariant Contiguous(own) <==> Undisturbed(p, |chunk|, waits, calls, ChunkBytes())
        invariant Contents(packets) + rest == chunk && Sliced(packets, chunk)
        invariant |rest| > 0 ==> 4000 * (calls - 1) <= |chunk| && rest == chunk[4000 * (calls - 1)..]
        invariant |rest| > 0 ==> |chunk| - |rest| == MAX_PACKET * (calls - 1)
        invariant |rest| == 0 ==> calls - 1 == PacketsFor(|chunk|)
        invariant forall k: nat :: k < calls ==> accepts(k)
        decreases |rest|
      {
        PacketCount(|chunk|, |rest|, calls - 1);
        ghost var before := queued;
        AwaitCall(|chunk|, waits, calls, p);
        if !accepts(calls) {
          return false, calls, own;
        }
        var n := if |rest| <= MAX_PACKET then |rest| else MAX_PACKET;
        CutPacket(packets, rest, n);
        SlicedMore(packets, chunk, rest, n);
        PlacedMore(before, queued, own, |chunk|, packets, Packet(rest[..n]));
        NextDisturbed(p, |chunk|, waits, calls, ChunkBytes());
        packets := packets + [Packet(rest[..n])];
        own := own + [|queued|];
        queued := queued + [Packet(rest[..n])];
        rest := rest[n..];
        calls := calls + 1;
      }
      PlacedAll(queued, own, chunk, packets);
      ok := true;
    }

    /** Starting: the device runs and the first chunk is written. */
    method StartFirst(chunk: seq<byte>, accepts: nat -> bool, waits: seq<seq<Completion>>) returns (ok: bool, ghost own: seq<nat>)
      requires Valid() && state == Idle && |chunk| <= ChunkBytes()
      requires WaitsOwed(Pace(Running, 0), |chunk|, waits, ChunkBytes())
      modifies this
      ensures Valid() && Paced()
      ensures ok <==> chunk == [] || Accepted(chunk, accepts)
      ensures ok && chunk == [] ==> Now() == Pace(Idle, 0)
      ensures ok && chunk != [] ==> Now() == After(Pace(Running, 0), |chunk|, waits, true, PacketsFor(|chunk|) + 1, ChunkBytes())
      ensures ok && chunk != [] ==> Parts(queued, own, chunk)
      ensures ok && chunk != [] ==>
        (Contiguous(own) <==> Undisturbed(Pace(Running, 0), |chunk|, waits, PacketsFor(|chunk|) + 1, ChunkBytes()))
      ensures !ok ==> state == Error
    {
      hide Accepted, Sends, WaitsOwed, Before, After, Undisturbed, Contiguous, Parts;
      NothingToComplete(|chunk|, waits, ChunkBytes());
      state := Running;
      writePos, completePos := 0, 0;
      written, completed := 0, 0;
      var calls;
      ok, calls, own := WriteChunk(chunk, accepts, waits);
      if !ok {
        state := Error;
      }
    }

    /** Starting: the second chunk follows, even when the first was empty. The source makes no test
        here: at most two chunks are in flight afterwards if and only if there was room for this one
        when it was announced, or completions came while its packets waited. */
    method StartSecond(chunk: seq<byte>, accepts: nat -> bool, waits: seq<seq<Completion>>) returns (ok: bool, ghost own: seq<nat>)
      requires Valid() && Paced() && |chunk| <= ChunkBytes()
      requires WaitsOwed(Now(), |chunk|, waits, ChunkBytes())
      modifies this
      ensures Valid()
      ensures ok <==> chunk == [] || Accepted(chunk, accepts)
      ensures ok && waits == [] ==> (Paced() <==> old(InFlight()) + |chunk| <= 2 * ChunkBytes())
      ensures ok && Before(old(Now()), |chunk|, waits, 1, ChunkBytes()).inFlight <= 2 * ChunkBytes() ==> Paced()
      ensures ok && chunk != [] ==> Now() == After(old(Now()), |chunk|, waits, true, PacketsFor(|chunk|) + 1, ChunkBytes())
      ensures ok && chunk == [] ==> Now() == Pace(Idle, old(InFlight()))
      ensures ok && chunk != [] ==> Parts(queued, own, chunk)
      ensures ok && chunk != [] ==>
        (Contiguous(own) <==> Undisturbed(old(Now()), |chunk|, waits, PacketsFor(|chunk|) + 1, ChunkBytes()))
      ensures !ok ==> state == Error
    {
      hide Accepted, Sends, WaitsOwed, Before, After, Undisturbed, Contiguous, Parts;
      ghost var p := Now();
      var calls;
      ok, calls, own := WriteChunk(chunk, accepts, waits);
      if waits == [] {
        NeverDisturbed(p, |chunk|, calls, ChunkBytes());
        AfterNoWaits(p, |chunk|, ok, calls, ChunkBytes());
      }
      if !ok {
        state := Error;
      }
    }

    /** A completion message. While playing, the next chunk is written as soon as no more than one is
        left in flight; a cancelled device terminates at that point. Two chunks at most stay two
        chunks at most, and come back to that once the bytes left allow it. */
    method Complete(c: Completion)
      requires Valid() && 0 < c.count < COUNT_LIMIT && |c.chunk| <= ChunkBytes()
      requires !Deaf(state) ==> c.count <= InFlight()
      modifies this
      decreases 0, 3
      ensures Valid()
      ensures Now() == Handled(old(Now()), c, ChunkBytes())
      ensures old(InFlight()) - c.count <= 2 * ChunkBytes() && !Deaf(old(state)) ==> Paced()
      ensures old(Paced()) ==> Paced()
      ensures old(queued) <= queued
      ensures queued == old(queued) <==> !Asks(old(Now()), c, ChunkBytes()) || c.chunk == [] || !c.accepts(0)
      ensures Asks(old(Now()), c, ChunkBytes()) && c.chunk != [] && Accepted(c.chunk, c.accepts) ==> Sends(old(queued), queued, c.chunk)
    {
      hide Sends, Add, Sub, Accepted, Before, After, Undisturbed, Contiguous, Parts, WaitsOwed;
      if state == Idle || state == Error {
        return;
      }
      AddHolds(completePos, completed, c.count);
      completePos := Add(completePos, c.count % COUNT_LIMIT);
      completed := completed + c.count;
      DifferenceHolds(writePos, completePos, written, completed);
      if Sub(writePos, completePos) <= 2 * chunkSize {
        if state == Cancelled {
          state := Terminating;
          return;
        }
        ghost var p := Now();
        NoneOwed(p, |c.chunk|, ChunkBytes());
        var ok, calls, own := WriteChunk(c.chunk, c.accepts, []);
        AfterNoWaits(p, |c.chunk|, ok, calls, ChunkBytes());
        if ok && c.chunk != [] {
          FirstAccepted(c.chunk, c.accepts);
        }
        if !ok {
          state := Error;
        }
      }
    }

    /** One visit of the message thread: it handles everything that has arrived before any other
        thread goes on. */
    method Visit(cs: seq<Completion>)
      requires Steady() && Owed(Now(), cs, ChunkBytes())
      modifies this
      decreases 0, 4
      ensures Steady() && (old(Valid()) ==> Valid()) && (old(Paced()) ==> Paced())
      ensures Now() == HandledAll(old(Now()), cs, ChunkBytes())
      ensures queued == old(queued) <==> NoneQueues(old(Now()), cs, ChunkBytes())
      ensures old(queued) <= queued
    {
      hide HandledAll, Handled, Accepted, Asks, Owed, NoneQueues, At;
      ghost var p := Now();
      NothingHandled(p, cs[..0], ChunkBytes());
      var i := 0;
      while i < |cs|
        invariant 0 <= i <= |cs| && Steady() && (i > 0 || old(Valid()) ==> Valid()) && old(queued) <= queued
        invariant old(Paced()) ==> Paced()
        invariant Now() == HandledAll(p, cs[..i], ChunkBytes())
        invariant queued == old(queued) <==> NoneQueues(p, cs[..i], ChunkBytes())
      {
        NextHandled(p, cs, i, ChunkBytes());
        Complete(cs[i]);
        i := i + 1;
      }
      assert cs[..i] == cs;
    }

    /** Cancelling waits for the thread that handles completions. schedule says what that thread
        handles at each of its visits; the waiter looks only between visits. Whatever the schedule,
        once it brings the completions for what is in flight the wait ends. The waiter then finds
        the device terminating if and only if no completion handled in the same visit after the
        terminating one met an empty chunk or a failing queue; and nothing was queued meanwhile if
        and only if none of them got a chunk into the queue. */
    method Cancel(schedule: seq<seq<Completion>>) returns (cancelled: bool, visits: nat)
      requires Valid()
      requires state == Running ==>
        Owed(Pace(Cancelled, InFlight()), Flat(schedule), ChunkBytes()) && Counts(Flat(schedule)) >= InFlight()
      modifies this
      ensures Valid() && cancelled == (old(state) == Running) && visits <= |schedule|
      ensures !cancelled ==> Now() == old(Now()) && queued == old(queued)
      ensures cancelled ==>
        var p := Pace(Cancelled, old(InFlight()));
        var cs := Flat(schedule[..visits]);
        && state != Cancelled && Now() == HandledAll(p, cs, ChunkBytes())
        && visits > 0 && HandledAll(p, Flat(schedule[..visits - 1]), ChunkBytes()).state == Cancelled
        && (state == Terminating <==> NoneFails(p, cs, ChunkBytes()))
        && (queued == old(queued) <==> NoneQueues(p, cs, ChunkBytes()))
    {
      hide HandledAll, Handled, Owed, NoneFails, NoneQueues, Counts, Flat;
      if state != Running {
        return false, 0;
      }
      state := Cancelled;
      ghost var p := Now();
      visits := 0;
      NoneVisited(p, schedule, ChunkBytes());
      while state == Cancelled
        invariant 0 <= visits <= |schedule| && Valid() && old(queued) <= queued
        invariant Now() == HandledAll(p, Flat(schedule[..visits]), ChunkBytes())
        invariant queued == old(queued) <==> NoneQueues(p, Flat(schedule[..visits]), ChunkBytes())
        invariant visits == 0 ==> state == Cancelled
        invariant visits > 0 ==> HandledAll(p, Flat(schedule[..visits - 1]), ChunkBytes()).state == Cancelled
        decreases |schedule| - visits
      {
        CancelledThen(p, Flat(schedule[..visits]), ChunkBytes());
        NotExhausted(p, schedule, visits, ChunkBytes());
        VisitNext(p, schedule, visits, ChunkBytes());
        Visit(schedule[visits]);
        visits := visits + 1;
      }
      CancelledThen(p, Flat(schedule[..visits]), ChunkBytes());
      cancelled := true;
    }
  }

  // ---------------------------------------------------------------- schedules

  function Flat(schedule: seq<seq<Completion>>): (cs: seq<Completion>) {
    if |schedule| == 0 then [] else Flat(schedule[..|schedule| - 1]) + schedule[|schedule| - 1]
  }

  lemma NoneVisited(p: Pace, schedule: seq<seq<Completion>>, chunkBytes: nat)
    ensures Flat(schedule[..0]) == [] && HandledAll(p, [], chunkBytes) == p && NoneQueues(p, [], chunkBytes)
  {
  }

  /** A device still waiting has more to come. */
  lemma NotExhausted(p: Pace, schedule: seq<seq<Completion>>, visits: nat, chunkBytes: nat)
    requires visits <= |schedule| && Counts(Flat(schedule)) >= p.inFlight
    requires p.inFlight - Counts(Flat(schedule[..visits])) > 0
    ensures visits < |schedule|
  {
    assert schedule[..|schedule|] == schedule;
  }

  lemma {:induction false} HandledAfter(p: Pace, a: seq<Completion>, b: seq<Completion>, chunkBytes: nat)
    ensures HandledAll(p, a + b, chunkBytes) == HandledAll(HandledAll(p, a, chunkBytes), b, chunkBytes)
    decreases |b|
  {
    hide Handled;
    if |b| == 0 {
      assert a + b == a;
    } else {
      var front, c := b[..|b| - 1], b[|b| - 1];
      HandledAfter(p, a, front, chunkBytes);
      assert a + b == (a + front) + [c] && b == front + [c];
      LastOf(p, a + front, c, chunkBytes);
      LastOf(HandledAll(p, a, chunkBytes), front, c, chunkBytes);
    }
  }

  lemma {:induction false} FlatPrefix(schedule: seq<seq<Completion>>, n: nat)
    requires n <= |schedule|
    ensures Flat(schedule[..n]) <= Flat(schedule)
    decreases |schedule|
  {
    if n == |schedule| {
      assert schedule[..n] == schedule;
    } else {
      FlatPrefix(schedule[..|schedule| - 1], n);
      assert schedule[..|schedule| - 1][..n] == schedule[..n];
    }
  }

  /** The conditions on a whole list, seen from the point where a part has been handled. */
  lemma AfterPart(p: Pace, a: seq<Completion>, b: seq<Completion>, chunkBytes: nat)
    requires Owed(p, a + b, chunkBytes)
    ensures Owed(HandledAll(p, a, chunkBytes), b, chunkBytes)
    ensures NoneQueues(p, a + b, chunkBytes) <==> NoneQueues(p, a, chunkBytes) && NoneQueues(HandledAll(p, a, chunkBytes), b, chunkBytes)
  {
    hide HandledAll, Asks;
    var q := HandledAll(p, a, chunkBytes);
    var all := a + b;
    forall i | 0 <= i <= |b| ensures At(q, b, i, chunkBytes) == At(p, all, |a| + i, chunkBytes) {
      assert all[..|a| + i] == a + b[..i];
      HandledAfter(p, a, b[..i], chunkBytes);
    }
    forall i | 0 <= i <= |a| ensures At(p, a, i, chunkBytes) == At(p, all, i, chunkBytes) {
      assert all[..i] == a[..i];
    }
    assert forall i :: 0 <= i < |b| ==> all[|a| + i] == b[i];
    assert forall i :: 0 <= i < |a| ==> all[i] == a[i];
    if NoneQueues(p, a, chunkBytes) && NoneQueues(q, b, chunkBytes) {
      forall i | 0 <= i < |all| && Asks(At(p, all, i, chunkBytes), all[i], chunkBytes) ensures all[i].chunk == [] || !all[i].accepts(0) {
        if i < |a| {
          assert Asks(At(p, a, i, chunkBytes), a[i], chunkBytes);
        } else {
          assert Asks(At(q, b, i - |a|, chunkBytes), b[i - |a|], chunkBytes);
        }
      }
    }
    if NoneQueues(p, all, chunkBytes) {
      forall i | 0 <= i < |b| && Asks(At(q, b, i, chunkBytes), b[i], chunkBytes) ensures b[i].chunk == [] || !b[i].accepts(0) {
        assert Asks(At(p, all, |a| + i, chunkBytes), all[|a| + i], chunkBytes);
      }
    }
    forall i | 0 <= i < |b|
      ensures 0 < b[i].count < COUNT_LIMIT && |b[i].chunk| <= chunkBytes
      ensures !Deaf(At(q, b, i, chunkBytes).state) ==> b[i].count <= At(q, b, i, chunkBytes).inFlight
    {
      assert all[|a| + i] == b[i];
    }
  }

  lemma OwedPrefix(p: Pace, a: seq<Completion>, all: seq<Completion>, chunkBytes: nat)
    requires Owed(p, all, chunkBytes) && a <= all
    ensures Owed(p, a, chunkBytes)
  {
    hide HandledAll;
    forall i | 0 <= i < |a| ensures At(p, a, i, chunkBytes) == At(p, all, i, chunkBytes) {
      assert all[..i] == a[..i];
    }
  }

  lemma VisitNext(p: Pace, schedule: seq<seq<Completion>>, visits: nat, chunkBytes: nat)
    requires visits < |schedule| && Owed(p, Flat(schedule), chunkBytes)
    ensures var q := HandledAll(p, Flat(schedule[..visits]), chunkBytes);
      && Owed(q, schedule[visits], chunkBytes)
      && HandledAll(p, Flat(schedule[..visits + 1]), chunkBytes) == HandledAll(q, schedule[visits], chunkBytes)
      && (NoneQueues(p, Flat(schedule[..visits + 1]), chunkBytes) <==>
            NoneQueues(p, Flat(schedule[..visits]), chunkBytes) && NoneQueues(q, schedule[visits], chunkBytes))
  {
    hide HandledAll, Owed, NoneQueues;
    var a, b := Flat(schedule[..visits]), schedule[visits];
    assert schedule[..visits + 1][..visits] == schedule[..visits];
    assert Flat(schedule[..visits + 1]) == a + b;
    FlatPrefix(schedule, visits + 1);
    OwedPrefix(p, a + b, Flat(schedule), chunkBytes);
    AfterPart(p, a, b, chunkBytes);
    HandledAfter(p, a, b, chunkBytes);
  }

  /** A chunk was queued: its announcement, then packets of at most 4000 bytes that make it up. */
  ghost predicate Sends(was: seq<Message>, now: seq<Message>, chunk: seq<byte>) {
    && |now| == |was| + 1 + PacketsFor(|chunk|)
    && now[..|was| + 1] == was + [Write(|chunk|)]
    && Packets(now[|was| + 1..]) && Contents(now[|was| + 1..]) == chunk && Sliced(now[|was| + 1..], chunk)
  }

  lemma AfterNoWaits(p: Pace, n: nat, ok: bool, calls: nat, chunkBytes: nat)
    ensures Before(p, n, [], calls, chunkBytes) == if calls == 0 then p else Pace(p.state, p.inFlight + n)
    ensures After(p, n, [], ok, calls, chunkBytes) == if calls == 0 then p else Pace(p.state, p.inFlight + n)
    decreases calls
  {
    if calls > 0 {
      AfterNoWaits(p, n, ok, calls - 1, chunkBytes);
    }
  }

  lemma NoneOwed(p: Pace, n: nat, chunkBytes: nat)
    ensures WaitsOwed(p, n, [], chunkBytes)
  {
  }

  /** With nothing in flight there is nothing to wait for at the announcement. */
  lemma NothingToComplete(n: nat, waits: seq<seq<Completion>>, chunkBytes: nat)
    requires WaitsOwed(Pace(Running, 0), n, waits, chunkBytes)
    ensures Before(Pace(Running, 0), n, waits, 1, chunkBytes) == Pace(Running, n)
  {
    var p := Pace(Running, 0);
    WaitOwed(p, n, waits, 0, chunkBytes);
    if Wait(waits, 0) != [] {
      OwedFlies(p, Wait(waits, 0), chunkBytes);
    }
    FirstBefore(p, n, waits, chunkBytes);
    NothingHandled(p, [], chunkBytes);
  }

  lemma FirstBefore(p: Pace, n: nat, waits: seq<seq<Completion>>, chunkBytes: nat)
    ensures Before(p, n, waits, 0, chunkBytes) == p
    ensures var w := HandledAll(p, Wait(waits, 0), chunkBytes); Before(p, n, waits, 1, chunkBytes) == Pace(w.state, w.inFlight + n)
  {
    hide HandledAll;
  }

  lemma OwedFlies(p: Pace, cs: seq<Completion>, chunkBytes: nat)
    requires Owed(p, cs, chunkBytes) && cs != []
    ensures !Deaf(p.state) ==> p.inFlight > 0
  {
    hide Handled;
    assert At(p, cs, 0, chunkBytes) == p;
  }

  lemma WaitOwed(p: Pace, n: nat, waits: seq<seq<Completion>>, k: nat, chunkBytes: nat)
    requires WaitsOwed(p, n, waits, chunkBytes)
    ensures Owed(Before(p, n, waits, k, chunkBytes), Wait(waits, k), chunkBytes)
    ensures k == 0 ==> Before(p, n, waits, k, chunkBytes) == p
  {
    hide HandledAll, Handled;
  }

  lemma NeverDisturbed(p: Pace, n: nat, calls: nat, chunkBytes: nat)
    ensures Undisturbed(p, n, [], calls, chunkBytes)
  {
  }

  lemma NothingDisturbed(p: Pace, n: nat, waits: seq<seq<Completion>>, chunkBytes: nat)
    ensures Undisturbed(p, n, waits, 1, chunkBytes)
  {
  }

  lemma NextDisturbed(p: Pace, n: nat, waits: seq<seq<Completion>>, calls: nat, chunkBytes: nat)
    requires calls > 0
    ensures Undisturbed(p, n, waits, calls + 1, chunkBytes) <==>
      Undisturbed(p, n, waits, calls, chunkBytes) && NoneQueues(Before(p, n, waits, calls, chunkBytes), Wait(waits, calls), chunkBytes)
    ensures Before(p, n, waits, calls + 1, chunkBytes) == HandledAll(Before(p, n, waits, calls, chunkBytes), Wait(waits, calls), chunkBytes)
  {
    hide HandledAll, NoneQueues;
  }

  lemma OneContiguous(queue: seq<Message>, own: seq<nat>, n: nat)
    requires |own| == 1 && own[0] < |queue| && queue[own[0]] == Write(n)
    ensures Contiguous(own) && Placed(queue, own, n, [])
  {
    assert Picked(queue, own[1..]) == [];
  }

  /** One more message at the end of the queue. */
  lemma PlacedMore(before: seq<Message>, queue: seq<Message>, own: seq<nat>, n: nat, packets: seq<Message>, m: Message)
    requires Placed(before, own, n, packets) && before <= queue && own[|own| - 1] == |before| - 1
    ensures Placed(queue + [m], own + [|queue|], n, packets + [m])
    ensures Contiguous(own + [|queue|]) <==> Contiguous(own) && queue == before
  {
    var now, more := queue + [m], own + [|queue|];
    assert more[1..] == own[1..] + [|queue|];
    assert Picked(now, more[1..]) == Picked(before, own[1..]) + [m];
    if Contiguous(more) {
      assert more[|own|] == more[0] + |own| && more[|own| - 1] == more[0] + |own| - 1;
      forall i | 0 <= i < |own| ensures own[i] == own[0] + i {
        assert more[i] == own[i];
      }
    }
  }

  lemma PlacedAll(queue: seq<Message>, own: seq<nat>, chunk: seq<byte>, packets: seq<Message>)
    requires Placed(queue, own, |chunk|, packets) && Packets(packets) && |packets| == PacketsFor(|chunk|)
    requires Contents(packets) + [] == chunk && Sliced(packets, chunk)
    ensures Parts(queue, own, chunk)
  {
    hide Packets, Contents, Sliced;
    assert Contents(packets) == chunk;
  }

  lemma SendsWhole(was: seq<Message>, now: seq<Message>, own: seq<nat>, chunk: seq<byte>)
    requires Parts(now, own, chunk) && Contiguous(own) && was <= now
    requires own[0] == |was| && own[|own| - 1] == |now| - 1
    ensures Sends(was, now, chunk)
  {
    hide Packets, Contents, Sliced;
    assert now[..|was| + 1] == was + [Write(|chunk|)];
    assert now[|was| + 1..] == Picked(now, own[1..]);
  }

  lemma FirstAccepted(chunk: seq<byte>, accepts: nat -> bool)
    requires Accepted(chunk, accepts)
    ensures accepts(0)
  {
  }

  lemma PacketCount(total: nat, rest: nat, sent: nat)
    requires 0 < rest <= total && total - rest == MAX_PACKET * sent
    ensures rest <= MAX_PACKET ==> sent + 1 == PacketsFor(total)
    ensures sent + 1 <= PacketsFor(total)
  {
  }

  // ---------------------------------------------------------------- where the bounds are left

  function Silence(n: nat): (b: seq<byte>)
    ensures |b| == n
  {
    seq(n, i => 0)
  }

  /** A device with the first chunk of 2000 bytes in flight. */
  method FirstPlaying() returns (d: SoundDevice)
    ensures fresh(d) && d.Valid() && d.Paced() && d.chunkSize == 1000 && d.Now() == Pace(Running, 2000)
  {
    hide Silence, Before, After, WaitsOwed, Undisturbed, Contiguous, Parts, Accepted, PacketsFor;
    d := new SoundDevice(1000);
    NoneOwed(Pace(Running, 0), 2000, 2000);
    AlwaysAccepted(Silence(2000), _ => true);
    var ok, own := d.StartFirst(Silence(2000), _ => true, []);
    AfterNoWaits(Pace(Running, 0), 2000, true, PacketsFor(2000) + 1, 2000);
  }

  /** The second chunk follows. */
  method SecondPlaying(d: SoundDevice)
    requires d.Valid() && d.Paced() && d.chunkSize == 1000
    modifies d
    ensures d.Valid() && d.Now() == Pace(old(d.state), old(d.InFlight()) + 2000)
  {
    hide Silence, Before, After, WaitsOwed, Undisturbed, Contiguous, Parts, Accepted, PacketsFor;
    ghost var p := d.Now();
    NoneOwed(p, 2000, 2000);
    AlwaysAccepted(Silence(2000), _ => true);
    var ok, own := d.StartSecond(Silence(2000), _ => true, []);
    AfterNoWaits(p, 2000, true, PacketsFor(2000) + 1, 2000);
  }

  lemma AlwaysAccepted(chunk: seq<byte>, accepts: nat -> bool)
    requires forall k: nat :: accepts(k)
    ensures Accepted(chunk, accepts)
  {
  }

  /** Three whole chunks in flight: completions handled between the two initial writes let the
      device write chunks of its own. */
  method ThreeChunks() returns (d: SoundDevice)
    ensures d.Valid() && d.state == Running && d.InFlight() == 3 * d.ChunkBytes() && !d.Paced()
  {
    hide Silence;
    var chunk := Silence(2000);
    d := FirstPlaying();
    d.Complete(Completion(1, chunk, _ => true));
    d.Complete(Completion(1999, chunk, _ => true));
    SecondPlaying(d);
  }

  /** A completion handled while the first packet of a chunk waits: another chunk's messages get
      between its own. */
  method TornChunk() returns (d: SoundDevice, ghost own: seq<nat>)
    ensures d.Valid() && Parts(d.queued, own, Silence(2000)) && !Contiguous(own)
  {
    hide Silence, Parts, Contiguous;
    var chunk := Silence(2000);
    d := new SoundDevice(1000);
    var c := Completion(1, chunk, _ => true);
    Disturbs(c);
    var ok;
    ok, own := d.StartFirst(chunk, _ => true, [[], [c]]);
  }

  lemma Disturbs(c: Completion)
    requires c.count == 1 && |c.chunk| == 2000 && c.accepts(0)
    ensures WaitsOwed(Pace(Running, 0), 2000, [[], [c]], 2000)
    ensures !Undisturbed(Pace(Running, 0), 2000, [[], [c]], PacketsFor(2000) + 1, 2000)
  {
    hide Handled;
    var p, waits := Pace(Running, 0), [[], [c]];
    NothingHandled(p, [], 2000);
    var q := Before(p, 2000, waits, 1, 2000);
    FirstBefore(p, 2000, waits, 2000);
    OwedNone(p, 2000);
    OwedNone(q, 2000);
    OwedMore(q, [], c, 2000);
    assert [] + [c] == [c];
    assert At(q, [c], 0, 2000) == q && Asks(q, c, 2000);
    assert !NoneQueues(q, Wait(waits, 1), 2000);
  }


  /** Two completions handled in one visit: the waiter finds the device idle, not terminating. */
  method IdleAtOnce() returns (d: SoundDevice)
    ensures d.Valid() && d.state == Idle
  {
    d := FirstPlaying();
    SecondPlaying(d);
    var one := Completion(2000, [], _ => true);
    BothHandled(one, 4000, 2000);
    var cancelled, visits := d.Cancel([[one, one]]);
  }

  lemma BothHandled(one: Completion, inFlight: int, chunkBytes: nat)
    requires one.count == 2000 && one.chunk == [] && inFlight == 4000 && chunkBytes == 2000
    ensures var p := Pace(Cancelled, inFlight);
      && Flat([[one, one]]) == [one, one]
      && Owed(p, [one, one], chunkBytes) && Counts([one, one]) == 4000
      && HandledAll(p, [one, one], chunkBytes) == Pace(Idle, 0)
      && Flat([[one, one]][..0]) == [] && [[one, one]][..1] == [[one, one]]
  {
    hide HandledAll, Handled, Owed, Flat, Counts, At;
    var p := Pace(Cancelled, inFlight);
    TwoOf(one);
    NothingHandled(p, [], chunkBytes);
    LastOf(p, [], one, chunkBytes);
    LastOf(p, [one], one, chunkBytes);
    OneThenOther(one);
    OwedNone(p, chunkBytes);
    OwedMore(p, [], one, chunkBytes);
    OwedMore(p, [one], one, chunkBytes);
  }

  lemma TwoOf(one: Completion)
    ensures [] + [one] == [one] && [one] + [one] == [one, one]
    ensures [[one, one]][..0] == [] && [[one, one]][..1] == [[one, one]]
    ensures Flat([]) == [] && Flat([[one, one]]) == [one, one]
  {
    assert [[one, one]][..0] == [];
  }

  lemma OneThenOther(one: Completion)
    requires one.count == 2000 && one.chunk == []
    ensures Handled(Pace(Cancelled, 4000), one, 2000) == Pace(Terminating, 2000)
    ensures Handled(Pace(Terminating, 2000), one, 2000) == Pace(Idle, 0)
  {
  }

  lemma OwedNone(p: Pace, chunkBytes: nat)
    ensures Owed(p, [], chunkBytes)
  {
  }

  lemma OwedMore(p: Pace, cs: seq<Completion>, c: Completion, chunkBytes: nat)
    requires Owed(p, cs, chunkBytes) && 0 < c.count < COUNT_LIMIT && |c.chunk| <= chunkBytes
    requires !Deaf(HandledAll(p, cs, chunkBytes).state) ==> c.count <= HandledAll(p, cs, chunkBytes).inFlight
    ensures Owed(p, cs + [c], chunkBytes)
  {
    hide HandledAll, At;
    LastOf(p, cs, c, chunkBytes);
    var all := cs + [c];
    assert all[|cs|] == c && forall i :: 0 <= i < |cs| ==> all[i] == cs[i];
  }
}
