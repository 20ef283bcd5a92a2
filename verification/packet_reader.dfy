/** Ogg framing: pages, lacing values, and the reader that turns a file into packets. */
module PacketReader {
  import opened Basics
  import opened Bits

  const EOP: int := -1

  /** A page as it is written: header flag, the 20 bytes of position, serial number,
      sequence number and checksum, the lacing values, and the body. */
  datatype Page = Page(flag: byte, fields: seq<byte>, lacing: seq<byte>, body: seq<byte>)

  predicate Continued(flag: byte) {
    flag % 2 == 1
  }

  predicate WellFormed(p: Page) {
    && |p.fields| == 20
    && 1 <= |p.lacing| <= 255
    && |p.body| == Sum(p.lacing)
  }

  function Header(p: Page): (h: seq<byte>)
    requires WellFormed(p)
    ensures |h| == 27
  {
    [0x4f, 0x67, 0x67, 0x53, 0, p.flag] + p.fields + [|p.lacing|]
  }

  function PageBytes(p: Page): (b: seq<byte>)
    requires WellFormed(p)
  {
    Header(p) + p.lacing + p.body
  }

  ghost predicate AllWellFormed(pages: seq<Page>) {
    forall i :: 0 <= i < |pages| ==> WellFormed(pages[i])
  }

  function FileBytes(pages: seq<Page>): (b: seq<byte>)
    requires AllWellFormed(pages)
  {
    if |pages| == 0 then [] else PageBytes(pages[0]) + FileBytes(pages[1..])
  }

  function Lacings(pages: seq<Page>): (l: seq<byte>) {
    if |pages| == 0 then [] else pages[0].lacing + Lacings(pages[1..])
  }

  function Bodies(pages: seq<Page>): (b: seq<byte>) {
    if |pages| == 0 then [] else pages[0].body + Bodies(pages[1..])
  }

  function LastIs255(lacing: seq<byte>): (r: bool)
    requires |lacing| > 0
  {
    lacing[|lacing| - 1] == 255
  }

  /** Each page is marked as continuing a packet exactly when the page before it ended inside one. */
  predicate FlagsMatch(open: bool, pages: seq<Page>)
    requires AllWellFormed(pages)
    decreases |pages|
  {
    |pages| == 0 || (Continued(pages[0].flag) == open && FlagsMatch(LastIs255(pages[0].lacing), pages[1..]))
  }

  // ---------------------------------------------------------------- lacing, section 6 of RFC 3533

  /** How many lacing values the first packet takes: up to the first below 255. */
  function FirstPacketSegments(l: seq<byte>): (n: nat)
    ensures n <= |l|
    ensures |l| > 0 ==> n > 0
  {
    if |l| == 0 then 0 else if l[0] < 255 then 1 else 1 + FirstPacketSegments(l[1..])
  }

  /** The packets that lacing values cut a byte stream into. */
  function Packets(l: seq<byte>, data: seq<byte>): (ps: seq<seq<byte>>)
    requires |data| == Sum(l)
    decreases |l|
  {
    if |l| == 0 then []
    else
      var n := FirstPacketSegments(l);
      SumSplit(l, n);
      [data[..Sum(l[..n])]] + Packets(l[n..], data[Sum(l[..n])..])
  }

  lemma {:induction false} SumSplit(l: seq<byte>, n: nat)
    requires n <= |l|
    ensures Sum(l) == Sum(l[..n]) + Sum(l[n..])
  {
    if n > 0 {
      SumSplit(l[1..], n - 1);
      assert l[1..][..n - 1] == l[..n][1..];
      assert l[1..][n - 1..] == l[n..];
    } else {
      assert l[0..] == l;
    }
  }

  lemma {:induction false} SumAppend(a: seq<byte>, b: seq<byte>)
    ensures Sum(a + b) == Sum(a) + Sum(b)
  {
    SumSplit(a + b, |a|);
    assert (a + b)[..|a|] == a && (a + b)[|a|..] == b;
  }

  lemma {:induction false} BodiesLength(pages: seq<Page>)
    requires AllWellFormed(pages)
    ensures |Bodies(pages)| == Sum(Lacings(pages))
  {
    if |pages| > 0 {
      BodiesLength(pages[1..]);
      SumAppend(pages[0].lacing, Lacings(pages[1..]));
    }
  }

  /** What the lacing values l leave of the packet in progress, and what follows it. */
  datatype View = View(current: seq<byte>, later: seq<seq<byte>>)

  /** A reader that has `held` bytes of its segment left: if its packet ends with that
      segment, only those; otherwise also the segments up to the first below 255. */
  function Cut(held: nat, ends: bool, l: seq<byte>, data: seq<byte>): (v: View)
    requires |data| == held + Sum(l)
  {
    if ends then View(data[..held], Packets(l, data[held..]))
    else
      var n := FirstPacketSegments(l);
      SumSplit(l, n);
      var k := held + Sum(l[..n]);
      View(data[..k], Packets(l[n..], data[k..]))
  }

  /** Taking one held byte takes the first byte of the packet in progress. */
  lemma CutByte(held: nat, ends: bool, l: seq<byte>, data: seq<byte>)
    requires |data| == held + Sum(l) && held > 0
    ensures Cut(held, ends, l, data).current == [data[0]] + Cut(held - 1, ends, l, data[1..]).current
    ensures Cut(held, ends, l, data).later == Cut(held - 1, ends, l, data[1..]).later
  {
    hide Packets;
    if ends {
      SliceStep(data, held);
    } else {
      var n := FirstPacketSegments(l);
      SumSplit(l, n);
      SliceStep(data, held + Sum(l[..n]));
    }
  }

  lemma SliceStep(data: seq<byte>, k: nat)
    requires 1 <= k <= |data|
    ensures data[..k] == [data[0]] + data[1..][..k - 1]
    ensures data[k..] == data[1..][k - 1..]
  {
  }

  lemma SumHead(l: seq<byte>, n: nat)
    requires 1 <= n <= |l|
    ensures Sum(l[..n]) == l[0] + Sum(l[1..][..n - 1])
    ensures l[n..] == l[1..][n - 1..]
  {
    assert l[..n][1..] == l[1..][..n - 1];
  }

  /** Fetching the next lacing value changes neither the packet in progress nor those after it. */
  lemma CutSegment(l: seq<byte>, data: seq<byte>)
    requires |data| == Sum(l) && |l| > 0
    ensures Cut(0, false, l, data) == Cut(l[0], l[0] < 255, l[1..], data)
  {
    hide Packets;
    var n := FirstPacketSegments(l);
    SumSplit(l, n);
    SumHead(l, n);
    SumSplit(l[1..], n - 1);
    if l[0] < 255 {
      assert Sum(l[1..][..0]) == 0;
    }
  }

  /** How a writer laces packets: a packet of n bytes is n / 255 full segments and one of n % 255. */
  function Lace(ps: seq<seq<byte>>): (l: seq<byte>) {
    if |ps| == 0 then [] else LaceOne(|ps[0]|) + Lace(ps[1..])
  }

  function LaceOne(n: nat): (l: seq<byte>)
    ensures |l| > 0
  {
    if n < 255 then [n] else [255] + LaceOne(n - 255)
  }

  function Concat(ps: seq<seq<byte>>): (b: seq<byte>) {
    if |ps| == 0 then [] else ps[0] + Concat(ps[1..])
  }

  lemma {:induction false} LaceOneCuts(n: nat, l: seq<byte>)
    ensures FirstPacketSegments(LaceOne(n) + l) == |LaceOne(n)|
    ensures Sum(LaceOne(n)) == n
  {
    var m := LaceOne(n) + l;
    if n < 255 {
      assert m[0] == n && Sum([n][1..]) == 0;
    } else {
      LaceOneCuts(n - 255, l);
      assert m[0] == 255 && m[1..] == LaceOne(n - 255) + l;
      assert LaceOne(n)[1..] == LaceOne(n - 255);
    }
  }

  lemma {:induction false} LaceLength(ps: seq<seq<byte>>)
    ensures Sum(Lace(ps)) == |Concat(ps)|
  {
    if |ps| > 0 {
      LaceLength(ps[1..]);
      LaceOneCuts(|ps[0]|, []);
      SumAppend(LaceOne(|ps[0]|), Lace(ps[1..]));
    }
  }

  /** Cutting laced packets gives the packets back, empty ones and multiples of 255 included. */
  lemma {:induction false} LacingRoundTrip(ps: seq<seq<byte>>)
    ensures Sum(Lace(ps)) == |Concat(ps)| && Packets(Lace(ps), Concat(ps)) == ps
  {
    LaceLength(ps);
    if |ps| > 0 {
      var one, rest := LaceOne(|ps[0]|), Lace(ps[1..]);
      LaceOneCuts(|ps[0]|, rest);
      LacingRoundTrip(ps[1..]);
      var l, data := one + rest, ps[0] + Concat(ps[1..]);
      var n := FirstPacketSegments(l);
      assert l[..n] == one && l[n..] == rest;
      assert data[..|ps[0]|] == ps[0] && data[|ps[0]|..] == Concat(ps[1..]);
      assert ps == [ps[0]] + ps[1..];
    }
  }

  // ---------------------------------------------------------------- bytes as bits

  /** The bits of a byte sequence in reading order. */
  function ByteBits(s: seq<byte>): (b: seq<bool>)
    ensures |b| == 8 * |s|
  {
    if |s| == 0 then [] else BitsOf(s[0], 8) + ByteBits(s[1..])
  }

  /** One more byte above v buffered bits. */
  lemma AppendByte(acc: nat, v: nat, z: nat)
    requires acc < Pow2(v) && z < 256
    ensures acc + z * Pow2(v) < Pow2(v + 8)
    ensures BitsOf(acc + z * Pow2(v), v + 8) == BitsOf(acc, v) + BitsOf(z, 8)
  {
    Pow2Add(v, 8);
    Pow2At32();
    BitsAppend(acc, v, z, 8);
    AppendBound(acc, Pow2(v), z);
  }

  lemma AppendBound(acc: nat, p: nat, z: nat)
    requires acc < p && z < 256
    ensures 0 <= acc + z * p < p * 256
  {
    NotNegative(z, p);
    NotNegative(255 - z, p);
  }

  // ---------------------------------------------------------------- the reader

  /** The marker of a packet read past its end. */
  const INVALID_BITS: int := -1

  const PAGEFLAG_CONTINUED: nat := 1

  class Reader {
    const stream: seq<byte>
    var pos: nat
    var eof: bool
    var error: bool
    var pageFlag: byte
    var segmentCount: nat
    var segments: seq<byte>
    var nextSeg: int
    var lastSeg: bool
    var bytesInSeg: nat
    var packetBytes: nat
    var acc: nat
    var validBits: int

    // pages not begun, the unread rest of the current page's body, whether the last
    // lacing value taken was 255, and whether no packet has been begun
    ghost var pages: seq<Page>
    ghost var body: seq<byte>
    ghost var open: bool
    ghost var idle: bool

    /** Lacing values of the current page that are still to be taken. */
    ghost function Lacing(): (l: seq<byte>)
      requires nextSeg == -1 || 0 <= nextSeg <= segmentCount <= |segments|
      reads this`nextSeg, this`segmentCount, this`segments
    {
      if nextSeg == -1 then [] else segments[nextSeg..segmentCount]
    }

    ghost predicate Valid()
      reads this`pos, this`nextSeg, this`segmentCount, this`segments, this`bytesInSeg, this`pages, this`body, this`idle
    {
      && pos <= |stream|
      && AllWellFormed(pages)
      && stream[pos..] == body + FileBytes(pages)
      && (nextSeg == -1 || 0 <= nextSeg < segmentCount <= |segments|)
      && |body| == bytesInSeg + Sum(Lacing())
      && (idle ==> bytesInSeg == 0)
    }

    /** The pages still to come carry the continuation flags that match their lacing. */
    ghost predicate Flags()
      requires Valid()
      reads this`pos, this`nextSeg, this`segmentCount, this`segments, this`bytesInSeg, this`pages, this`body, this`idle
      reads this`open, this`lastSeg
    {
      && FlagsMatch(if Lacing() == [] then open else LastIs255(Lacing()), pages)
      && (nextSeg == -1 && !lastSeg && !idle ==> open)
      && (nextSeg == -1 && (lastSeg || idle) ==> !open || pages == [])
    }

    lemma DataLength()
      requires Valid()
      ensures |body + Bodies(pages)| == bytesInSeg + Sum(Lacing() + Lacings(pages))
    {
      BodiesLength(pages);
      SumAppend(Lacing(), Lacings(pages));
    }

    /** The rest of the packet in progress and the packets after it. */
    ghost function Rest(): (v: View)
      requires Valid()
      reads this`pos, this`nextSeg, this`segmentCount, this`segments, this`bytesInSeg, this`pages, this`body, this`idle
      reads this`lastSeg
    {
      DataLength();
      var l := Lacing() + Lacings(pages);
      var data := body + Bodies(pages);
      if idle then View([], Packets(l, data)) else Cut(bytesInSeg, lastSeg, l, data)
    }

    /** A file of whole pages, before its first page. */
    constructor (ghost file: seq<Page>, bytes: seq<byte>)
      requires AllWellFormed(file) && bytes == FileBytes(file)
      ensures Valid() && idle && validBits == 0
      ensures Flags() <==> FlagsMatch(false, file)
      ensures Rest() == (BodiesLength(file); View([], Packets(Lacings(file), Bodies(file))))
    {
      stream := bytes;
      pos := 0;
      eof := false;
      error := false;
      pageFlag := 0;
      segmentCount := 0;
      segments := [];
      nextSeg := -1;
      lastSeg := false;
      bytesInSeg := 0;
      packetBytes := 0;
      acc := 0;
      validBits := 0;
      pages := file;
      body := [];
      open := false;
      idle := true;
      new;
      BodiesLength(file);
      assert Lacing() + Lacings(pages) == Lacings(file);
      assert body + Bodies(pages) == Bodies(file);
      assert stream[pos..] == body + FileBytes(pages);
    }

    method Get8() returns (x: byte)
      requires pos <= |stream|
      modifies this`pos, this`eof
      ensures old(pos) < |stream| ==> x == stream[old(pos)] && pos == old(pos) + 1 && eof == old(eof)
      ensures old(pos) == |stream| ==> x == 0 && pos == old(pos) && eof
    {
      if pos >= |stream| {
        eof := true;
        return 0;
      }
      x := stream[pos];
      pos := pos + 1;
    }

    // ------------------------------------------------------------ the bit accumulator

    /** The accumulator holds its valid bits and nothing above them. */
    ghost predicate BitsValid()
      reads this`acc, this`validBits
    {
      && INVALID_BITS <= validBits <= 32
      && acc < 0x1_0000_0000
      && (validBits > 0 ==> acc < Pow2(validBits))
    }

    ghost function Buffered(): (b: seq<bool>)
      reads this`acc, this`validBits
    {
      if validBits > 0 then BitsOf(acc, validBits) else []
    }

    /** The bits of the packet still to be read. */
    ghost function Stream(): (b: seq<bool>)
      requires Valid()
      reads this
    {
      Buffered() + ByteBits(Rest().current)
    }

    method AddByte(z: byte)
      requires 0 <= validBits <= 24 && acc < Pow2(validBits)
      modifies this`acc, this`validBits
      ensures validBits == old(validBits) + 8 && BitsValid()
      ensures Buffered() == BitsOf(old(acc), old(validBits)) + BitsOf(z, 8)
    {
      hide Pow2, BitsOf;
      AppendByte(acc, validBits, z);
      NotNegative(z, Pow2(validBits));
      Pow2Monotone(validBits + 8, 32);
      Pow2At32();
      acc := acc + z * Pow2(validBits);
      validBits := validBits + 8;
    }

    /** Moves one byte of the packet into the accumulator, unless the packet has ended. */
    method FetchByte() returns (ok: bool)
      requires Valid() && !idle && 0 <= validBits <= 24 && acc < Pow2(validBits) && BitsValid()
      modifies this
      ensures Valid() && !idle && (old(Flags()) ==> Flags())
      ensures Stream() == old(Stream()) && Rest().later == old(Rest()).later
      ensures validBits == old(validBits) + if ok then 8 else 0
      ensures BitsValid() && acc < Pow2(validBits)
      ensures !ok && old(Flags()) ==> Rest().current == []
    {
      hide Valid, Rest, Flags, Pow2, BitsOf;
      NoBits(acc);
      ghost var before := Rest().current;
      var z := Get8PacketRaw();
      if z == EOP {
        return false;
      }
      ghost var held := BitsOf(acc, validBits);
      assert held + ByteBits(before) == (held + BitsOf(z, 8)) + ByteBits(Rest().current);
      AddByte(z);
      return true;
    }

    /** Fills the accumulator as far as the packet allows. */
    method PrepHuffman()
      requires Valid() && !idle && BitsValid() && validBits >= 0
      modifies this
      ensures Valid() && !idle && BitsValid() && (old(Flags()) ==> Flags())
      ensures Stream() == old(Stream()) && Rest().later == old(Rest()).later
      ensures old(validBits) > 24 ==> validBits == old(validBits)
      ensures 0 <= validBits && acc < Pow2(validBits)
      ensures old(validBits) <= 24 ==> old(validBits) <= validBits <= 32 && (validBits - old(validBits)) % 8 == 0
      ensures old(Flags()) ==> validBits >= 25 || Rest().current == []
    {
      hide Valid, Rest, Flags, Pow2, BitsOf;
      if validBits <= 24 {
        if validBits == 0 {
          acc := 0;
        }
        var more := true;
        while more
          invariant Valid() && !idle && BitsValid() && (old(Flags()) ==> Flags())
          invariant 0 <= validBits && acc < Pow2(validBits)
          invariant Stream() == old(Stream()) && Rest().later == old(Rest()).later
          invariant old(validBits) <= validBits && (validBits - old(validBits)) % 8 == 0
          invariant more <==> validBits <= 24
          decreases 32 - validBits
        {
          if lastSeg && bytesInSeg == 0 {
            EndOfPacket();
            return;
          }
          var ok := FetchByte();
          if !ok {
            return;
          }
          more := validBits <= 24;
        }
      }
    }

    lemma EndOfPacket()
      requires Valid() && !idle && lastSeg && bytesInSeg == 0
      ensures Rest().current == []
    {
      DataLength();
    }

    lemma TwoReads(s: seq<bool>, k: nat, n: nat)
      requires k <= n <= |s|
      ensures ValueOf(s[..n]) == ValueOf(s[..k]) + ValueOf(s[k..][..n - k]) * Pow2(k)
      ensures s[k..][n - k..] == s[n..]
    {
      hide ValueOf, Pow2;
      ValueSplit(s[..n], k);
      assert s[..n][..k] == s[..k] && s[..n][k..] == s[k..][..n - k];
    }

    /** The next n bits as a number, least significant first; past the end of the packet 0
        (for n up to 24), with the reader marked invalid. Only a full accumulator has no shift
        for 32 bits. */
    method GetBits(n: nat) returns (z: nat)
      requires Valid() && !idle && BitsValid() && n <= 32 && (n == 32 ==> validBits < 32)
      modifies this
      ensures Valid() && !idle && BitsValid() && (old(Flags()) ==> Flags()) && Rest().later == old(Rest()).later
      ensures old(validBits) < 0 ==> z == 0 && validBits < 0 && Rest() == old(Rest())
      ensures old(Flags()) && old(validBits) >= 0 && n <= |old(Stream())| ==>
        z == ValueOf(old(Stream())[..n]) && Stream() == old(Stream())[n..] && validBits >= 0
      ensures old(Flags()) && old(validBits) >= 0 && |old(Stream())| < n ==>
        validBits == INVALID_BITS && Rest().current == [] && (n <= 24 ==> z == 0)
      decreases n
    {
      hide Valid, Rest, Flags, Pow2, BitsOf, ValueOf, ByteBits, Stream, Buffered;
      if validBits < 0 {
        return 0;
      }
      if validBits < n {
        if n > 24 {
          z := GetBits(24);
          ghost var s := old(Stream());
          var y := GetBits(n - 24);
          z := z + y * Pow2(24);
          if n <= |s| {
            TwoReads(s, 24, n);
          }
          return;
        }
        z := FetchBits(n);
        return;
      }
      z := TakeBits(n);
    }

    /** Buffers and takes up to 24 bits. */
    method FetchBits(n: nat) returns (z: nat)
      requires Valid() && !idle && BitsValid() && 0 <= validBits < n <= 24
      modifies this
      ensures Valid() && !idle && BitsValid() && (old(Flags()) ==> Flags()) && Rest().later == old(Rest()).later
      ensures old(Flags()) && n <= |old(Stream())| ==>
        z == ValueOf(old(Stream())[..n]) && Stream() == old(Stream())[n..] && validBits >= 0
      ensures old(Flags()) && |old(Stream())| < n ==>
        validBits == INVALID_BITS && Rest().current == [] && z == 0
    {
      hide Valid, Rest, Flags, Pow2, BitsOf, ValueOf;
      if validBits == 0 {
        acc := 0;
      }
      while validBits < n
        invariant Valid() && !idle && BitsValid() && (old(Flags()) ==> Flags())
        invariant 0 <= validBits && acc < Pow2(validBits)
        invariant Stream() == old(Stream()) && Rest().later == old(Rest()).later
        decreases 32 - validBits
      {
        var ok := FetchByte();
        if !ok {
          NoBits(acc);
          validBits := INVALID_BITS;
          return 0;
        }
      }
      z := TakeBits(n);
    }

    /** Removes n buffered bits. */
    method TakeBits(n: nat) returns (z: nat)
      requires Valid() && BitsValid() && n <= validBits
      modifies this`acc, this`validBits
      ensures Valid() && BitsValid() && validBits == old(validBits) - n && Rest() == old(Rest())
      ensures n <= |old(Stream())|
      ensures z == ValueOf(old(Stream())[..n]) && Stream() == old(Stream())[n..]
    {
      hide Valid, Rest, Flags, Pow2, BitsOf, ValueOf, ByteBits;
      ghost var b := Buffered();
      TakeLow(acc, n, validBits);
      z := acc % Pow2(n);
      acc := acc / Pow2(n);
      validBits := validBits - n;
      assert (b + ByteBits(Rest().current))[..n] == b[..n];
      assert (b + ByteBits(Rest().current))[n..] == b[n..] + ByteBits(Rest().current);
    }

    method Get32() returns (x: nat)
      requires pos + 4 <= |stream|
      modifies this`pos, this`eof
      ensures pos == old(pos) + 4 && eof == old(eof)
      ensures x == stream[old(pos)] + (stream[old(pos) + 1] as int) * 0x100
                + (stream[old(pos) + 2] as int) * 0x1_0000 + (stream[old(pos) + 3] as int) * 0x100_0000
    {
      var a := Get8();
      var b := Get8();
      var c := Get8();
      var d := Get8();
      x := a + (b as int) * 0x100 + (c as int) * 0x1_0000 + (d as int) * 0x100_0000;
    }

    method CapturePattern() returns (ok: bool)
      requires pos <= |stream|
      modifies this`pos, this`eof
      ensures pos <= |stream|
      ensures ok ==> pos == old(pos) + 4 && eof == old(eof)
      ensures ok <==> [0x4f, 0x67, 0x67, 0x53] <= stream[old(pos)..]
      ensures old(pos) == |stream| ==> pos == old(pos)
    {
      var x := Get8();
      if x != 0x4f { return false; }
      x := Get8();
      if x != 0x67 { return false; }
      x := Get8();
      if x != 0x67 { return false; }
      x := Get8();
      if x != 0x53 { return false; }
      return true;
    }

    /** Reads the rest of a page header and the lacing values, leaving the reader at the page body. */
    method StartPageNoCapturePattern(ghost p: Page, ghost rest: seq<byte>) returns (ok: bool)
      requires 4 <= pos <= |stream| && WellFormed(p) && PageAt(stream, pos - 4, p, rest)
      modifies this`pos, this`eof, this`error, this`pageFlag, this`segmentCount, this`segments, this`nextSeg
      ensures ok <==> stream[old(pos)] == 0
      ensures !ok ==> error
      ensures ok ==> pos <= |stream| && stream[pos..] == p.body + rest
      ensures ok ==> pageFlag == p.flag && segments == p.lacing && segmentCount == |segments| && nextSeg == 0
    {
      var version := Get8();
      if version != 0 {
        error := true;
        return false;
      }
      pageFlag := Get8();
      var loc0 := Get32();
      var loc1 := Get32();
      var serial := Get32();
      var sequence := Get32();
      var crc := Get32();
      segmentCount := Get8();
      segments := stream[pos..pos + segmentCount];
      pos := pos + segmentCount;
      nextSeg := 0;
      return true;
    }

    /** Reads a whole page header. */
    method StartPage() returns (ok: bool)
      requires pos <= |stream| && AllWellFormed(pages) && stream[pos..] == FileBytes(pages)
      modifies this`pos, this`eof, this`error, this`pageFlag, this`segmentCount, this`segments, this`nextSeg
      modifies this`pages, this`body
      ensures pos <= |stream|
      ensures ok <==> old(pages) != []
      ensures !ok ==> error && pos == old(pos) && pages == old(pages) && nextSeg == old(nextSeg) && body == old(body)
      ensures ok ==> pages == old(pages)[1..] && body == old(pages)[0].body && pageFlag == old(pages)[0].flag
      ensures ok ==> nextSeg == 0 && segments == old(pages)[0].lacing && segmentCount == |segments|
      ensures ok ==> stream[pos..] == body + FileBytes(pages)
    {
      if |pages| > 0 {
        PageLayout(stream, pos, pages);
      }
      hide PageBytes, Header, PageAt;
      ok := CapturePattern();
      if !ok {
        error := true;
        return;
      }
      ghost var p := pages[0];
      ok := StartPageNoCapturePattern(p, FileBytes(pages[1..]));
      body, pages := p.body, pages[1..];
    }

    /** Between pages, starting a page keeps the packets still to come, and the page's flag
        says whether it continues one. */
    method TurnPage() returns (ok: bool)
      requires Valid() && nextSeg == -1 && bytesInSeg == 0
      modifies this`pos, this`eof, this`error, this`pageFlag, this`segmentCount, this`segments, this`nextSeg
      modifies this`pages, this`body
      ensures Valid() && Rest() == old(Rest())
      ensures ok <==> old(pages) != []
      ensures !ok ==> nextSeg == -1 && pages == []
      ensures old(Flags()) ==> Flags()
      ensures ok ==> nextSeg == 0 && (old(Flags()) ==> Continued(pageFlag) == open)
      ensures ok ==> pageFlag == old(pages)[0].flag && Lacing() != []
      ensures !ok ==> error
      ensures Lacing() + Lacings(pages) == old(Lacing() + Lacings(pages))
      ensures lastSeg == old(lastSeg) && idle == old(idle) && open == old(open) && bytesInSeg == 0
    {
      hide Packets, Cut;
      assert body == [] && body + FileBytes(pages) == FileBytes(pages);
      ok := StartPage();
      if ok {
        assert WellFormed(old(pages)[0]);
        assert Lacing() == segments;
        assert Lacing() + Lacings(pages) == [] + Lacings(old(pages));
        assert body + Bodies(pages) == [] + Bodies(old(pages));
      }
    }

    /** The next page should continue the packet in progress and is not marked so. */
    ghost predicate BrokenOff()
      reads this`nextSeg, this`pages
    {
      nextSeg == -1 && pages != [] && !Continued(pages[0].flag)
    }

    /** The next page is marked as continuing a packet. */
    ghost predicate GoesOn()
      reads this`nextSeg, this`pages
    {
      nextSeg == -1 && pages != [] && Continued(pages[0].flag)
    }

    /** Takes the next lacing value of the current page. */
    method TakeLacing() returns (len: nat)
      requires Valid() && !idle && !lastSeg && bytesInSeg == 0 && nextSeg != -1
      modifies this`nextSeg, this`lastSeg, this`bytesInSeg, this`open
      ensures Valid() && Rest() == old(Rest()) && (old(Flags()) ==> Flags())
      ensures len == bytesInSeg && (len == 0 ==> lastSeg)
      ensures old(Lacing()) != [] && len == old(Lacing())[0] && (lastSeg <==> len < 255)
    {
      hide Packets, Cut, FileBytes, FlagsMatch, AllWellFormed, Bodies, Lacings;
      DataLength();
      ghost var lacing := Lacing();
      CutSegment(lacing + Lacings(pages), body + Bodies(pages));
      len := segments[nextSeg];
      nextSeg := nextSeg + 1;
      if len < 255 {
        lastSeg := true;
      }
      if nextSeg >= segmentCount {
        nextSeg := -1;
      }
      bytesInSeg := len;
      open := len == 255;
      assert Lacing() == lacing[1..];
      assert Lacing() + Lacings(pages) == (lacing + Lacings(pages))[1..];
      assert Lacing() != [] ==> LastIs255(Lacing()) == LastIs255(lacing);
    }

    /** What is left of the lacing, and that with matching flags the next page continues the packet. */
    lemma LacingLeft()
      requires Valid()
      ensures Lacing() + Lacings(pages) == [] <==> nextSeg == -1 && pages == []
      ensures nextSeg != -1 ==> Lacing() != [] && (Lacing() + Lacings(pages))[0] == Lacing()[0]
      ensures Flags() && !idle && !lastSeg ==> !BrokenOff()
    {
      hide Packets, Cut, FileBytes, Bodies;
    }

    /** The file ends inside a packet, which ends there too. */
    method EndAtLastPage()
      requires Valid() && !idle && !lastSeg && bytesInSeg == 0 && nextSeg == -1 && pages == []
      modifies this`lastSeg
      ensures Valid() && Rest() == old(Rest()) && (old(Flags()) ==> Flags()) && lastSeg
    {
      DataLength();
      lastSeg := true;
    }

    /** Fetches the next lacing value of the packet in progress, across a page boundary if
        need be; 0 when the packet has no more bytes, or at a page that should continue it
        and is not marked so. */
    method NextSegment() returns (len: nat)
      requires Valid() && !idle && bytesInSeg == 0
      modifies this
      ensures old(lastSeg) || old(Lacing() + Lacings(pages)) == [] ==> len == 0 && lastSeg
      ensures !old(lastSeg) && old(BrokenOff()) ==> len == 0 && error && !lastSeg
      ensures !old(lastSeg) && !old(BrokenOff()) && old(Lacing() + Lacings(pages)) != [] ==>
        len == old(Lacing() + Lacings(pages))[0] && (lastSeg <==> len < 255)
      ensures Valid() && !idle && Rest() == old(Rest()) && (old(Flags()) ==> Flags())
      ensures len == bytesInSeg && (len == 0 ==> lastSeg || (error && !old(Flags())))
      ensures acc == old(acc) && validBits == old(validBits) && packetBytes == old(packetBytes)
    {
      hide Valid, Rest, Flags, Lacing, Lacings;
      LacingLeft();
      if lastSeg {
        return 0;
      }
      if nextSeg == -1 {
        var ok := TurnPage();
        if !ok {
          EndAtLastPage();
          return 0;
        }
        if pageFlag % 2 != PAGEFLAG_CONTINUED {
          error := true;
          return 0;
        }
      }
      len := TakeLacing();
    }

    /** The next byte of the packet in progress, or EOP. */
    method Get8PacketRaw() returns (x: int)
      requires Valid() && !idle
      modifies this
      ensures Valid() && !idle && (old(Flags()) ==> Flags())
      ensures acc == old(acc) && validBits == old(validBits)
      ensures if old(Rest()).current == [] then x == -1 else x == -1 || packetBytes == old(packetBytes) + 1
      ensures x == EOP ==> Rest() == old(Rest())
      ensures x == EOP ==> (Rest().current == [] && lastSeg && bytesInSeg == 0) || (error && !old(Flags()))
      ensures x != EOP ==> old(Rest()).current != [] && x == old(Rest()).current[0]
      ensures x != EOP ==> Rest() == View(old(Rest()).current[1..], old(Rest()).later)
    {
      if bytesInSeg == 0 {
        if lastSeg {
          return EOP;
        } else {
          var len := NextSegment();
          if len == 0 {
            return EOP;
          }
        }
      }
      assert bytesInSeg > 0;
      x := TakeByte();
    }

    method TakeByte() returns (x: byte)
      requires Valid() && !idle && bytesInSeg > 0
      modifies this
      ensures Valid() && !idle && (old(Flags()) ==> Flags())
      ensures acc == old(acc) && validBits == old(validBits) && packetBytes == old(packetBytes) + 1
      ensures old(Rest()).current != [] && x == old(Rest()).current[0]
      ensures Rest() == View(old(Rest()).current[1..], old(Rest()).later)
    {
      hide Packets, Cut, FileBytes;
      DataLength();
      ghost var data := body + Bodies(pages);
      CutByte(bytesInSeg, lastSeg, Lacing() + Lacings(pages), data);
      assert data[1..] == body[1..] + Bodies(pages);
      assert stream[pos..][0] == body[0] == data[0];
      assert stream[pos + 1..] == stream[pos..][1..] == body[1..] + FileBytes(pages);
      bytesInSeg := bytesInSeg - 1;
      packetBytes := packetBytes + 1;
      x := Get8();
      body := body[1..];
    }

    /** Reads past the rest of the packet. */
    method FlushPacket()
      requires Valid() && !idle && Flags()
      modifies this
      ensures Valid() && !idle && Flags() && lastSeg && bytesInSeg == 0
      ensures Rest() == View([], old(Rest()).later)
    {
      hide Valid, Rest, Flags;
      var x := Get8PacketRaw();
      while x != EOP
        invariant Valid() && !idle && Flags() && Rest().later == old(Rest()).later
        invariant x == EOP ==> Rest().current == [] && lastSeg && bytesInSeg == 0
        decreases |Rest().current|, x != EOP
      {
        x := Get8PacketRaw();
      }
    }

    /** Starts the next packet once the one in progress has ended. */
    method StartPacket() returns (ok: bool)
      requires Valid() && (idle || (lastSeg && bytesInSeg == 0))
      modifies this
      ensures Valid() && (old(Flags()) ==> Flags())
      ensures ok <==> old(Rest()).later != [] && !old(GoesOn())
      ensures !ok ==> error
      ensures old(Flags()) ==> !old(GoesOn())
      ensures ok ==> !idle && validBits == 0 && packetBytes == 0 && Rest() == View(old(Rest()).later[0], old(Rest()).later[1..])
      ensures acc == old(acc)
    {
      hide Valid, Rest, Flags, Lacing;
      AfterPacket();
      // a page has at least one lacing value, so the source's loop turns at most one page
      if nextSeg == -1 {
        ok := TurnPage();
        if !ok {
          AfterPacket();
          return;
        }
        if pageFlag % 2 == PAGEFLAG_CONTINUED {
          error := true;
          return false;
        }
      }
      BeginPacket();
      return true;
    }

    /** After a packet there is another one exactly when a lacing value or a page is left, and the
        next page does not continue a packet. */
    lemma AfterPacket()
      requires Valid() && (idle || (lastSeg && bytesInSeg == 0))
      ensures bytesInSeg == 0
      ensures Rest().later == [] <==> nextSeg == -1 && pages == []
      ensures Flags() && nextSeg == -1 && pages != [] ==> !open
    {
      hide FileBytes, Packets, Cut;
      DataLength();
      CutStart(Lacing() + Lacings(pages), body + Bodies(pages));
    }

    method BeginPacket()
      requires Valid() && (idle || lastSeg) && bytesInSeg == 0 && nextSeg != -1
      modifies this`lastSeg, this`validBits, this`packetBytes, this`bytesInSeg, this`idle
      ensures Valid() && (old(Flags()) ==> Flags()) && !idle && validBits == 0 && packetBytes == 0
      ensures old(Rest()).later != [] && Rest() == View(old(Rest()).later[0], old(Rest()).later[1..])
    {
      hide FileBytes, Packets, Cut, FlagsMatch, AllWellFormed, Bodies, Lacings;
      DataLength();
      CutStart(Lacing() + Lacings(pages), body + Bodies(pages));
      lastSeg := false;
      validBits := 0;
      packetBytes := 0;
      bytesInSeg := 0;
      idle := false;
    }
  }

  /** A packet just started is the first of those still to come. */
  lemma CutStart(l: seq<byte>, data: seq<byte>)
    requires |data| == Sum(l)
    ensures Packets(l, data) != [] <==> l != []
    ensures Cut(0, true, l, data) == View([], Packets(l, data))
    ensures l != [] ==> Cut(0, false, l, data) == View(Packets(l, data)[0], Packets(l, data)[1..])
  {
    assert data[0..] == data;
  }

  /** The fields of page p at position q, and what follows the page header. */
  ghost predicate PageAt(stream: seq<byte>, q: nat, p: Page, rest: seq<byte>) {
    var n := |p.lacing|;
    && q + 27 + n <= |stream|
    && stream[q + 5] == p.flag && stream[q + 26] == n
    && stream[q + 27..q + 27 + n] == p.lacing
    && stream[q + 27 + n..] == p.body + rest
  }

  lemma PageLayout(stream: seq<byte>, pos: nat, pages: seq<Page>)
    requires AllWellFormed(pages) && |pages| > 0 && pos <= |stream| && stream[pos..] == FileBytes(pages)
    ensures [0x4f, 0x67, 0x67, 0x53] <= stream[pos..]
    ensures PageAt(stream, pos, pages[0], FileBytes(pages[1..])) && stream[pos + 4] == 0
  {
    Regroup(Header(pages[0]), pages[0].lacing, pages[0].body, FileBytes(pages[1..]));
    PageLayoutOf(stream, pos, pages[0], Header(pages[0]), FileBytes(pages[1..]));
  }

  lemma PageLayoutOf(stream: seq<byte>, pos: nat, p: Page, h: seq<byte>, rest: seq<byte>)
    requires WellFormed(p) && h == Header(p)
    requires pos <= |stream| && stream[pos..] == h + p.lacing + (p.body + rest)
    ensures [0x4f, 0x67, 0x67, 0x53] <= stream[pos..]
    ensures PageAt(stream, pos, p, rest) && stream[pos + 4] == 0
  {
    HeaderAt(p);
    hide Header;
    Pieces(stream, pos, h, p.lacing, p.body + rest);
    assert h[..4] <= h <= stream[pos..];
  }

  lemma Regroup(h: seq<byte>, l: seq<byte>, b: seq<byte>, r: seq<byte>)
    ensures h + l + b + r == h + l + (b + r)
  {
  }

  lemma HeaderAt(p: Page)
    requires WellFormed(p)
    ensures Header(p)[..4] == [0x4f, 0x67, 0x67, 0x53]
    ensures Header(p)[4] == 0 && Header(p)[5] == p.flag && Header(p)[26] == |p.lacing|
  {
  }

  lemma Pieces(stream: seq<byte>, pos: nat, h: seq<byte>, l: seq<byte>, r: seq<byte>)
    requires pos <= |stream| && |h| == 27
    requires stream[pos..] == h + l + r
    ensures pos + 27 + |l| <= |stream| && h <= stream[pos..]
    ensures forall k :: 0 <= k < 27 ==> stream[pos + k] == h[k]
    ensures stream[pos + 27..pos + 27 + |l|] == l && stream[pos + 27 + |l|..] == r
  {
    var s := stream[pos..];
    assert forall k :: 0 <= k < |s| ==> stream[pos + k] == s[k];
    assert s[27..27 + |l|] == l && s[27 + |l|..] == r;
  }

  lemma NoBits(acc: nat)
    ensures BitsOf(acc, 0) == []
    ensures acc < Pow2(0) ==> acc == 0
  {
  }

  lemma {:induction false} ValueSplit(b: seq<bool>, k: nat)
    requires k <= |b|
    ensures ValueOf(b) == ValueOf(b[..k]) + ValueOf(b[k..]) * Pow2(k)
  {
    if k > 0 {
      ValueSplit(b[1..], k - 1);
      assert b[1..][..k - 1] == b[..k][1..] && b[1..][k - 1..] == b[k..];
      MulAssociative(2, ValueOf(b[k..]), Pow2(k - 1));
      MulAssociative(ValueOf(b[k..]), 2, Pow2(k - 1));
    } else {
      assert b[0..] == b;
    }
  }

  /** Masking and shifting the accumulator split its bits. */
  lemma TakeLow(acc: nat, n: nat, v: int)
    requires n <= v && (v > 0 ==> acc < Pow2(v))
    ensures 0 <= acc / Pow2(n) <= acc && acc % Pow2(n) >= 0
    ensures v > n ==> acc / Pow2(n) < Pow2(v - n)
    ensures v > 0 ==> acc % Pow2(n) == ValueOf(BitsOf(acc, v)[..n])
    ensures v > n ==> BitsOf(acc / Pow2(n), v - n) == BitsOf(acc, v)[n..]
    ensures v == 0 ==> acc % Pow2(n) == ValueOf([])
  {
    hide Pow2, BitsOf;
    DivMod(acc, Pow2(n));
    QuotientSmaller(acc, Pow2(n));
    if v > 0 {
      BitsSplit(acc, n, v);
      ValueOfBits(acc % Pow2(n), n);
      Pow2Add(n, v - n);
      QuotientLess(acc, Pow2(n), Pow2(v - n));
    } else {
      ModOne(acc);
    }
  }

  lemma ModOne(x: nat)
    ensures Pow2(0) == 1 && x % Pow2(0) == 0
  {
  }

  lemma QuotientSmaller(x: nat, p: nat)
    requires p > 0
    ensures x / p <= x
  {
    DivMod(x, p);
    if x / p > 0 {
      NotNegative(p - 1, x / p);
    }
  }

  lemma QuotientLess(x: nat, p: nat, q: nat)
    requires p > 0 && x < p * q
    ensures x / p < q
  {
    DivMod(x, p);
    LessFactor(p, x / p, q);
  }

  lemma LessFactor(p: nat, k: nat, q: nat)
    requires p * k < p * q
    ensures k < q
  {
    if k >= q {
      ProductGrows(p, q, k);
    }
  }

  lemma ProductGrows(p: nat, q: nat, k: nat)
    requires q <= k
    ensures p * q <= p * k
  {
    NotNegative(p, k - q);
  }
}
