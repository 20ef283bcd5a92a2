/** Finding pages in a stream that arrives in pieces: several candidates are checked side by
    side, each with a checksum carried from one piece to the next. */
module PageSearch {
  import opened Basics
  import opened Crc32

  const SCANS: nat := 4

  /** The capture pattern of a page. */
  const PATTERN: seq<byte> := [0x4f, 0x67, 0x67, 0x53]

  predicate PatternAt(s: seq<byte>, p: nat) {
    p + 4 <= |s| && s[p..p + 4] == PATTERN
  }

  /** The whole page header at p, segment table included, is in s. */
  predicate HeaderIn(s: seq<byte>, p: nat) {
    p + 27 <= |s| && p + 27 + s[p + 26] <= |s|
  }

  function PageLength(s: seq<byte>, p: nat): (n: nat)
    requires HeaderIn(s, p)
    ensures n >= 27
  {
    27 + s[p + 26] + Sum(s[p + 27..p + 27 + s[p + 26]])
  }

  /** Four bytes, least significant first, as a word. */
  function Word32(a: nat, b: nat, c: nat, d: nat): (w: Word) {
    Bits(a + 256 * b + 65536 * c + 16777216 * d, 32)
  }

  /** The checksum a page header asks for. */
  function Goal(s: seq<byte>, p: nat): (w: Word)
    requires HeaderIn(s, p)
  {
    Word32(s[p + 22], s[p + 23], s[p + 24], s[p + 25])
  }

  /** The bytes of a page from p up to pos, with the checksum field zeroed. */
  function Zeroed(s: seq<byte>, p: nat, pos: nat): (z: seq<byte>)
    requires p <= pos <= |s|
    ensures |z| == pos - p
  {
    seq(pos - p, i requires 0 <= i < pos - p => if 22 <= i < 26 then 0 else s[p + i])
  }

  /** The page at p is whole and its checksum is right. */
  ghost predicate GoodPage(s: seq<byte>, p: nat) {
    && PatternAt(s, p) && HeaderIn(s, p) && p + PageLength(s, p) <= |s|
    && Checksum(Zeroed(s, p, p + PageLength(s, p))) == Goal(s, p)
  }

  /** A good page ends at end. */
  ghost predicate PageEnds(s: seq<byte>, end: nat) {
    exists p :: GoodPageTo(s, p, end)
  }

  ghost predicate GoodPageTo(s: seq<byte>, p: nat, end: nat) {
    GoodPage(s, p) && end == p + PageLength(s, p)
  }

  datatype Scan = Scan(bytesLeft: int, crcSoFar: Word, goalCrc: Word, bytesDone: int)

  /** The scan of the page at p has covered its bytes up to pos. */
  ghost predicate Covers(s: seq<byte>, p: nat, pos: nat, sc: Scan) {
    && PatternAt(s, p) && HeaderIn(s, p) && p + 26 <= pos <= |s|
    && sc.crcSoFar == Fold(Zeros(32), Zeroed(s, p, pos))
    && sc.bytesLeft == p + PageLength(s, p) - pos
    && sc.goalCrc == Goal(s, p)
  }

  // ---------------------------------------------------------------- one scan

  lemma ZeroedMore(s: seq<byte>, p: nat, pos: nat, end: nat)
    requires p + 26 <= pos <= end <= |s|
    ensures Zeroed(s, p, end) == Zeroed(s, p, pos) + s[pos..end]
  {
    var a := Zeroed(s, p, end);
    var b := Zeroed(s, p, pos) + s[pos..end];
    assert |a| == |b|;
    forall i | 0 <= i < |a| ensures a[i] == b[i] {
      if i >= pos - p {
        assert b[i] == s[pos..end][i - (pos - p)];
      }
    }
  }

  /** A scan goes on with the bytes behind those it covered. */
  lemma CoversMore(s: seq<byte>, p: nat, pos: nat, end: nat, sc: Scan)
    requires Covers(s, p, pos, sc) && pos <= end <= |s|
    ensures Covers(s, p, end, sc.(bytesLeft := sc.bytesLeft - (end - pos), crcSoFar := Fold(sc.crcSoFar, s[pos..end])))
  {
    hide Fold, PageLength, Goal;
    ZeroedMore(s, p, pos, end);
    FoldAppend(Zeros(32), Zeroed(s, p, pos), s[pos..end]);
  }

  /** What a scan covers does not depend on bytes that arrive later, nor on bytesDone. */
  lemma CoversLater(s: seq<byte>, t: seq<byte>, p: nat, pos: nat, sc: Scan, d: int)
    requires Covers(s, p, pos, sc) && s <= t
    ensures Covers(t, p, pos, sc.(bytesDone := d))
  {
    hide Fold;
    assert Zeroed(t, p, pos) == Zeroed(s, p, pos);
    assert t[p..p + 4] == s[p..p + 4];
    assert t[p + 27..p + 27 + t[p + 26]] == s[p + 27..p + 27 + s[p + 26]];
  }

  /** A scan that has covered its page has the page's checksum. */
  lemma CoversPage(s: seq<byte>, p: nat, pos: nat, sc: Scan)
    requires Covers(s, p, pos, sc) && sc.bytesLeft == 0
    ensures pos == p + PageLength(s, p) && (sc.crcSoFar == sc.goalCrc <==> GoodPage(s, p))
    ensures sc.crcSoFar == sc.goalCrc ==> PageEnds(s, pos)
  {
    hide Fold, Checksum, PageLength, Goal, Zeroed;
    FoldDivides(Zeroed(s, p, pos));
    assert sc.crcSoFar == sc.goalCrc ==> GoodPageTo(s, p, pos);
  }

  /** One piece of data, from bytesDone up to dataLen or the page's end, through a scan. */
  function Advance(sc: Scan, data: seq<byte>, dataLen: nat): (r: Scan)
    requires 0 <= sc.bytesDone && dataLen <= |data|
  {
    var m := if sc.bytesLeft > dataLen - sc.bytesDone then dataLen - sc.bytesDone else sc.bytesLeft;
    sc.(bytesLeft := sc.bytesLeft - m,
        crcSoFar := if 0 <= m then Fold(sc.crcSoFar, data[sc.bytesDone..sc.bytesDone + m]) else sc.crcSoFar)
  }

  lemma SliceOfTail(s: seq<byte>, base: nat, lo: nat, hi: nat)
    requires base <= |s| && lo <= hi <= |s| - base
    ensures s[base..][lo..hi] == s[base + lo..base + hi]
  {
  }

  lemma AdvanceCovers(s: seq<byte>, base: nat, p: nat, sc: Scan, data: seq<byte>, dataLen: nat)
    requires base + |data| == |s| && s[base..] == data && dataLen <= |data|
    requires 0 <= sc.bytesDone <= dataLen && Covers(s, p, base + sc.bytesDone, sc) && sc.bytesLeft >= 0
    ensures var r := Advance(sc, data, dataLen);
      var m := sc.bytesLeft - r.bytesLeft;
      0 <= m && sc.bytesDone + m <= dataLen && r.bytesLeft >= 0 && Covers(s, p, base + sc.bytesDone + m, r)
      && (r.bytesLeft > 0 ==> sc.bytesDone + m == dataLen)
  {
    hide Fold, Covers;
    var m := if sc.bytesLeft > dataLen - sc.bytesDone then dataLen - sc.bytesDone else sc.bytesLeft;
    SliceOfTail(s, base, sc.bytesDone, sc.bytesDone + m);
    CoversMore(s, p, base + sc.bytesDone, base + sc.bytesDone + m, sc);
  }

  /** A scan whose header reaches beyond the end of what is looked at keeps count of the bytes
      left, but its checksum has already taken the rest of the header's first 26 bytes. */
  lemma AheadOfPiece(s: seq<byte>, base: nat, p: nat, sc: Scan, data: seq<byte>, dataLen: nat)
    requires Covers(s, p, p + 26, sc) && base + sc.bytesDone == p + 26 && base + dataLen < p + 26 && dataLen <= |data|
    ensures var r := Advance(sc, data, dataLen);
      && r.bytesLeft == p + PageLength(s, p) - (base + dataLen) > 0
      && r.crcSoFar == Fold(Zeros(32), Zeroed(s, p, p + 26))
  {
    hide Fold;
  }

  /** The next piece brings those bytes again, and they are folded in a second time, the checksum
      field as it stands: what comes out is the checksum of other bytes than the page's. */
  lemma FoldedTwice(s: seq<byte>, t: seq<byte>, p: nat, stop: nat, sc: Scan, more: seq<byte>, m: nat)
    requires s <= t && PatternAt(s, p) && HeaderIn(s, p) && stop < p + 26 <= stop + m <= |t| && stop <= |s|
    requires sc.crcSoFar == Fold(Zeros(32), Zeroed(s, p, p + 26)) && sc.bytesDone == 0 && m <= sc.bytesLeft
    requires more == t[stop..] && stop + m == |t|
    ensures Advance(sc, more, |more|).crcSoFar ==
      Fold(Zeros(32), Zeroed(t, p, p + 26) + t[stop..p + 26] + t[p + 26..stop + m])
  {
    hide Fold, PageLength;
    assert Zeroed(t, p, p + 26) == Zeroed(s, p, p + 26);
    assert more[0..m] == t[stop..p + 26] + t[p + 26..stop + m];
    FoldAppend(Zeros(32), Zeroed(s, p, p + 26), more[0..m]);
    assert Zeroed(t, p, p + 26) + t[stop..p + 26] + t[p + 26..stop + m] == Zeroed(s, p, p + 26) + more[0..m];
  }

  lemma CoversBehind(s: seq<byte>, p: nat, pos: nat, sc: Scan)
    requires Covers(s, p, pos, sc)
    ensures p + 26 <= pos
  {
  }

  /** There is a good page at p, and it ends by limit. */
  ghost predicate EndsBy(s: seq<byte>, p: nat, limit: nat) {
    GoodPage(s, p) && p + PageLength(s, p) <= limit
  }

  lemma Finished(s: seq<byte>, p: nat, pos: nat, sc: Scan)
    requires Covers(s, p, pos, sc)
    ensures p + 26 <= pos
    ensures sc.bytesLeft == 0 && sc.crcSoFar == sc.goalCrc ==> PageEnds(s, pos)
    ensures sc.bytesLeft == 0 ==> forall limit: nat :: pos <= limit ==> (EndsBy(s, p, limit) <==> sc.crcSoFar == sc.goalCrc)
  {
    hide PageEnds, Fold, PageLength, GoodPage;
    if sc.bytesLeft == 0 {
      CoversPage(s, p, pos, sc);
    }
  }

  /** A page of which bytes are left behind pos does not end by pos. */
  lemma NotYet(s: seq<byte>, p: nat, pos: nat, sc: Scan)
    requires Covers(s, p, pos, sc) && sc.bytesLeft > 0
    ensures forall limit: nat :: limit <= pos ==> !EndsBy(s, p, limit)
  {
    hide Fold, PageLength;
  }

  /** A scan that stands within the piece ends at its page's end, where its checksum decides, or
      at the end of the piece. */
  lemma Advanced(s: seq<byte>, base: nat, p: nat, sc: Scan, data: seq<byte>, dataLen: nat)
    requires base + |data| == |s| && s[base..] == data && dataLen <= |data|
    requires sc.bytesDone >= 0 && sc.bytesLeft > 0 && Covers(s, p, base + sc.bytesDone, sc)
    ensures var r := Advance(sc, data, dataLen);
      var m := sc.bytesLeft - r.bytesLeft;
      && 0 <= sc.bytesDone + m <= dataLen
      && (r.bytesLeft == 0 ==> p + 26 <= base + dataLen && (r.crcSoFar == r.goalCrc ==> PageEnds(s, base + sc.bytesDone + m)))
      && (r.bytesLeft != 0 && sc.bytesDone <= dataLen ==> r.bytesLeft > 0 && Covers(s, p, base + dataLen, r))
      && (r.bytesLeft == 0 && r.crcSoFar == r.goalCrc <==> EndsBy(s, p, base + dataLen))
  {
    hide Covers, PageEnds, Fold, Advance, EndsBy;
    CoversBehind(s, p, base + sc.bytesDone, sc);
    AdvanceCounts(sc, data, dataLen);
    if sc.bytesDone <= dataLen {
      AdvanceCovers(s, base, p, sc, data, dataLen);
      var r := Advance(sc, data, dataLen);
      Finished(s, p, base + sc.bytesDone + (sc.bytesLeft - r.bytesLeft), r);
      if r.bytesLeft > 0 {
        NotYet(s, p, base + dataLen, r);
      }
    } else {
      NotYet(s, p, base + sc.bytesDone, sc);
    }
  }

  lemma AdvanceCounts(sc: Scan, data: seq<byte>, dataLen: nat)
    requires 0 <= sc.bytesDone && dataLen <= |data| && sc.bytesLeft > 0
    ensures var r := Advance(sc, data, dataLen);
      && 0 <= sc.bytesDone + (sc.bytesLeft - r.bytesLeft) <= dataLen
      && (r.bytesLeft == 0 ==> sc.bytesDone <= dataLen)
  {
    hide Fold;
  }

  // ---------------------------------------------------------------- candidates in a piece

  /** The candidate's whole header lies before the last three bytes of the piece. */
  predicate HeaderReady(data: seq<byte>, i: nat) {
    i + 26 < |data| - 3 && i + 27 + data[i + 26] < |data| - 3
  }

  /** How many capture patterns begin before i. */
  function Patterns(data: seq<byte>, i: nat): (n: nat) {
    if i == 0 then 0 else Patterns(data, i - 1) + if PatternAt(data, i - 1) then 1 else 0
  }

  /** The search for candidates, with room for so many, stops at e because its header is not there. */
  ghost predicate StopsAt(data: seq<byte>, e: nat, room: nat) {
    && PatternAt(data, e) && !HeaderReady(data, e) && Patterns(data, e) < room
    && forall b: nat :: b < e && PatternAt(data, b) ==> HeaderReady(data, b)
  }

  /** Up to where the piece is looked at. */
  ghost function Looked(data: seq<byte>, room: nat): (end: nat)
    ensures end <= |data|
  {
    if room == 0 then |data|
    else if |data| < 4 then 0
    else if e: nat :| StopsAt(data, e, room) then e
    else |data| - 3
  }

  /** The candidate at b is begun: it is one of the first so many, and no header up to it is missing. */
  ghost predicate Begins(data: seq<byte>, b: nat, room: nat) {
    && PatternAt(data, b) && Patterns(data, b) < room
    && forall c: nat :: c <= b && PatternAt(data, c) ==> HeaderReady(data, c)
  }

  /** One of these candidates, or one begun in this piece, is a good page that ends within what is
      looked at. */
  ghost predicate Finds(s: seq<byte>, starts: seq<nat>, base: nat, data: seq<byte>, room: nat) {
    || (exists p :: p in starts && EndsBy(s, p, base + Looked(data, room)))
    || (exists b: nat :: Begins(data, b, room) && EndsBy(s, base + b, base + Looked(data, room)))
  }

  /** It stops inside the first 26 bytes of a candidate that was begun. */
  ghost predicate Crowded(data: seq<byte>, room: nat) {
    exists b: nat, e: nat :: b < e < b + 26 && PatternAt(data, b) && StopsAt(data, e, room)
  }

  lemma {:induction false} PatternsGrow(data: seq<byte>, i: nat, j: nat)
    requires i <= j
    ensures Patterns(data, i) <= Patterns(data, j)
    ensures (forall b: nat :: i <= b < j ==> !PatternAt(data, b)) ==> Patterns(data, i) == Patterns(data, j)
    decreases j - i
  {
    if i < j {
      PatternsGrow(data, i, j - 1);
    }
  }

  /** The search stops at one place at most. */
  lemma StopsOnce(data: seq<byte>, e: nat, i: nat, room: nat)
    requires StopsAt(data, e, room) && PatternAt(data, i) && !HeaderReady(data, i)
    requires forall b: nat :: b < i && PatternAt(data, b) ==> HeaderReady(data, b)
    ensures e == i
  {
  }

  /** Patterns at a distance never crowd. */
  lemma DistanceSuffices(data: seq<byte>, room: nat)
    requires forall b: nat, e: nat :: b < e && PatternAt(data, b) && PatternAt(data, e) ==> b + 26 <= e
    ensures !Crowded(data, room)
  {
  }

  // ---------------------------------------------------------------- scans under way

  /** A scan stands where its bytesDone says: an old one at the start of the piece, a new one
      behind its checksum field, and if all stand within, not beyond dataLen. */
  ghost predicate Still(s: seq<byte>, p: nat, base: nat, sc: Scan, dataLen: nat, within: bool) {
    && sc.bytesDone >= 0 && Covers(s, p, base + sc.bytesDone, sc) && sc.bytesLeft > 0
    && (sc.bytesDone == 0 || base + sc.bytesDone == p + 26)
    && (within ==> sc.bytesDone <= dataLen)
  }

  /** A scan has been carried on to dataLen, if it stood within. */
  ghost predicate Carried(s: seq<byte>, p: nat, base: nat, sc: Scan, dataLen: nat, within: bool) {
    within ==> Covers(s, p, base + dataLen, sc) && sc.bytesLeft > 0
  }

  lemma StillAnyway(s: seq<byte>, p: nat, base: nat, sc: Scan, dataLen: nat, within: bool)
    requires Still(s, p, base, sc, dataLen, within)
    ensures Still(s, p, base, sc, dataLen, false) && (within ==> sc.bytesDone <= dataLen)
  {
    hide Covers;
  }

  // ---------------------------------------------------------------- the search

  class Search {
    const crcTable: array<Word>
    const scan: array<Scan>

    /** How many scans are going on; -1 once a page was found. */
    var tests: int

    // everything presented so far, how much of it was consumed, and where the scanned pages start
    ghost var known: seq<byte>
    ghost var base: nat
    ghost var starts: seq<nat>

    ghost predicate Shape()
      reads this, crcTable, scan
    {
      IsTable(crcTable) && scan.Length == SCANS && -1 <= tests <= SCANS && base <= |known|
      && (tests >= 0 ==> |starts| == tests)
    }

    /** Every scan has covered its page up to the consumed position and is not at its end. */
    ghost predicate Valid()
      reads this, crcTable, scan
    {
      Shape() && forall i :: 0 <= i < tests ==> Covers(known, starts[i], base, scan[i]) && scan[i].bytesLeft > 0
    }

    constructor (crcTable: array<Word>)
      requires IsTable(crcTable)
      ensures Valid() && tests == 0 && known == [] && base == 0 && fresh(scan) && this.crcTable == crcTable
    {
      this.crcTable := crcTable;
      scan := new Scan[SCANS](_ => Scan(0, Zeros(32), Zeros(32), 0));
      tests, known, base, starts := 0, [], 0, [];
    }

    /** Every scan, old or new, stands where its bytesDone says: an old one at the start of the
        piece, a new one behind its checksum field. */
    ghost predicate Placed(lo: int)
      reads this, crcTable, scan
    {
      Shape() && tests >= 0
      && forall i :: 0 <= i < tests && lo <= i ==>
           && scan[i].bytesDone >= 0 && Covers(known, starts[i], base + scan[i].bytesDone, scan[i]) && scan[i].bytesLeft > 0
           && (scan[i].bytesDone == 0 || base + scan[i].bytesDone == starts[i] + 26)
    }

    /** Looks at one more piece of the stream, which starts with whatever was not consumed before.
        A page is found if and only if one that was begun is whole within what is looked at and its
        checksum is right, and the bytes up to a good page's end are then consumed. Otherwise every scan has covered exactly what was consumed, if and only
        if the search for candidates did not stop inside the header of one already begun. */
    method SearchForPage(data: seq<byte>) returns (consumed: nat)
      requires Valid() && tests >= 0 && known <= known[..base] + data
      modifies this`tests, this`known, this`base, this`starts, scan
      ensures known == old(known)[..old(base)] + data
      ensures Shape() && consumed <= |data| && base == old(base) + consumed
      ensures tests == -1 ==> PageEnds(known, base)
      ensures tests == -1 <==> Finds(known, old(starts), old(base), data, 4 - old(tests))
      ensures tests >= 0 ==> (Valid() <==> !Crowded(data, 4 - old(tests)))
    {
      hide Covers, GoodPage, PageEnds, Advance, IsTable, StopsAt, PatternAt, EndsBy, Begins, Looked, Finds;
      ghost var was := known;
      ghost var begun: seq<nat> := [];
      known := known[..base] + data;
      assert known[base..] == data;
      Restart(was);
      var dataLen := |data|;
      NoRoom(data);
      if tests < SCANS {
        if dataLen < 4 {
          NothingEnds();
          FindsNone(known, starts, base, data, SCANS - tests);
          return 0;
        }
        dataLen, begun := FindCandidates(data);
      }
      FindsAmong(known, old(starts), starts, base, data, SCANS - old(tests), begun);
      consumed := CarryOn(data, dataLen);
    }

    /** Scans from earlier pieces go on at the start of this one. */
    method Restart(ghost was: seq<byte>)
      requires Shape() && tests >= 0 && was <= known
      requires forall i :: 0 <= i < tests ==> Covers(was, starts[i], base, scan[i]) && scan[i].bytesLeft > 0
      modifies scan
      ensures Placed(0) && Valid() && forall i :: 0 <= i < tests ==> scan[i].bytesDone == 0
    {
      hide Covers, IsTable;
      var i := 0;
      while i < tests
        invariant 0 <= i <= tests && Shape()
        invariant forall k :: 0 <= k < i ==> Covers(known, starts[k], base, scan[k]) && scan[k].bytesLeft > 0 && scan[k].bytesDone == 0
        invariant forall k :: i <= k < tests ==> Covers(was, starts[k], base, scan[k]) && scan[k].bytesLeft > 0
      {
        CoversLater(was, known, starts[i], base, scan[i], 0);
        scan[i] := scan[i].(bytesDone := 0);
        i := i + 1;
      }
    }

    /** Starts a scan for every candidate whose header is there, while there is room for it. The
        search stops before a candidate whose header is not. */
    method FindCandidates(data: seq<byte>) returns (dataLen: nat, ghost begun: seq<nat>)
      requires Placed(0) && tests < SCANS && |data| >= 4
      requires base + |data| == |known| && known[base..] == data
      requires forall i :: 0 <= i < tests ==> scan[i].bytesDone == 0
      modifies this`tests, this`starts, scan
      ensures Placed(0) && dataLen <= |data|
      ensures NoneBeyond(dataLen) <==> !Crowded(data, SCANS - old(tests))
      ensures Opens(old(starts), starts, base, begun) && AllBegun(data, SCANS - old(tests), begun)
      ensures dataLen == Looked(data, SCANS - old(tests))
    {
      hide Covers, PageLength, IsTable, PatternAt, Begun, Crowded, StopsAt, Patterns, NoneBeyond, StandsBehind, HeaderIn, Opens, AllBegun, Looked;
      NothingBegun(data);
      dataLen := |data| - 3;
      var i := 0;
      ghost var first := tests;
      ghost var room := SCANS - tests;
      begun := [];
      NothingOpens(starts, base);
      NoneBehind();
      while i < dataLen
        invariant 0 <= i <= dataLen == |data| - 3
        invariant Placed(0) && tests < SCANS && first == old(tests) && StandsBehind(first, begun)
        invariant Begun(data, i, begun) && Opens(old(starts), starts, base, begun)
      {
        BehindLength(first, begun);
        PatternHere(data, i);
        BegunNext(data, i, begun);
        if data[i] == 0x4f && data[i..i + 4] == PATTERN {
          if i + 26 >= dataLen || i + 27 + data[i + 26] >= dataLen {
            StopsHere(data, i, begun, room);
            WithinIs(first, begun, i);
            dataLen := i;
            return;
          }
          ReadyIn(data, i);
          Begin(data, i, first, begun);
          OpensMore(old(starts), starts[..|starts| - 1], base, begun, i);
          begun := begun + [i];
          if tests == SCANS {
            BehindLength(first, begun);
            GoesOn(data, i + 1, begun, room);
            WithinIs(first, begun, dataLen);
            return;
          }
        }
        i := i + 1;
      }
      BehindLength(first, begun);
      GoesOn(data, i, begun, room);
      WithinIs(first, begun, dataLen);
    }

    /** Scans from first on stand behind the checksum fields of the candidates begun, the others at
        the start of the piece. */
    ghost predicate StandsBehind(first: int, begun: seq<nat>)
      reads this, scan
    {
      && scan.Length == SCANS && 0 <= first && tests == first + |begun| <= SCANS
      && (forall k :: 0 <= k < first ==> scan[k].bytesDone == 0)
      && (forall k :: first <= k < tests ==> scan[k].bytesDone == begun[k - first] + 26)
    }

    lemma NoneBehind()
      requires scan.Length == SCANS && 0 <= tests <= SCANS && forall k :: 0 <= k < tests ==> scan[k].bytesDone == 0
      ensures StandsBehind(tests, [])
    {
    }

    lemma BehindLength(first: int, begun: seq<nat>)
      requires StandsBehind(first, begun)
      ensures tests == first + |begun|
    {
    }

    lemma WithinIs(first: int, begun: seq<nat>, dataLen: nat)
      requires StandsBehind(first, begun)
      ensures NoneBeyond(dataLen) <==> forall k :: 0 <= k < |begun| ==> begun[k] + 26 <= dataLen
    {
      if NoneBeyond(dataLen) {
        forall k | 0 <= k < |begun| ensures begun[k] + 26 <= dataLen {
          assert scan[first + k].bytesDone == begun[k] + 26;
        }
      }
    }

    /** Starts the scan of the candidate at i: everything up to the checksum field's end. */
    method Begin(data: seq<byte>, i: nat, ghost first: int, ghost begun: seq<nat>)
      requires Placed(0) && tests < SCANS && PatternAt(data, i) && HeaderIn(data, i) && StandsBehind(first, begun)
      requires base + |data| == |known| && known[base..] == data
      modifies this`tests, this`starts, scan
      ensures Placed(0) && tests == old(tests) + 1 && scan[old(tests)].bytesDone == i + 26
      ensures starts == old(starts) + [base + i]
      ensures forall k :: 0 <= k < old(tests) ==> scan[k] == old(scan[k])
      ensures StandsBehind(first, begun + [i])
    {
      hide Covers, Word32, Fold, Zeroed, PageLength, IsTable, PatternAt, Zeros;
      var len := MeasurePage(data, i);
      var crc := FirstBytes(data, i);
      var goal := Word32(data[i + 22], data[i + 23], data[i + 24], data[i + 25]);
      var n := tests;
      tests := tests + 1;
      scan[n] := Scan(len - 26, crc, goal, i + 26);
      starts := starts + [base + i];
      BeginCovers(known, base, data, i, scan[n]);
    }

    /** The checksum over the header's first 22 bytes and four zero bytes. */
    method FirstBytes(data: seq<byte>, i: nat) returns (crc: Word)
      requires IsTable(crcTable) && i + 26 <= |data|
      ensures crc == Fold(Zeros(32), Zeroed(data, i, i + 26))
    {
      hide Fold, Mixed, Zeroed, IsTable, FeedAll, Bits;
      crc := Zeros(32);
      FoldNone(crc, Zeroed(data, i, i));
      var j := 0;
      while j < 26
        invariant 0 <= j <= 26
        invariant crc == Fold(Zeros(32), Zeroed(data, i, i + j))
      {
        var b: byte := if j < 22 then data[i + j] else 0;
        ZeroedStep(data, i, j);
        FoldMore(Zeros(32), Zeroed(data, i, i + j), b);
        crc := Crc32Update(crcTable, crc, b);
        j := j + 1;
      }
    }

    /** No scan stands beyond the end of what is looked at. */
    ghost predicate NoneBeyond(dataLen: nat)
      reads this, scan
    {
      scan.Length == SCANS && tests <= SCANS && forall i :: 0 <= i < tests ==> scan[i].bytesDone <= dataLen
    }

    /** Scans before lo are carried on to dataLen, those from hi on not yet. Either all stand within,
        or the scan of the page at lost reaches beyond. */
    ghost predicate CarriedTo(lo: int, hi: int, dataLen: nat, within: bool, lost: nat)
      reads this, crcTable, scan
    {
      && Shape() && tests >= 0 && 0 <= lo <= hi && lo <= tests
      && (forall k :: 0 <= k < lo ==> Carried(known, starts[k], base, scan[k], dataLen, within))
      && (forall k :: hi <= k < tests ==> Still(known, starts[k], base, scan[k], dataLen, within))
      && (!within ==> lost in starts && lost + 26 > base + dataLen)
    }

    /** Carries every scan on over this piece. A finished scan either finds its page or is dropped. */
    method CarryOn(data: seq<byte>, dataLen: nat) returns (consumed: nat)
      requires Placed(0) && dataLen <= |data|
      requires base + |data| == |known| && known[base..] == data
      modifies this`tests, this`starts, this`base, scan
      ensures Shape() && consumed <= |data| && base == old(base) + consumed
      ensures tests == -1 ==> PageEnds(known, base)
      ensures tests == -1 <==> exists p :: p in old(starts) && EndsBy(known, p, old(base) + dataLen)
      ensures tests >= 0 ==> (Valid() <==> old(NoneBeyond(dataLen)))
    {
      hide Covers, PageEnds, GoodPage, Advance, PageLength, IsTable, NoneBeyond, HeaderIn, PatternAt, EndsBy, Searched;
      AllToSearch(known, starts, base + dataLen);
      ghost var lost := Beyond(dataLen);
      ghost var within := NoneBeyond(dataLen);
      var i := 0;
      while i < tests
        invariant CarriedTo(i, i, dataLen, within, lost) && base == old(base)
        invariant Searched(known, old(starts), starts, i, base + dataLen)
        decreases tests - i
      {
        var before := tests;
        SearchedNext(known, old(starts), starts, i, base + dataLen);
        var found, end := CarryNext(data, dataLen, i, within, lost);
        if found {
          base := base + end;
          tests := -1;
          return end;
        }
        if tests == before {
          i := i + 1;
        }
      }
      NothingFound(known, old(starts), starts, i, base + dataLen);
      base := base + dataLen;
      consumed := dataLen;
      if !within {
        LostNotCovered();
      }
    }

    /** Carries scan i on; finished, it is found good or dropped. */
    method CarryNext(data: seq<byte>, dataLen: nat, i: nat, ghost within: bool, ghost lost: nat) returns (found: bool, end: nat)
      requires CarriedTo(i, i, dataLen, within, lost) && i < tests && dataLen <= |data|
      requires base + |data| == |known| && known[base..] == data
      modifies this`tests, this`starts, scan
      ensures found ==> Shape() && end <= dataLen && PageEnds(known, base + end)
      ensures found <==> EndsBy(known, old(starts)[i], base + dataLen)
      ensures !found ==> starts == if tests == old(tests) then old(starts) else Without(old(starts), i)
      ensures !found ==> tests == old(tests) || tests == old(tests) - 1
      ensures !found ==> var next := if tests == old(tests) then i + 1 else i; CarriedTo(next, next, dataLen, within, lost)
    {
      hide Covers, PageEnds, GoodPage, Advance, PageLength, IsTable, HeaderIn, PatternAt, Still, EndsBy;
      found, end := false, 0;
      var n := scan[i].bytesDone;
      assert Still(known, starts[i], base, scan[i], dataLen, within);
      StillAnyway(known, starts[i], base, scan[i], dataLen, within);
      var m := CarryScan(data, dataLen, i);
      if scan[i].bytesLeft == 0 {
        if scan[i].crcSoFar == scan[i].goalCrc {
          return true, n + m;
        }
        Drop(i, dataLen, within, lost);
      }
    }

    /** Either all scans stand within what is looked at, or one's header reaches beyond. */
    lemma Beyond(dataLen: nat) returns (lost: nat)
      requires Placed(0)
      ensures CarriedTo(0, 0, dataLen, NoneBeyond(dataLen), lost)
    {
      hide Covers;
      lost := 0;
      if !NoneBeyond(dataLen) {
        var k :| 0 <= k < tests && scan[k].bytesDone > dataLen;
        lost := starts[k];
      }
    }

    /** No scan under way is of a page that ends by what is consumed. */
    lemma NothingEnds()
      requires Valid()
      ensures forall p :: p in starts && tests >= 0 ==> !EndsBy(known, p, base)
    {
      hide Covers, EndsBy;
      forall i | 0 <= i < tests ensures !EndsBy(known, starts[i], base) {
        NotYet(known, starts[i], base, scan[i]);
      }
    }

    /** A scan whose header is not consumed has not covered what is consumed. */
    lemma LostNotCovered()
      requires Shape() && tests >= 0 && exists p :: p in starts && p + 26 > base
      ensures !Valid()
    {
      var p :| p in starts && p + 26 > base;
      var k :| 0 <= k < |starts| && starts[k] == p;
    }

    /** The last scan takes the place of a finished one. */
    method Drop(i: nat, ghost dataLen: nat, ghost within: bool, ghost lost: nat)
      requires CarriedTo(i, i + 1, dataLen, within, lost) && i < tests && starts[i] + 26 <= base + dataLen
      modifies this`tests, this`starts, scan
      ensures CarriedTo(i, i, dataLen, within, lost) && tests == old(tests) - 1 && starts == Without(old(starts), i)
    {
      hide IsTable, Covers, Still, Carried;
      ghost var was := starts;
      assert i < tests - 1 ==> Still(known, starts[tests - 1], base, scan[tests - 1], dataLen, within);
      scan[i] := scan[tests - 1];
      starts := starts[i := starts[tests - 1]][..tests - 1];
      tests := tests - 1;
      KeepsOther(was, starts, i, lost);
    }

    /** Carries one scan on. Standing within the piece, it ends at its page's end, where its
        checksum decides, or at the end of the piece; standing beyond, it does not end. */
    method CarryScan(data: seq<byte>, dataLen: nat, i: nat) returns (m: int)
      requires Shape() && i < tests && Still(known, starts[i], base, scan[i], dataLen, false) && dataLen <= |data|
      requires base + |data| == |known| && known[base..] == data
      modifies scan
      ensures forall k :: 0 <= k < scan.Length && k != i ==> scan[k] == old(scan[k])
      ensures 0 <= old(scan[i]).bytesDone + m <= dataLen
      ensures scan[i].bytesLeft == 0 ==> starts[i] + 26 <= base + dataLen
      ensures scan[i].bytesLeft == 0 && scan[i].crcSoFar == scan[i].goalCrc ==> PageEnds(known, base + old(scan[i]).bytesDone + m)
      ensures scan[i].bytesLeft != 0 && old(scan[i]).bytesDone <= dataLen ==>
        scan[i].bytesLeft > 0 && Covers(known, starts[i], base + dataLen, scan[i])
      ensures scan[i].bytesLeft == 0 && scan[i].crcSoFar == scan[i].goalCrc <==> EndsBy(known, starts[i], base + dataLen)
    {
      hide Covers, PageEnds, Advance, IsTable, NoneBeyond, HeaderIn, PatternAt, EndsBy;
      Advanced(known, base, starts[i], scan[i], data, dataLen);
      m := CarryOne(data, dataLen, i);
    }

    /** Carries one scan on and says by how many bytes. */
    method CarryOne(data: seq<byte>, dataLen: nat, i: nat) returns (m: int)
      requires Shape() && i < tests && dataLen <= |data| && scan[i].bytesDone >= 0
      modifies scan
      ensures scan[i] == Advance(old(scan[i]), data, dataLen)
      ensures forall k :: 0 <= k < scan.Length && k != i ==> scan[k] == old(scan[k])
      ensures m == old(scan[i]).bytesLeft - scan[i].bytesLeft
    {
      hide Fold, IsTable;
      var n := scan[i].bytesDone;
      m := scan[i].bytesLeft;
      if m > dataLen - n {
        m := dataLen - n;
      }
      var crc := scan[i].crcSoFar;
      if m >= 0 {
        crc := RunCrc(crc, data, n, m);
      }
      scan[i] := scan[i].(bytesLeft := scan[i].bytesLeft - m, crcSoFar := crc);
    }

    /** The checksum goes on over m bytes from n. */
    method RunCrc(first: Word, data: seq<byte>, n: nat, m: nat) returns (crc: Word)
      requires IsTable(crcTable) && n + m <= |data|
      ensures crc == Fold(first, data[n..n + m])
    {
      hide Fold, Mixed, IsTable, FeedAll, Bits;
      crc := first;
      FoldNone(crc, data[n..n]);
      var j := 0;
      while j < m
        invariant 0 <= j <= m
        invariant crc == Fold(first, data[n..n + j])
      {
        FoldMore(first, data[n..n + j], data[n + j]);
        assert data[n..n + j + 1] == data[n..n + j] + [data[n + j]];
        crc := Crc32Update(crcTable, crc, data[n + j]);
        j := j + 1;
      }
    }
  }

  // ---------------------------------------------------------------- what is still to be searched

  /** The candidates with the last one in the place of the i-th. */
  function Without(starts: seq<nat>, i: nat): (r: seq<nat>)
    requires i < |starts|
  {
    starts[i := starts[|starts| - 1]][..|starts| - 1]
  }

  /** A candidate of was that is a good page ending by limit is among those from lo on. */
  ghost predicate Searched(s: seq<byte>, was: seq<nat>, starts: seq<nat>, lo: nat, limit: nat) {
    && (forall k :: 0 <= k < |starts| ==> starts[k] in was)
    && (forall p :: p in was && EndsBy(s, p, limit) ==> exists k :: lo <= k < |starts| && starts[k] == p)
  }

  lemma AllToSearch(s: seq<byte>, starts: seq<nat>, limit: nat)
    ensures Searched(s, starts, starts, 0, limit)
  {
    hide EndsBy;
  }

  lemma NothingFound(s: seq<byte>, was: seq<nat>, starts: seq<nat>, lo: nat, limit: nat)
    requires Searched(s, was, starts, lo, limit) && lo >= |starts|
    ensures forall p :: p in was ==> !EndsBy(s, p, limit)
  {
    hide EndsBy;
  }

  lemma SearchedNext(s: seq<byte>, was: seq<nat>, starts: seq<nat>, i: nat, limit: nat)
    requires Searched(s, was, starts, i, limit) && i < |starts|
    ensures starts[i] in was
    ensures !EndsBy(s, starts[i], limit) ==> Searched(s, was, starts, i + 1, limit) && Searched(s, was, Without(starts, i), i, limit)
  {
    hide EndsBy;
    if !EndsBy(s, starts[i], limit) {
      var now := Without(starts, i);
      forall p | p in was && EndsBy(s, p, limit) ensures exists k :: i <= k < |now| && now[k] == p {
        var k :| i <= k < |starts| && starts[k] == p;
        assert now[if k == |starts| - 1 then i else k] == p;
      }
    }
  }

  /** The length of the page at i. */
  method MeasurePage(data: seq<byte>, i: nat) returns (len: nat)
    requires HeaderIn(data, i)
    ensures len == PageLength(data, i)
  {
    var segments: nat := data[i + 26];
    len := 27 + segments;
    var j := 0;
    while j < segments
      invariant 0 <= j <= segments
      invariant len == 27 + segments + Sum(data[i + 27..i + 27 + j])
    {
      SumMore(data[i + 27..i + 27 + j], data[i + 27 + j]);
      assert data[i + 27..i + 27 + (j + 1)] == data[i + 27..i + 27 + j] + [data[i + 27 + j]];
      len := len + data[i + 27 + j];
      j := j + 1;
    }
  }

  lemma FoldNone(crc: Word, s: seq<byte>)
    requires s == []
    ensures Fold(crc, s) == crc
  {
  }

  lemma FoldMore(crc: Word, s: seq<byte>, b: byte)
    ensures Fold(crc, s + [b]) == Mixed(Fold(crc, s), b)
  {
    hide Mixed;
    FoldAppend(crc, s, [b]);
    FoldOne(Fold(crc, s), b);
  }

  lemma FoldOne(crc: Word, b: byte)
    ensures Fold(crc, [b]) == Mixed(crc, b)
  {
    assert [b][1..] == [];
  }

  lemma ZeroedStep(s: seq<byte>, p: nat, j: nat)
    requires p + j < |s| && j < 26
    ensures Zeroed(s, p, p + j + 1) == Zeroed(s, p, p + j) + [if j < 22 then s[p + j] else 0]
  {
  }

  lemma BeginCovers(s: seq<byte>, base: nat, data: seq<byte>, i: nat, sc: Scan)
    requires base + |data| == |s| && s[base..] == data && PatternAt(data, i) && HeaderIn(data, i)
    requires sc.bytesLeft == PageLength(data, i) - 26 && sc.goalCrc == Goal(data, i)
    requires sc.crcSoFar == Fold(Zeros(32), Zeroed(data, i, i + 26))
    ensures Covers(s, base + i, base + i + 26, sc) && sc.bytesLeft > 0
  {
    hide Fold, Word32;
    var p := base + i;
    assert forall k :: 0 <= k < |data| ==> s[base + k] == data[k];
    assert s[p..p + 4] == data[i..i + 4];
    assert s[p + 26] == data[i + 26];
    assert s[p + 27..p + 27 + s[p + 26]] == data[i + 27..i + 27 + data[i + 26]];
    assert Zeroed(s, p, p + 26) == Zeroed(data, i, i + 26);
  }

  /** The patterns before i, all with their headers ready. */
  ghost predicate Begun(data: seq<byte>, i: nat, begun: seq<nat>) {
    && |begun| == Patterns(data, i)
    && (forall k :: 0 <= k < |begun| ==> begun[k] < i && PatternAt(data, begun[k]) && HeaderReady(data, begun[k]))
    && (forall b: nat :: b < i && PatternAt(data, b) ==> b in begun)
  }

  lemma ReadyIn(data: seq<byte>, i: nat)
    requires HeaderReady(data, i)
    ensures HeaderIn(data, i)
  {
  }

  lemma NothingBegun(data: seq<byte>)
    ensures Begun(data, 0, [])
  {
  }

  lemma PatternHere(data: seq<byte>, i: nat)
    requires i + 4 <= |data|
    ensures PatternAt(data, i) <==> data[i] == 0x4f && data[i..i + 4] == PATTERN
  {
    assert PATTERN[0] == 0x4f;
  }

  lemma BegunNext(data: seq<byte>, i: nat, begun: seq<nat>)
    requires Begun(data, i, begun)
    ensures !PatternAt(data, i) ==> Begun(data, i + 1, begun)
    ensures PatternAt(data, i) && HeaderReady(data, i) ==> Begun(data, i + 1, begun + [i])
  {
    hide PatternAt, HeaderReady;
    forall b: nat | b < i + 1 && PatternAt(data, b) ensures b in begun + [i] {
      if b == i {
        assert (begun + [i])[|begun|] == i;
      } else {
        assert b in begun;
      }
    }
  }

  /** Where the search stops, the piece is crowded exactly when a begun header reaches beyond. */
  lemma StopsHere(data: seq<byte>, i: nat, begun: seq<nat>, room: nat)
    requires Begun(data, i, begun) && PatternAt(data, i) && !HeaderReady(data, i) && |begun| < room
    ensures Crowded(data, room) <==> exists k :: 0 <= k < |begun| && begun[k] + 26 > i
    ensures AllBegun(data, room, begun) && Looked(data, room) == i
  {
    hide PatternAt, HeaderReady;
    assert StopsAt(data, i, room);
    BegunHere(data, i, begun, room);
    LookedTo(data, i, room);
    if Crowded(data, room) {
      var b: nat, e: nat :| b < e < b + 26 && PatternAt(data, b) && StopsAt(data, e, room);
      StopsOnce(data, e, i, room);
      assert b in begun;
    }
    if exists k :: 0 <= k < |begun| && begun[k] + 26 > i {
      var k :| 0 <= k < |begun| && begun[k] + 26 > i;
      assert begun[k] < i < begun[k] + 26;
    }
  }

  lemma LookedTo(data: seq<byte>, i: nat, room: nat)
    requires StopsAt(data, i, room) && room > 0
    ensures Looked(data, room) == i
  {
    hide HeaderReady;
    forall e: nat | StopsAt(data, e, room) ensures e == i {
      StopsOnce(data, e, i, room);
    }
  }

  /** Before the place where the search stops, all patterns are begun, and none behind it. */
  lemma BegunHere(data: seq<byte>, i: nat, begun: seq<nat>, room: nat)
    requires Begun(data, i, begun) && |begun| <= room
    requires (PatternAt(data, i) && !HeaderReady(data, i)) || |begun| == room || i >= |data| - 3
    ensures AllBegun(data, room, begun)
  {
    hide HeaderReady, Patterns;
    forall b: nat ensures b in begun <==> Begins(data, b, room) {
      if b in begun {
        FewerBefore(data, b, i);
      } else if b < i {
      } else {
        PatternsGrow(data, i, b);
      }
    }
  }

  lemma FewerBefore(data: seq<byte>, b: nat, i: nat)
    requires b < i && PatternAt(data, b)
    ensures Patterns(data, b) < Patterns(data, i)
  {
    hide PatternAt;
    PatternsGrow(data, b + 1, i);
  }

  /** Where the search does not stop, the piece is not crowded. */
  lemma GoesOn(data: seq<byte>, i: nat, begun: seq<nat>, room: nat)
    requires Begun(data, i, begun) && |data| >= 4 && |begun| <= room && (|begun| == room || i >= |data| - 3)
    ensures !Crowded(data, room) && AllBegun(data, room, begun)
    ensures room > 0 ==> Looked(data, room) == |data| - 3
    ensures forall k :: 0 <= k < |begun| ==> begun[k] + 26 <= |data| - 3
  {
    forall e: nat ensures !StopsAt(data, e, room) {
      PatternsGrow(data, i, if i <= e then e else i);
    }
    BegunHere(data, i, begun, room);
  }

  /** From below four bytes nothing is begun and nothing is looked at. */
  lemma FindsNone(s: seq<byte>, starts: seq<nat>, base: nat, data: seq<byte>, room: nat)
    requires |data| < 4 && room > 0 && forall p :: p in starts ==> !EndsBy(s, p, base)
    ensures !Finds(s, starts, base, data, room)
  {
    hide EndsBy;
  }

  /** The candidates after the search are those before and those begun. */
  ghost predicate Opens(was: seq<nat>, now: seq<nat>, base: nat, begun: seq<nat>) {
    |now| == |was| + |begun| && now[..|was|] == was && forall k :: 0 <= k < |begun| ==> now[|was| + k] == base + begun[k]
  }

  /** These are the candidates begun in the piece. */
  ghost predicate AllBegun(data: seq<byte>, room: nat, begun: seq<nat>) {
    forall b: nat :: b in begun <==> Begins(data, b, room)
  }

  lemma FindsAmong(s: seq<byte>, was: seq<nat>, now: seq<nat>, base: nat, data: seq<byte>, room: nat, begun: seq<nat>)
    requires Opens(was, now, base, begun) && AllBegun(data, room, begun)
    ensures Finds(s, was, base, data, room) <==> exists p :: p in now && EndsBy(s, p, base + Looked(data, room))
  {
    hide EndsBy, Begins, Looked;
    var limit := base + Looked(data, room);
    if Finds(s, was, base, data, room) {
      if p :| p in was && EndsBy(s, p, limit) {
        assert p in now[..|was|];
      } else {
        var b: nat :| Begins(data, b, room) && EndsBy(s, base + b, limit);
        var k :| 0 <= k < |begun| && begun[k] == b;
        assert now[|was| + k] == base + b;
      }
    }
    if p :| p in now && EndsBy(s, p, limit) {
      var k :| 0 <= k < |now| && now[k] == p;
      if k < |was| {
        assert p == now[..|was|][k] == was[k] && p in was;
      } else {
        assert p == base + begun[k - |was|] && begun[k - |was|] in begun;
      }
    }
  }

  lemma NoRoom(data: seq<byte>)
    ensures !Crowded(data, 0) && AllBegun(data, 0, []) && Looked(data, 0) == |data|
    ensures |data| < 4 ==> forall room: nat :: !Crowded(data, room)
  {
  }

  lemma NothingOpens(was: seq<nat>, base: nat)
    ensures Opens(was, was, base, [])
  {
  }

  lemma OpensMore(was: seq<nat>, now: seq<nat>, base: nat, begun: seq<nat>, i: nat)
    requires Opens(was, now, base, begun)
    ensures Opens(was, now + [base + i], base, begun + [i])
  {
  }

  lemma KeepsOther(was: seq<nat>, now: seq<nat>, i: nat, p: nat)
    requires i < |was| && now == was[i := was[|was| - 1]][..|was| - 1]
    ensures p in was && p != was[i] ==> p in now
  {
    if p in was && p != was[i] {
      var k :| 0 <= k < |was| && was[k] == p;
      assert now[if k == |was| - 1 then i else k] == p || (k == |was| - 1 && i == k);
    }
  }

  // ---------------------------------------------------------------- written pages

  /** The checksum field holds the word with its least significant byte first. */
  lemma GoalBytes(s: seq<byte>, p: nat)
    requires HeaderIn(s, p)
    ensures Goal(s, p) == Bits(s[p + 25], 8) + Bits(s[p + 24], 8) + Bits(s[p + 23], 8) + Bits(s[p + 22], 8)
  {
    WordOf(s[p + 22], s[p + 23], s[p + 24], s[p + 25]);
  }

  lemma WordOf(a: byte, b: byte, c: byte, d: byte)
    ensures Word32(a, b, c, d) == Bits(d, 8) + Bits(c, 8) + Bits(b, 8) + Bits(a, 8)
  {
    hide Bits, Value;
    var x, y := d as nat * 256 + c, (d as nat * 256 + c) * 256 + b;
    JoinByte(d, 8, c);
    JoinByte(x, 16, b);
    JoinByte(y, 24, a);
    assert Bits(d, 8) + Bits(c, 8) + Bits(b, 8) + Bits(a, 8) == Bits(y * 256 + a, 32);
  }

  lemma JoinByte(x: nat, k: nat, a: byte)
    ensures Bits(x * 256 + a, k + 8) == Bits(x, k) + Bits(a, 8)
  {
    hide Bits, Value;
    BitsJoin(x, k, Bits(a, 8));
    EightDoublings(x);
    EightDoublings(1);
    ValueBits(a, 8);
  }

  lemma EightDoublings(x: nat)
    ensures Doubled(x, 8) == x * 256
  {
    assert Doubled(x, 1) == 2 * Doubled(x, 0);
    assert Doubled(x, 2) == x * 4;
    assert Doubled(x, 4) == x * 16;
    assert Doubled(x, 6) == x * 64;
  }

  /** Bit k of the word a page asks for is bit k % 8 of the field's byte k / 8. */
  lemma GoalBit(s: seq<byte>, p: nat, k: nat)
    requires HeaderIn(s, p) && k < 32
    ensures Doubled(1, k % 8) > 0
    ensures Goal(s, p)[31 - k] <==> s[p + 22 + k / 8] as nat / Doubled(1, k % 8) % 2 == 1
  {
    hide Bits, Goal;
    GoalBytes(s, p);
    BitsAt(s[p + 22 + k / 8], 8, k % 8);
    assert k / 8 == 0 || k / 8 == 1 || k / 8 == 2 || k / 8 == 3;
  }

  /** The four bytes a writer stores a checksum in. */
  function FieldOf(w: Word): (f: seq<byte>)
    ensures |f| == 4
  {
    ValueBound(w[24..]);
    ValueBound(w[16..24]);
    ValueBound(w[8..16]);
    ValueBound(w[..8]);
    [Value(w[24..]), Value(w[16..24]), Value(w[8..16]), Value(w[..8])]
  }

  /** A whole page, whatever its checksum field holds. */
  predicate WholePage(page: seq<byte>) {
    PatternAt(page, 0) && HeaderIn(page, 0) && PageLength(page, 0) == |page|
  }

  /** The page as it is written: its checksum is taken with a zeroed field, and stored there. */
  function Sealed(page: seq<byte>): (s: seq<byte>)
    requires |page| >= 27
    ensures |s| == |page|
  {
    page[..22] + FieldOf(Checksum(Zeroed(page, 0, |page|))) + page[26..]
  }

  lemma GoalIsField(s: seq<byte>, p: nat, w: Word)
    requires HeaderIn(s, p)
    ensures Goal(s, p) == w <==> s[p + 22..p + 26] == FieldOf(w)
  {
    hide Bits, Value, Goal, PageLength;
    GoalBytes(s, p);
    var a, b, c, d := s[p + 22], s[p + 23], s[p + 24], s[p + 25];
    assert s[p + 22..p + 26] == [a, b, c, d];
    EightDoublings(1);
    ValueBits(a, 8);
    ValueBits(b, 8);
    ValueBits(c, 8);
    ValueBits(d, 8);
    BitsValue(w[24..]);
    BitsValue(w[16..24]);
    BitsValue(w[8..16]);
    BitsValue(w[..8]);
    var g := Bits(d, 8) + Bits(c, 8) + Bits(b, 8) + Bits(a, 8);
    assert g[24..] == Bits(a, 8) && g[16..24] == Bits(b, 8) && g[8..16] == Bits(c, 8) && g[..8] == Bits(d, 8);
    assert w == w[..8] + w[8..16] + w[16..24] + w[24..];
  }

  /** Exactly the pages as they are written are good. */
  lemma GoodIsSealed(page: seq<byte>)
    requires WholePage(page)
    ensures GoodPage(page, 0) <==> page == Sealed(page)
  {
    hide Checksum, Goal, PatternAt, PageLength, Zeroed, FieldOf;
    var w := Checksum(Zeroed(page, 0, |page|));
    GoalIsField(page, 0, w);
    assert page == page[..22] + page[22..26] + page[26..];
    if page == Sealed(page) {
      assert page[22..26] == FieldOf(w);
    }
  }

  /** Sealing touches neither what makes it a page nor what its checksum is taken of. */
  lemma SealedAgain(page: seq<byte>)
    requires WholePage(page)
    ensures WholePage(Sealed(page)) && Sealed(Sealed(page)) == Sealed(page)
  {
    hide Checksum, FieldOf;
    var s := Sealed(page);
    assert s[0..4] == page[0..4];
    assert s[26..] == page[26..];
    assert s[27..27 + s[26]] == s[26..][1..1 + s[26]] == page[26..][1..1 + s[26]] == page[27..27 + page[26]];
    assert Zeroed(s, 0, |s|) == Zeroed(page, 0, |page|);
  }

  /** A good page stays one when bytes follow. */
  lemma GoodWithMore(page: seq<byte>, more: seq<byte>)
    requires GoodPage(page, 0) && PageLength(page, 0) == |page|
    ensures GoodPage(page + more, 0) && PageLength(page + more, 0) == |page|
  {
    hide Checksum, Word32;
    var s := page + more;
    assert s[0..4] == page[0..4];
    assert s[27..27 + s[26]] == page[27..27 + page[26]];
    assert Zeroed(s, 0, |page|) == Zeroed(page, 0, |page|);
  }

  /** When a page is written, it and the four bytes behind it arrive together, and no capture pattern
      is inside it, the search finds it. */
  lemma SealedIsFound(page: seq<byte>, more: seq<byte>)
    requires WholePage(page) && |more| >= 4
    requires forall b: nat :: 0 < b < |page| ==> !PatternAt(Sealed(page) + more, b)
    ensures Finds(Sealed(page) + more, [], 0, Sealed(page) + more, SCANS)
  {
    hide PatternAt, PageLength, Sealed, GoodPage, EndsBy;
    var data := Sealed(page) + more;
    SealedAgain(page);
    GoodIsSealed(Sealed(page));
    GoodWithMore(Sealed(page), more);
    FirstBegins(Sealed(page), more);
    LookedBeyond(data, |page|, SCANS);
    EndsByIs(data, 0, Looked(data, SCANS));
    assert EndsBy(data, 0 + 0, 0 + Looked(data, SCANS));
  }

  lemma EndsByIs(s: seq<byte>, p: nat, limit: nat)
    requires GoodPage(s, p) && p + PageLength(s, p) <= limit
    ensures EndsBy(s, p, limit)
  {
  }

  lemma FirstBegins(page: seq<byte>, more: seq<byte>)
    requires WholePage(page) && |more| >= 4
    ensures Begins(page + more, 0, SCANS)
  {
    var data := page + more;
    assert data[0..4] == page[0..4];
    assert HeaderReady(data, 0);
  }

  /** Without a pattern inside the first n bytes, at least those are looked at. */
  lemma LookedBeyond(data: seq<byte>, n: nat, room: nat)
    requires n + 3 < |data| && room > 0 && HeaderReady(data, 0)
    requires forall b: nat :: 0 < b < n ==> !PatternAt(data, b)
    ensures Looked(data, room) >= n
  {
    hide PatternAt, HeaderReady;
  }

  /** The search at work on such a piece. */
  method FindsSealed(crcTable: array<Word>, page: seq<byte>, more: seq<byte>) returns (f: Search)
    requires IsTable(crcTable) && WholePage(page) && |more| >= 4
    requires forall b: nat :: 0 < b < |page| ==> !PatternAt(Sealed(page) + more, b)
    ensures f.tests == -1 && f.known == Sealed(page) + more && PageEnds(f.known, f.base)
  {
    hide Covers, PageEnds, Finds, Crowded, PatternAt, IsTable, Sealed;
    f := new Search(crcTable);
    SealedIsFound(page, more);
    var consumed := f.SearchForPage(Sealed(page) + more);
    assert [] + (Sealed(page) + more) == Sealed(page) + more;
  }

  // ---------------------------------------------------------------- a piece that crowds

  /** The first 35 bytes of a page whose serial number reads like a capture pattern. */
  const CROWDING: seq<byte> := [
    0x4f, 0x67, 0x67, 0x53, 0, 2, 0, 0, 0, 0, 0, 0, 0, 0,
    0x4f, 0x67, 0x67, 0x53, 0, 0, 0, 0, 0x11, 0x22, 0x33, 0x44,
    1, 200, 0, 0, 0, 0, 0, 0, 0]

  lemma CrowdingPatterns()
    ensures |CROWDING| == 35 && PatternAt(CROWDING, 0) && PatternAt(CROWDING, 14)
    ensures forall b: nat :: PatternAt(CROWDING, b) ==> b == 0 || b == 14
  {
    assert CROWDING[0..4] == PATTERN && CROWDING[14..18] == PATTERN;
    forall b: nat | PatternAt(CROWDING, b) ensures b == 0 || b == 14 {
      assert CROWDING[b] == CROWDING[b..b + 4][0] == 0x4f;
    }
  }

  lemma CrowdingCrowds()
    ensures Crowded(CROWDING, SCANS)
  {
    hide PatternAt;
    CrowdingPatterns();
    PatternsGrow(CROWDING, 1, 14);
    assert Patterns(CROWDING, 1) <= 1 by { FirstPattern(CROWDING); }
    assert HeaderReady(CROWDING, 0) && !HeaderReady(CROWDING, 14);
    assert StopsAt(CROWDING, 14, SCANS);
  }

  lemma FirstPattern(data: seq<byte>)
    ensures Patterns(data, 1) <= 1
  {
    assert Patterns(data, 0) == 0;
  }

  lemma CrowdingLength()
    ensures HeaderIn(CROWDING, 0) && PageLength(CROWDING, 0) == 228 && !HeaderIn(CROWDING, 14)
  {
    var table := CROWDING[27..28];
    assert table == [200] && table[1..] == [];
    assert Sum(table) == 200 + Sum([]);
  }

  lemma CrowdingNoPage(end: nat)
    ensures !PageEnds(CROWDING, end)
  {
    hide PatternAt, HeaderIn, PageLength, Checksum, Goal, Zeroed;
    CrowdingPatterns();
    CrowdingLength();
  }

  /** A search that is shown those bytes first loses its place: its scan has not covered exactly
      what was consumed, though the piece is the beginning of a page. */
  method LosesItsPlace(crcTable: array<Word>) returns (f: Search)
    requires IsTable(crcTable)
    ensures f.tests >= 0 && !f.Valid() && f.known == CROWDING
  {
    hide CROWDING, Covers, PageEnds, Crowded, PatternAt, IsTable;
    f := new Search(crcTable);
    CrowdingCrowds();
    var consumed := f.SearchForPage(CROWDING);
    assert [] + CROWDING == CROWDING;
    CrowdingNoPage(f.base);
  }
}
