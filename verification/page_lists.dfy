/** The page list of a bulk transfer: runs of neighbouring pages packed into single words. */
module PageLists {
  import opened Basics
  import opened Bits

  const PAGE_SIZE: nat := 4096
  const WORD: nat := 0x1_0000_0000

  /** A 32-bit bus address of a page. */
  predicate IsPage(a: nat) {
    a < WORD && a % PAGE_SIZE == 0
  }

  predicate AllPages(pages: seq<nat>) {
    forall i :: 0 <= i < |pages| ==> IsPage(pages[i])
  }

  /** Pointers hold addresses below this: 2^32 on a 32-bit build, 2^64 on a 64-bit one. */
  predicate PointerSpace(space: nat) {
    space >= WORD
  }

  /** The page behind page a; pointers wrap around. */
  function NextPage(a: nat, space: nat): (b: nat)
    requires PointerSpace(space)
  {
    (a + PAGE_SIZE) % space
  }

  /** The page the word starts with, and how many follow it: the low 12 bits. */
  function BaseOf(word: nat): (a: nat) {
    word - word % PAGE_SIZE
  }

  function FollowersOf(word: nat): (n: nat) {
    word % PAGE_SIZE
  }

  /** n + 1 neighbouring pages from a. */
  function Neighbours(a: nat, n: nat, space: nat): (pages: seq<nat>)
    requires PointerSpace(space)
    ensures |pages| == n + 1 && pages[0] == a
    decreases n
  {
    if n == 0 then [a] else Neighbours(a, n - 1, space) + [NextPage(Neighbours(a, n - 1, space)[n - 1], space)]
  }

  /** The i-th of them lies i times 4096 bytes behind the first. */
  lemma {:induction false} NeighbourAt(a: nat, n: nat, space: nat, i: nat)
    requires PointerSpace(space) && i <= n && a < space
    ensures Neighbours(a, n, space)[i] == (a + 4096 * i) % space
  {
    if i < n {
      NeighbourAt(a, n - 1, space, i);
    } else if n > 0 {
      NeighbourAt(a, n - 1, space, n - 1);
      hide Neighbours;
      NeighboursStep(a, n, space);
      AddWraps(a + 4096 * (n - 1), 4096, space);
    } else {
      DivModUnique(a, space, 0, a);
    }
  }

  lemma NeighboursStep(a: nat, n: nat, space: nat)
    requires PointerSpace(space) && n > 0
    ensures Neighbours(a, n, space)[n] == (Neighbours(a, n - 1, space)[n - 1] + PAGE_SIZE) % space
  {
  }

  lemma AddWraps(x: nat, y: nat, space: nat)
    requires space > 0
    ensures (x % space + y) % space == (x + y) % space
  {
    var z := x % space + y;
    DivMod(x, space);
    DivMod(z, space);
    assert x + y == (x / space + z / space) * space + z % space;
    DivModUnique(x + y, space, x / space + z / space, z % space);
  }

  predicate AllWords(addrs: seq<nat>) {
    forall i :: 0 <= i < |addrs| ==> addrs[i] < WORD
  }

  /** The pages a list of words stands for, as the peer reads it. */
  function Expand(addrs: seq<nat>, space: nat): (pages: seq<nat>)
    requires PointerSpace(space)
  {
    if |addrs| == 0 then []
    else Expand(addrs[..|addrs| - 1], space) + ExpandWord(addrs[|addrs| - 1], space)
  }

  function ExpandWord(word: nat, space: nat): (pages: seq<nat>)
    requires PointerSpace(space)
    ensures |pages| == FollowersOf(word) + 1
  {
    Neighbours(BaseOf(word), FollowersOf(word), space)
  }

  /** A page address and a count below the page size share a word without mixing. */
  lemma PackedWord(a: nat, run: nat)
    requires IsPage(a) && run < PAGE_SIZE
    ensures a + run < WORD && BaseOf(a + run) == a && FollowersOf(a + run) == run
  {
  }

  lemma ExpandMore(addrs: seq<nat>, a: nat, run: nat, space: nat)
    requires PointerSpace(space) && AllWords(addrs) && IsPage(a) && run < PAGE_SIZE
    ensures a + run < WORD && AllWords(addrs + [a + run])
    ensures Expand(addrs + [a + run], space) == Expand(addrs, space) + Neighbours(a, run, space)
  {
    hide Neighbours, BaseOf, FollowersOf, IsPage;
    PackedWord(a, run);
    assert (addrs + [a + run])[..|addrs|] == addrs;
  }

  /** Runs end only where the pages do, or where a run is full. */
  predicate Maximal(addrs: seq<nat>, space: nat)
    requires PointerSpace(space)
  {
    forall i :: 0 <= i < |addrs| - 1 ==> EndsRun(addrs[i], addrs[i + 1], space)
  }

  predicate EndsRun(word: nat, next: nat, space: nat)
    requires PointerSpace(space)
  {
    FollowersOf(word) == PAGE_SIZE - 1
    || BaseOf(next) != NextPage(ExpandWord(word, space)[FollowersOf(word)], space)
  }

  /** Groups the pages into runs of contiguous pages. */
  method GroupPages(pages: seq<nat>, space: nat) returns (addrs: seq<nat>)
    requires PointerSpace(space) && |pages| > 0 && AllPages(pages)
    ensures AllWords(addrs) && Expand(addrs, space) == pages
    ensures Maximal(addrs, space) && 1 <= |addrs| <= |pages|
  {
    hide Expand, Neighbours, IsPage, NextPage, EndsRun;
    addrs := [];
    var baseAddr: nat, run: nat := pages[0], 0;
    var nextAddr: nat := NextPage(baseAddr, space);
    OnePage(baseAddr, space);
    NothingExpanded(space);
    var i := 1;
    while i < |pages|
      invariant 1 <= i <= |pages| && IsPage(baseAddr) && run < PAGE_SIZE
      invariant AllWords(addrs) && |addrs| + run < i
      invariant Expand(addrs, space) + Neighbours(baseAddr, run, space) == pages[..i]
      invariant nextAddr == NextPage(Neighbours(baseAddr, run, space)[run], space)
      invariant Maximal(addrs, space)
      invariant |addrs| > 0 ==> RunBefore(addrs[|addrs| - 1], baseAddr, space)
    {
      var addr := pages[i];
      assert pages[..i + 1] == pages[..i] + [addr];
      if addr == nextAddr && run < PAGE_SIZE - 1 {
        OneMore(baseAddr, run, space);
        assert Expand(addrs, space) + (Neighbours(baseAddr, run, space) + [addr]) == pages[..i] + [addr];
        nextAddr := NextPage(nextAddr, space);
        run := run + 1;
      } else {
        ExpandMore(addrs, baseAddr, run, space);
        PackedWord(baseAddr, run);
        RunEnds(addrs, baseAddr, run, addr, space);
        OnePage(addr, space);
        addrs := addrs + [baseAddr + run];
        baseAddr := addr;
        nextAddr := NextPage(addr, space);
        run := 0;
      }
      i := i + 1;
    }
    ExpandMore(addrs, baseAddr, run, space);
    LastRun(addrs, baseAddr, run, space);
    addrs := addrs + [baseAddr + run];
    assert pages[..i] == pages;
  }

  /** The run packed in a word could not have gone on with page a. */
  predicate RunBefore(word: nat, a: nat, space: nat)
    requires PointerSpace(space)
  {
    (FollowersOf(word) == PAGE_SIZE - 1 || a != NextPage(ExpandWord(word, space)[FollowersOf(word)], space))
  }

  lemma OnePage(a: nat, space: nat)
    requires PointerSpace(space)
    ensures Neighbours(a, 0, space) == [a]
  {
  }

  lemma NothingExpanded(space: nat)
    requires PointerSpace(space)
    ensures Expand([], space) == []
  {
  }

  lemma OneMore(a: nat, run: nat, space: nat)
    requires PointerSpace(space)
    ensures Neighbours(a, run + 1, space) == Neighbours(a, run, space) + [NextPage(Neighbours(a, run, space)[run], space)]
  {
  }

  lemma RunEnds(addrs: seq<nat>, a: nat, run: nat, next: nat, space: nat)
    requires PointerSpace(space) && Maximal(addrs, space) && IsPage(a) && run < PAGE_SIZE && a + run < WORD
    requires |addrs| > 0 ==> RunBefore(addrs[|addrs| - 1], a, space)
    requires run == PAGE_SIZE - 1 || next != NextPage(Neighbours(a, run, space)[run], space)
    ensures Maximal(addrs + [a + run], space) && RunBefore(a + run, next, space)
  {
    PackedWord(a, run);
  }

  lemma LastRun(addrs: seq<nat>, a: nat, run: nat, space: nat)
    requires PointerSpace(space) && Maximal(addrs, space) && IsPage(a) && run < PAGE_SIZE && a + run < WORD
    requires |addrs| > 0 ==> RunBefore(addrs[|addrs| - 1], a, space)
    ensures Maximal(addrs + [a + run], space)
  {
    PackedWord(a, run);
  }

  // ---------------------------------------------------------------- bytes per page

  function PagesFor(count: nat, offset: nat): (n: nat) {
    (count + offset + PAGE_SIZE - 1) / PAGE_SIZE
  }

  /** The bytes of the buffer on each of its pages: they add up to the buffer, and all pages but
      the last are used to their end. */
  method BytesPerPage(count: nat, offset: nat) returns (bytes: seq<nat>)
    requires offset < PAGE_SIZE
    ensures |bytes| == PagesFor(count, offset) && Sum(bytes) == count
    ensures forall i :: 0 <= i < |bytes| ==> bytes[i] + (if i == 0 then offset else 0) <= PAGE_SIZE
    ensures forall i :: 0 <= i < |bytes| - 1 ==> bytes[i] + (if i == 0 then offset else 0) == PAGE_SIZE
    ensures count > 0 ==> forall i :: 0 <= i < |bytes| ==> bytes[i] > 0
  {
    var numPages := PagesFor(count, offset);
    var length, off := count, offset;
    bytes := [];
    var actualPages := 0;
    while actualPages < numPages
      invariant 0 <= actualPages <= numPages && |bytes| == actualPages
      invariant Sum(bytes) + length == count
      invariant off == if actualPages == 0 then offset else 0
      invariant actualPages < numPages || length == 0
      invariant 0 < actualPages < numPages ==> length + PAGE_SIZE * actualPages == count + offset
      invariant forall i :: 0 <= i < |bytes| ==> bytes[i] + (if i == 0 then offset else 0) <= PAGE_SIZE
      invariant forall i :: 0 <= i < |bytes| && i < numPages - 1 ==> bytes[i] + (if i == 0 then offset else 0) == PAGE_SIZE
      invariant count > 0 ==> forall i :: 0 <= i < |bytes| ==> bytes[i] > 0
    {
      var n := PAGE_SIZE - off;
      if n > length {
        n := length;
      }
      SumMore(bytes, n);
      bytes := bytes + [n];
      length := length - n;
      off := 0;
      actualPages := actualPages + 1;
    }
  }
}
