/** Entries in order of their codewords: what sorting the bit-reversed codewords means. */
module Ranking {
  import opened Basics
  import opened Bits
  import opened PrefixCode

  /** The C library's sort on codewords, as a function. */
  function InsertCode(x: nat, s: seq<nat>): (r: seq<nat>)
    ensures |r| == |s| + 1
  {
    if |s| == 0 || x <= s[0] then [x] + s else [s[0]] + InsertCode(x, s[1..])
  }

  function SortCodes(s: seq<nat>): (r: seq<nat>)
    ensures |r| == |s|
  {
    if |s| == 0 then [] else InsertCode(s[|s| - 1], SortCodes(s[..|s| - 1]))
  }

  /** The same insertions on whole entries. */
  function InsertEntry(e: Entry, s: seq<Entry>): (r: seq<Entry>)
    ensures |r| == |s| + 1
  {
    if |s| == 0 || e.code <= s[0].code then [e] + s else [s[0]] + InsertEntry(e, s[1..])
  }

  function Rank(es: seq<Entry>): (r: seq<Entry>)
    ensures |r| == |es|
  {
    if |es| == 0 then [] else InsertEntry(es[|es| - 1], Rank(es[..|es| - 1]))
  }

  function Codes(es: seq<Entry>): (s: seq<nat>)
    ensures |s| == |es|
    ensures forall j :: 0 <= j < |es| ==> s[j] == es[j].code
  {
    seq(|es|, j requires 0 <= j < |es| => es[j].code)
  }

  lemma {:induction false} InsertCodes(e: Entry, s: seq<Entry>)
    ensures Codes(InsertEntry(e, s)) == InsertCode(e.code, Codes(s))
  {
    if |s| == 0 || e.code <= s[0].code {
      assert Codes([e] + s) == [e.code] + Codes(s);
    } else {
      InsertCodes(e, s[1..]);
      assert Codes(s)[1..] == Codes(s[1..]);
      assert Codes([s[0]] + InsertEntry(e, s[1..])) == [s[0].code] + Codes(InsertEntry(e, s[1..]));
    }
  }

  /** Sorting the codewords alone gives the codewords of the ranked entries. */
  lemma {:induction false} RankCodes(es: seq<Entry>)
    ensures Codes(Rank(es)) == SortCodes(Codes(es))
  {
    if |es| > 0 {
      var n := |es| - 1;
      RankCodes(es[..n]);
      assert Codes(es)[..n] == Codes(es[..n]);
      InsertCodes(es[n], Rank(es[..n]));
    }
  }

  lemma {:induction false} InsertKeeps(e: Entry, s: seq<Entry>)
    ensures multiset(InsertEntry(e, s)) == multiset(s) + multiset{e}
  {
    if |s| == 0 || e.code <= s[0].code {
    } else {
      InsertKeeps(e, s[1..]);
      assert s == [s[0]] + s[1..];
    }
  }

  /** Ranking loses no entry and adds none. */
  lemma {:induction false} RankKeeps(es: seq<Entry>)
    ensures multiset(Rank(es)) == multiset(es)
  {
    if |es| > 0 {
      var n := |es| - 1;
      RankKeeps(es[..n]);
      InsertKeeps(es[n], Rank(es[..n]));
      assert es == es[..n] + [es[n]];
    }
  }

  ghost predicate Ascending(s: seq<Entry>) {
    forall i, j :: 0 <= i < j < |s| ==> s[i].code <= s[j].code
  }

  lemma {:induction false} InsertAscending(e: Entry, s: seq<Entry>)
    requires Ascending(s)
    ensures Ascending(InsertEntry(e, s))
  {
    if |s| == 0 || e.code <= s[0].code {
    } else {
      InsertAscending(e, s[1..]);
      InsertKeeps(e, s[1..]);
      var r := InsertEntry(e, s[1..]);
      forall k | 0 <= k < |r| ensures s[0].code <= r[k].code {
        assert r[k] in multiset(r);
        assert r[k] == e || r[k] in s[1..];
      }
    }
  }

  lemma {:induction false} RankAscending(es: seq<Entry>)
    ensures Ascending(Rank(es))
  {
    if |es| > 0 {
      RankAscending(es[..|es| - 1]);
      InsertAscending(es[|es| - 1], Rank(es[..|es| - 1]));
    }
  }

  /** Blocks of different entries do not overlap. */
  ghost predicate Separated(s: seq<Entry>) {
    && ValidEntries(s)
    && forall e, f :: e in s && f in s && e != f ==> Disjoint(e.code, e.len, f.code, f.len)
  }

  ghost predicate Distinct(s: seq<Entry>) {
    forall i, j :: 0 <= i < j < |s| ==> s[i] != s[j]
  }

  lemma RankMembers(es: seq<Entry>)
    ensures forall e :: e in Rank(es) <==> e in es
  {
    RankKeeps(es);
    forall e ensures e in Rank(es) <==> e in es {
      assert e in multiset(Rank(es)) <==> e in multiset(es);
    }
  }

  lemma DistinctMultiset(s: seq<Entry>, t: seq<Entry>)
    requires multiset(s) == multiset(t) && Distinct(s)
    ensures Distinct(t)
  {
    forall i, j | 0 <= i < j < |t| ensures t[i] != t[j] {
      if t[i] == t[j] {
        assert t == t[..i] + [t[i]] + t[i + 1..j] + [t[j]] + t[j + 1..];
        assert multiset(t)[t[i]] >= 2;
        OnceEach(s, t[i]);
      }
    }
  }

  lemma {:induction false} OnceEach(s: seq<Entry>, e: Entry)
    requires Distinct(s)
    ensures multiset(s)[e] <= 1
  {
    if |s| > 0 {
      var n := |s| - 1;
      OnceEach(s[..n], e);
      assert s == s[..n] + [s[n]];
      if s[n] == e {
        assert e !in s[..n];
        assert e !in multiset(s[..n]);
      }
    }
  }

  /** In the ranked table each block ends before the next one starts. */
  lemma RankBlocks(es: seq<Entry>, i: nat, j: nat)
    requires Separated(es) && Distinct(es) && i < j < |es|
    ensures Rank(es)[i] in es && Rank(es)[j] in es
    ensures Rank(es)[i].code + Size(Rank(es)[i].len) <= Rank(es)[j].code
  {
    RankAscending(es);
    RankMembers(es);
    RankKeeps(es);
    DistinctMultiset(es, Rank(es));
    assert Rank(es)[i] in Rank(es) && Rank(es)[j] in Rank(es);
  }

  /** Codewords no longer than this are looked up directly. */
  const FAST_LENGTH: nat := 10

  /** The entries that the sorted table lists: all of them in a sparse book, and
      otherwise those too long for the table of short codewords. */
  function Long(es: seq<Entry>, all: bool): (s: seq<Entry>)
  {
    if |es| == 0 then []
    else
      var n := |es| - 1;
      Long(es[..n], all) + if all || es[n].len > FAST_LENGTH then [es[n]] else []
  }

  lemma {:induction false} LongMembers(es: seq<Entry>, all: bool)
    ensures forall e :: e in Long(es, all) <==> e in es && (all || e.len > FAST_LENGTH)
    ensures Distinct(es) ==> Distinct(Long(es, all))
    ensures all ==> Long(es, all) == es
    ensures |Long(es, all)| <= |es|
  {
    if |es| > 0 {
      var n := |es| - 1;
      LongMembers(es[..n], all);
      assert es == es[..n] + [es[n]];
    }
  }

  lemma {:induction false} LongAll(es: seq<Entry>)
    ensures Long(es, true) == es
  {
    if |es| > 0 {
      LongAll(es[..|es| - 1]);
    }
  }

  lemma CanonicalSeparated(es: seq<Entry>, all: bool)
    requires Canonical(es)
    ensures Distinct(es) && Separated(Long(es, all)) && Distinct(Long(es, all))
  {
    forall i, j | 0 <= i < j < |es| ensures es[i] != es[j] {
      CanonicalDisjoint(es, i, j);
    }
    LongMembers(es, all);
    var s := Long(es, all);
    forall e, f | e in s && f in s && e != f ensures Disjoint(e.code, e.len, f.code, f.len) {
      var i :| 0 <= i < |es| && es[i] == e;
      var j :| 0 <= j < |es| && es[j] == f;
      CanonicalDisjoint(es, i, j);
    }
    forall j | 0 <= j < |s| ensures ValidLength(s[j].len) {
      assert s[j] in s;
    }
  }
}
