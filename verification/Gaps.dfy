/** Deleted sequence numbers as ranges (handler/gaps.go). */
module Gaps {
  import opened Sorting

  const BIT_64 := 0x1_0000_0000_0000_0000
  type SeqNo = n: int | 0 <= n < BIT_64

  datatype Range = Range(lo: SeqNo, hi: SeqNo)

  predicate Within(n: int, r: Range) { r.lo <= n <= r.hi }

  predicate Covered(rs: seq<Range>, n: int) { exists i | 0 <= i < |rs| :: Within(n, rs[i]) }

  /** Ranges in order, none empty, and at least one number missing between two of them. */
  ghost predicate Canonical(rs: seq<Range>) {
    && (forall i | 0 <= i < |rs| :: rs[i].lo <= rs[i].hi)
    && forall i, j | 0 <= i < j < |rs| :: rs[i].hi + 1 < rs[j].lo
  }

  /** The next number, in 64 bits: it wraps, which no sorted input can turn into a wrong range. */
  function Next(n: SeqNo): SeqNo { (n + 1) % BIT_64 }

  /**
   * For any order and any repetitions in the input, the ranges cover exactly
   * the deleted numbers, and are the only canonical list that does.
   */
  method GapRanges(deleted: seq<SeqNo>) returns (out: seq<Range>)
    ensures Canonical(out)
    ensures forall n :: Covered(out, n) <==> n in deleted
    ensures forall other | Canonical(other) && (forall n :: Covered(other, n) <==> n in deleted) :: other == out
  {
    hide Canonical, Covered, Sorted;
    out := [];
    Nothing();
    if |deleted| > 0 {
      var seqs := Sorted(deleted);
      out := [Range(seqs[0], seqs[0])];
      Appends([], seqs[0]);
      assert [] + [Range(seqs[0], seqs[0])] == out && seqs[..1] == [seqs[0]];
      for i := 1 to |seqs|
        invariant Canonical(out) && out != [] && out[|out| - 1].hi == seqs[i - 1]
        invariant forall n :: Covered(out, n) <==> n in seqs[..i]
      {
        ghost var before := out;
        var s, last := seqs[i], out[|out| - 1];
        assert last.hi <= s && seqs[..i + 1] == seqs[..i] + [s];
        if s == Next(last.hi) {
          out := out[|out| - 1 := Range(last.lo, s)];
          Extends(before, out, s);
        } else if s != last.hi {
          out := out + [Range(s, s)];
          Appends(before, s);
        } else {
          LastIsCovered(out);
        }
      }
      assert seqs[..|seqs|] == seqs;
    }
    forall other | Canonical(other) && (forall n :: Covered(other, n) <==> n in deleted) ensures other == out {
      CanonicalIsUnique(other, out);
    }
  }

  lemma Nothing()
    ensures Canonical([]) && forall n :: !Covered([], n)
  {
  }

  lemma LastIsCovered(rs: seq<Range>)
    requires Canonical(rs) && rs != []
    ensures Covered(rs, rs[|rs| - 1].hi)
  {
  }

  /** The library's sort, on a copy. */
  function Sorted(s: seq<SeqNo>): (r: seq<SeqNo>)
    ensures |r| == |s| && (forall n :: n in r <==> n in s)
    ensures forall i, j | 0 <= i < j < |r| :: r[i] <= r[j]
  {
    SortedHoldsTheSame(s);
    Sort(s)
  }

  lemma SortedHoldsTheSame(s: seq<SeqNo>)
    ensures (forall n :: n in Sort(s) <==> n in s) && forall i | 0 <= i < |s| :: 0 <= Sort(s)[i] < BIT_64
  {
    hide Sort;
    forall n ensures n in Sort(s) <==> n in s {
      assert n in multiset(Sort(s)) <==> n in multiset(s);
    }
    forall i | 0 <= i < |s| ensures 0 <= Sort(s)[i] < BIT_64 {
      assert Sort(s)[i] in Sort(s) && Sort(s)[i] in s;
    }
  }

  lemma Extends(before: seq<Range>, out: seq<Range>, s: SeqNo)
    requires Canonical(before) && before != [] && s == before[|before| - 1].hi + 1
    requires out == before[|before| - 1 := Range(before[|before| - 1].lo, s)]
    ensures Canonical(out) && forall n :: Covered(out, n) <==> Covered(before, n) || n == s
  {
    var k := |before| - 1;
    forall n ensures Covered(out, n) <==> Covered(before, n) || n == s {
      if Covered(before, n) {
        var i :| 0 <= i < |before| && Within(n, before[i]);
        assert Within(n, out[i]);
      }
      if n == s {
        assert Within(n, out[k]);
      }
      if Covered(out, n) && n != s {
        var i :| 0 <= i < |out| && Within(n, out[i]);
        assert Within(n, before[i]);
      }
    }
  }

  lemma Appends(before: seq<Range>, s: SeqNo)
    requires Canonical(before) && (before != [] ==> before[|before| - 1].hi + 1 < s)
    ensures Canonical(before + [Range(s, s)])
    ensures forall n :: Covered(before + [Range(s, s)], n) <==> Covered(before, n) || n == s
  {
    var out := before + [Range(s, s)];
    forall n ensures Covered(out, n) <==> Covered(before, n) || n == s {
      if Covered(before, n) {
        var i :| 0 <= i < |before| && Within(n, before[i]);
        assert Within(n, out[i]);
      }
      if n == s {
        assert Within(n, out[|before|]);
      }
      if Covered(out, n) && n != s {
        var i :| 0 <= i < |out| && Within(n, out[i]);
        assert Within(n, before[i]);
      }
    }
  }

  /** Two canonical lists that cover the same numbers are the same list. */
  lemma {:induction false} CanonicalIsUnique(a: seq<Range>, b: seq<Range>)
    requires Canonical(a) && Canonical(b) && forall n :: Covered(a, n) <==> Covered(b, n)
    ensures a == b
  {
    if a != [] || b != [] {
      FirstStarts(a, b);
      FirstStarts(b, a);
      FirstEnds(a, b);
      FirstEnds(b, a);
      hide Covered;
      forall n ensures Covered(a[1..], n) <==> Covered(b[1..], n) {
        AfterFirst(a, n);
        AfterFirst(b, n);
      }
      CanonicalIsUnique(a[1..], b[1..]);
      assert a == [a[0]] + a[1..] && b == [b[0]] + b[1..];
    }
  }

  lemma FirstStarts(a: seq<Range>, b: seq<Range>)
    requires Canonical(a) && Canonical(b) && forall n :: Covered(a, n) <==> Covered(b, n)
    ensures a != [] ==> b != [] && b[0].lo <= a[0].lo
  {
    if a != [] {
      assert Within(a[0].lo, a[0]) && Covered(a, a[0].lo);
      var i :| 0 <= i < |b| && Within(a[0].lo, b[i]);
      assert i > 0 ==> b[0].hi + 1 < b[i].lo;
    }
  }

  lemma FirstEnds(a: seq<Range>, b: seq<Range>)
    requires Canonical(a) && Canonical(b) && a != [] && b != [] && a[0].lo == b[0].lo
    requires forall n :: Covered(a, n) <==> Covered(b, n)
    ensures a[0].hi >= b[0].hi
  {
    var n := a[0].hi + 1;
    assert !Covered(a, n) by {
      assert forall i | 0 < i < |a| :: n < a[i].lo;
    }
    assert !Within(n, b[0]);
  }

  lemma AfterFirst(rs: seq<Range>, n: int)
    requires Canonical(rs) && rs != []
    ensures Covered(rs[1..], n) <==> Covered(rs, n) && n > rs[0].hi
  {
  }
}
