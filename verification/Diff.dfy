/** The line diff: longest common subsequence, or position by position for very large inputs (diff.ts). */
module Diff {
  import opened Sequences
  import opened Text

  datatype Kind = Same | Add | Del
  datatype DiffOp = DiffOp(kind: Kind, line: string)

  const MAX_LCS_LINES := 600
  /** What a Uint16Array element can hold is below this; larger values are stored modulo it. */
  const UINT16_RANGE := 0x1_0000

  // ----- reading a diff -----

  /** The lines on one side of a diff: `skip` is the kind that belongs to the other side. */
  function Side(ops: seq<DiffOp>, skip: Kind): seq<string> {
    if ops == [] then []
    else (if ops[0].kind == skip then [] else [ops[0].line]) + Side(ops[1..], skip)
  }

  function OldLines(ops: seq<DiffOp>): seq<string> { Side(ops, Add) }
  function NewLines(ops: seq<DiffOp>): seq<string> { Side(ops, Del) }

  function SameLines(ops: seq<DiffOp>): seq<string> {
    if ops == [] then []
    else (if ops[0].kind == Same then [ops[0].line] else []) + SameLines(ops[1..])
  }

  // ----- common subsequences -----

  ghost predicate IsSubsequence(c: seq<string>, a: seq<string>) {
    || c == []
    || (a != [] && ((c[0] == a[0] && IsSubsequence(c[1..], a[1..])) || IsSubsequence(c, a[1..])))
  }

  /** The recurrence the table tabulates. */
  function Lcs(a: seq<string>, b: seq<string>): (n: nat)
    ensures n <= |a| && n <= |b|
    decreases |a| + |b|
  {
    if a == [] || b == [] then 0
    else if a[0] == b[0] then Lcs(a[1..], b[1..]) + 1
    else Max(Lcs(a[1..], b), Lcs(a, b[1..]))
  }

  lemma {:induction false} TailOfSubsequence(c: seq<string>, a: seq<string>)
    requires c != [] && IsSubsequence(c, a)
    ensures a != [] && IsSubsequence(c[1..], a[1..])
  {
    if !(c[0] == a[0] && IsSubsequence(c[1..], a[1..])) {
      TailOfSubsequence(c, a[1..]);
      assert IsSubsequence(c[1..], a[1..][1..]);
    }
  }

  /** No common subsequence is longer than the recurrence says. */
  lemma {:induction false} LcsIsUpperBound(c: seq<string>, a: seq<string>, b: seq<string>)
    requires IsSubsequence(c, a) && IsSubsequence(c, b)
    ensures |c| <= Lcs(a, b)
    decreases |a| + |b|
  {
    if c != [] {
      if a[0] == b[0] {
        TailOfSubsequence(c, a);
        TailOfSubsequence(c, b);
        LcsIsUpperBound(c[1..], a[1..], b[1..]);
      } else if c[0] != a[0] {
        LcsIsUpperBound(c, a[1..], b);
      } else {
        LcsIsUpperBound(c, a, b[1..]);
      }
    }
  }

  // ----- the two diffs as functions of the lines -----

  /** The walk over the table: keep an equal line, otherwise drop from the side that loses nothing, old side first. */
  function Walk(a: seq<string>, b: seq<string>): seq<DiffOp>
    decreases |a| + |b|
  {
    if a == [] && b == [] then []
    else if b == [] then [DiffOp(Del, a[0])] + Walk(a[1..], b)
    else if a == [] then [DiffOp(Add, b[0])] + Walk(a, b[1..])
    else if a[0] == b[0] then [DiffOp(Same, a[0])] + Walk(a[1..], b[1..])
    else if Lcs(a[1..], b) >= Lcs(a, b[1..]) then [DiffOp(Del, a[0])] + Walk(a[1..], b)
    else [DiffOp(Add, b[0])] + Walk(a, b[1..])
  }

  /** The fallback for large inputs: line i against line i. */
  function Positional(a: seq<string>, b: seq<string>): seq<DiffOp> {
    if a == [] && b == [] then []
    else if a == [] then [DiffOp(Add, b[0])] + Positional(a, b[1..])
    else if b == [] then [DiffOp(Del, a[0])] + Positional(a[1..], b)
    else if a[0] == b[0] then [DiffOp(Same, b[0])] + Positional(a[1..], b[1..])
    else [DiffOp(Del, a[0]), DiffOp(Add, b[0])] + Positional(a[1..], b[1..])
  }

  /** The diff holds both inputs: without the added lines it is the old text, without the deleted ones the new. */
  lemma {:induction false} WalkReconstructs(a: seq<string>, b: seq<string>)
    ensures OldLines(Walk(a, b)) == a && NewLines(Walk(a, b)) == b
    decreases |a| + |b|
  {
    if a != [] { assert a == [a[0]] + a[1..]; }
    if b != [] { assert b == [b[0]] + b[1..]; }
    if a == [] && b == [] {
    } else if b == [] || (a != [] && a[0] != b[0] && Lcs(a[1..], b) >= Lcs(a, b[1..])) {
      WalkReconstructs(a[1..], b);
      assert Walk(a, b)[1..] == Walk(a[1..], b);
    } else if a == [] || a[0] != b[0] {
      WalkReconstructs(a, b[1..]);
      assert Walk(a, b)[1..] == Walk(a, b[1..]);
    } else {
      WalkReconstructs(a[1..], b[1..]);
      assert Walk(a, b)[1..] == Walk(a[1..], b[1..]);
    }
  }

  lemma {:induction false} PositionalReconstructs(a: seq<string>, b: seq<string>)
    ensures OldLines(Positional(a, b)) == a && NewLines(Positional(a, b)) == b
  {
    var ops := Positional(a, b);
    if a != [] && b != [] {
      PositionalReconstructs(a[1..], b[1..]);
      var rest := Positional(a[1..], b[1..]);
      if a[0] == b[0] {
        assert ops[1..] == rest;
      } else {
        TwoOps(DiffOp(Del, a[0]), DiffOp(Add, b[0]), rest);
      }
    } else if a != [] {
      PositionalReconstructs(a[1..], b);
      assert ops[1..] == Positional(a[1..], b);
    } else if b != [] {
      PositionalReconstructs(a, b[1..]);
      assert ops[1..] == Positional(a, b[1..]);
    }
  }

  lemma TwoOps(x: DiffOp, y: DiffOp, rest: seq<DiffOp>)
    ensures forall skip ::
      Side([x, y] + rest, skip) ==
        (if x.kind == skip then [] else [x.line]) + (if y.kind == skip then [] else [y.line]) + Side(rest, skip)
    ensures SameLines([x, y] + rest) ==
      (if x.kind == Same then [x.line] else []) + (if y.kind == Same then [y.line] else []) + SameLines(rest)
  {
    var ops := [x, y] + rest;
    assert ops[1..] == [y] + rest && ops[1..][1..] == rest;
  }

  lemma {:induction false} WalkKeepsLcs(a: seq<string>, b: seq<string>)
    ensures |SameLines(Walk(a, b))| == Lcs(a, b)
    decreases |a| + |b|
  {
    if a == [] && b == [] {
    } else if b == [] || (a != [] && a[0] != b[0] && Lcs(a[1..], b) >= Lcs(a, b[1..])) {
      WalkKeepsLcs(a[1..], b);
      assert Walk(a, b)[1..] == Walk(a[1..], b);
    } else if a == [] || a[0] != b[0] {
      WalkKeepsLcs(a, b[1..]);
      assert Walk(a, b)[1..] == Walk(a, b[1..]);
    } else {
      WalkKeepsLcs(a[1..], b[1..]);
      assert Walk(a, b)[1..] == Walk(a[1..], b[1..]);
    }
  }

  /** The kept lines of any diff are a subsequence of either side. */
  lemma {:induction false} SameIsSubsequence(ops: seq<DiffOp>, skip: Kind)
    requires skip != Same
    ensures IsSubsequence(SameLines(ops), Side(ops, skip))
  {
    if ops != [] {
      SameIsSubsequence(ops[1..], skip);
      var c, s := SameLines(ops[1..]), Side(ops[1..], skip);
      if ops[0].kind == Same {
        assert SameLines(ops)[1..] == c && Side(ops, skip)[1..] == s;
      } else {
        assert SameLines(ops) == c;
        if ops[0].kind == skip {
          assert Side(ops, skip) == s;
        } else {
          assert Side(ops, skip)[1..] == s;
        }
      }
    }
  }

  /** Common to both, and nothing common is longer. */
  ghost predicate IsLongestCommon(same: seq<string>, a: seq<string>, b: seq<string>) {
    && IsSubsequence(same, a) && IsSubsequence(same, b)
    && forall c | IsSubsequence(c, a) && IsSubsequence(c, b) :: |c| <= |same|
  }

  /**
   * The diff of two texts of at most 600 lines keeps a longest common
   * subsequence of their lines.
   */
  lemma WalkIsLongest(a: seq<string>, b: seq<string>)
    ensures IsLongestCommon(SameLines(Walk(a, b)), a, b)
  {
    WalkReconstructs(a, b);
    WalkKeepsLcs(a, b);
    SameIsSubsequence(Walk(a, b), Add);
    SameIsSubsequence(Walk(a, b), Del);
    forall c | IsSubsequence(c, a) && IsSubsequence(c, b) ensures |c| <= Lcs(a, b) {
      LcsIsUpperBound(c, a, b);
    }
  }

  /** More lines have no shorter common subsequence. */
  lemma LcsGrows(a: seq<string>, b: seq<string>)
    requires b != []
    ensures Lcs(a, b[1..]) <= Lcs(a, b)
  {
    var same := SameLines(Walk(a, b[1..]));
    WalkIsLongest(a, b[1..]);
    WalkKeepsLcs(a, b[1..]);
    assert IsSubsequence(same, b);
    LcsIsUpperBound(same, a, b);
  }

  /** Of a changed stretch the old lines are shown before the new ones: an addition is never followed by a deletion. */
  lemma {:induction false} DeletionsComeFirst(a: seq<string>, b: seq<string>, k: nat)
    requires k + 1 < |Walk(a, b)| && Walk(a, b)[k].kind == Add
    ensures Walk(a, b)[k + 1].kind != Del
    decreases k
  {
    if k == 0 {
      if a != [] {
        AdditionGoesOn(a, b);
      }
    } else if b == [] || (a != [] && a[0] != b[0] && Lcs(a[1..], b) >= Lcs(a, b[1..])) {
      DeletionsComeFirst(a[1..], b, k - 1);
    } else if a == [] || a[0] != b[0] {
      DeletionsComeFirst(a, b[1..], k - 1);
    } else {
      DeletionsComeFirst(a[1..], b[1..], k - 1);
    }
  }

  lemma AdditionGoesOn(a: seq<string>, b: seq<string>)
    requires a != [] && b != [] && a[0] != b[0] && Lcs(a[1..], b) < Lcs(a, b[1..])
    ensures Walk(a, b[1..]) != [] && Walk(a, b[1..])[0].kind != Del
  {
    LcsGrows(a[1..], b);
  }

  /** The lines from position i on that stand at the same position in both texts. */
  function Agreeing(a: seq<string>, b: seq<string>, i: nat): seq<string>
    decreases |a| - i
  {
    if i >= |a| || i >= |b| then []
    else (if a[i] == b[i] then [a[i]] else []) + Agreeing(a, b, i + 1)
  }

  /** On the fallback path exactly the lines equal at the same position are kept. */
  lemma {:induction false} PositionalKeepsAgreeing(a: seq<string>, b: seq<string>, i: nat)
    requires i <= |a| || i <= |b|
    ensures SameLines(Positional(From(a, i), From(b, i))) == Agreeing(a, b, i)
    decreases |a| + |b| - i
  {
    if i < |a| || i < |b| {
      PositionalStep(a, b, i);
      PositionalKeepsAgreeing(a, b, i + 1);
      var rest := Positional(From(a, i + 1), From(b, i + 1));
      var ops := Positional(From(a, i), From(b, i));
      if i < |a| && i < |b| && a[i] != b[i] {
        TwoOps(DiffOp(Del, a[i]), DiffOp(Add, b[i]), rest);
        assert ops == [DiffOp(Del, a[i]), DiffOp(Add, b[i])] + rest;
      } else {
        assert ops[1..] == rest;
        if i >= |a| || i >= |b| {
          OneSidedKeepsNothing(From(a, i + 1), From(b, i + 1));
        }
      }
    }
  }

  lemma {:induction false} OneSidedKeepsNothing(a: seq<string>, b: seq<string>)
    requires a == [] || b == []
    ensures SameLines(Positional(a, b)) == []
  {
    if a != [] {
      OneSidedKeepsNothing(a[1..], b);
      assert Positional(a, b)[1..] == Positional(a[1..], b);
    } else if b != [] {
      OneSidedKeepsNothing(a, b[1..]);
      assert Positional(a, b)[1..] == Positional(a, b[1..]);
    }
  }

  // ----- the program -----

  method DiffLines(prev: string, curr: string) returns (out: seq<DiffOp>)
    ensures Join(OldLines(out), '\n') == prev && Join(NewLines(out), '\n') == curr
    ensures var a, b := Split(prev, '\n'), Split(curr, '\n');
      if |a| > MAX_LCS_LINES || |b| > MAX_LCS_LINES then out == Positional(a, b)
      else out == Walk(a, b) && IsLongestCommon(SameLines(out), a, b)
  {
    hide IsLongestCommon, Positional;
    var a, b := Split(prev, '\n'), Split(curr, '\n');
    WalkReconstructs(a, b);
    PositionalReconstructs(a, b);
    if |a| > MAX_LCS_LINES || |b| > MAX_LCS_LINES {
      out := PositionalDiff(a, b);
    } else {
      var dp := FillTable(a, b);
      out := WalkTable(a, b, dp);
      WalkIsLongest(a, b);
    }
  }

  method PositionalDiff(a: seq<string>, b: seq<string>) returns (out: seq<DiffOp>)
    ensures out == Positional(a, b)
  {
    hide Positional, From;
    out := [];
    var n := Max(|a|, |b|);
    var i := 0;
    FromStartAndEnd(a);
    FromStartAndEnd(b);
    while i < n
      invariant 0 <= i <= n
      invariant out + Positional(From(a, i), From(b, i)) == Positional(a, b)
    {
      PositionalStep(a, b, i);
      ghost var before, rest := out, Positional(From(a, i + 1), From(b, i + 1));
      // Past the end of a shorter text the line is undefined, and undefined equals no line.
      if i < |a| && i < |b| && a[i] == b[i] {
        out := out + [DiffOp(Same, b[i])];
      } else {
        if i < |a| { out := out + [DiffOp(Del, a[i])]; }
        if i < |b| { out := out + [DiffOp(Add, b[i])]; }
      }
      assert before + Positional(From(a, i), From(b, i)) == out + rest;
      i := i + 1;
    }
    PositionalOfNothing();
  }

  ghost function From(s: seq<string>, i: nat): seq<string> {
    if i < |s| then s[i..] else []
  }

  lemma FromStartAndEnd(s: seq<string>)
    ensures From(s, 0) == s && forall i: nat | i >= |s| :: From(s, i) == []
  {
  }

  lemma PositionalOfNothing()
    ensures Positional([], []) == []
  {
  }

  lemma PositionalStep(a: seq<string>, b: seq<string>, i: nat)
    requires i < |a| || i < |b|
    ensures Positional(From(a, i), From(b, i)) ==
      (if i < |a| && i < |b| && a[i] == b[i] then [DiffOp(Same, b[i])]
       else (if i < |a| then [DiffOp(Del, a[i])] else []) + (if i < |b| then [DiffOp(Add, b[i])] else []))
      + Positional(From(a, i + 1), From(b, i + 1))
  {
  }

  /** What the table holds for the lines from i and from j on. */
  ghost function Best(a: seq<string>, b: seq<string>, i: nat, j: nat): (n: nat)
    requires i <= |a| && j <= |b|
    ensures n <= |a| - i
    ensures i == |a| || j == |b| ==> n == 0
    ensures i < |a| && j < |b| ==>
      n == if a[i] == b[j] then Lcs(a[i + 1..], b[j + 1..]) + 1
        else Max(Lcs(a[i + 1..], b[j..]), Lcs(a[i..], b[j + 1..]))
  {
    assert i < |a| ==> a[i..][1..] == a[i + 1..];
    assert j < |b| ==> b[j..][1..] == b[j + 1..];
    Lcs(a[i..], b[j..])
  }

  method FillTable(a: seq<string>, b: seq<string>) returns (dp: array2<int>)
    requires |a| <= MAX_LCS_LINES && |b| <= MAX_LCS_LINES
    ensures dp.Length0 == |a| + 1 && dp.Length1 == |b| + 1
    ensures forall i, j | 0 <= i <= |a| && 0 <= j <= |b| :: dp[i, j] == Best(a, b, i, j)
    ensures fresh(dp)
  {
    hide Lcs;
    var n, m := |a|, |b|;
    dp := new int[n + 1, m + 1]((_, _) => 0);
    var i := n - 1;
    while i >= 0
      invariant -1 <= i < n
      invariant forall k, j | i < k <= n && 0 <= j <= m :: dp[k, j] == Best(a, b, k, j)
      invariant forall k | 0 <= k <= i :: dp[k, m] == 0
    {
      var j := m - 1;
      while j >= 0
        invariant -1 <= j < m
        invariant forall k, l | i < k <= n && 0 <= l <= m :: dp[k, l] == Best(a, b, k, l)
        invariant forall l | j < l <= m :: dp[i, l] == Best(a, b, i, l)
        invariant forall k | 0 <= k < i :: dp[k, m] == 0
      {
        var best := if a[i] == b[j] then dp[i + 1, j + 1] + 1
                    else if dp[i + 1, j] > dp[i, j + 1] then dp[i + 1, j] else dp[i, j + 1];
        assert best == Best(a, b, i, j);
        dp[i, j] := best % UINT16_RANGE;
        j := j - 1;
      }
      i := i - 1;
    }
  }

  lemma WalkStep(a: seq<string>, b: seq<string>, i: nat, j: nat)
    requires i <= |a| && j <= |b|
    ensures Walk(a[i..], b[j..]) ==
      if i == |a| && j == |b| then []
      else if j == |b| then [DiffOp(Del, a[i])] + Walk(a[i + 1..], b[j..])
      else if i == |a| then [DiffOp(Add, b[j])] + Walk(a[i..], b[j + 1..])
      else if a[i] == b[j] then [DiffOp(Same, a[i])] + Walk(a[i + 1..], b[j + 1..])
      else if Best(a, b, i + 1, j) >= Best(a, b, i, j + 1) then [DiffOp(Del, a[i])] + Walk(a[i + 1..], b[j..])
      else [DiffOp(Add, b[j])] + Walk(a[i..], b[j + 1..])
  {
  }

  method WalkTable(a: seq<string>, b: seq<string>, dp: array2<int>) returns (out: seq<DiffOp>)
    requires dp.Length0 == |a| + 1 && dp.Length1 == |b| + 1
    requires forall i, j | 0 <= i <= |a| && 0 <= j <= |b| :: dp[i, j] == Best(a, b, i, j)
    ensures out == Walk(a, b)
  {
    hide Walk, Lcs;
    var n, m := |a|, |b|;
    out := [];
    var i, j := 0, 0;
    assert a[0..] == a && b[0..] == b;
    while i < n && j < m
      invariant 0 <= i <= n && 0 <= j <= m
      invariant out + Walk(a[i..], b[j..]) == Walk(a, b)
    {
      WalkStep(a, b, i, j);
      if a[i] == b[j] {
        out := out + [DiffOp(Same, a[i])];
        i, j := i + 1, j + 1;
      } else if dp[i + 1, j] >= dp[i, j + 1] {
        out := out + [DiffOp(Del, a[i])];
        i := i + 1;
      } else {
        out := out + [DiffOp(Add, b[j])];
        j := j + 1;
      }
    }
    while i < n
      invariant 0 <= i <= n && 0 <= j <= m && (i == n || j == m)
      invariant out + Walk(a[i..], b[j..]) == Walk(a, b)
    {
      WalkStep(a, b, i, j);
      out := out + [DiffOp(Del, a[i])];
      i := i + 1;
    }
    while j < m
      invariant i == n && 0 <= j <= m
      invariant out + Walk(a[i..], b[j..]) == Walk(a, b)
    {
      WalkStep(a, b, i, j);
      out := out + [DiffOp(Add, b[j])];
      j := j + 1;
    }
    WalkStep(a, b, i, j);
  }
}
