/**
 * What an alert shows, and the time it carries, in terms of the messages really heard
 * (alerts/alerts.go), over every run.
 */
module AlertShows {
  import opened Wrappers
  import opened Window
  import opened AlertRules
  import opened AlertRuns
  import opened AlertTraffic

  // ----- what a stale and a firing alert show -----

  predicate IsJudged(c: Rule, A: seq<Arrival>, i: nat)
    requires i < |A|
  {
    LastJudged(c, A[..i + 1]) == Some(i)
  }

  lemma {:induction false} LastJudgedIsLast(c: Rule, A: seq<Arrival>)
    ensures
      var j := LastJudged(c, A);
      && (j.Some? ==> IsJudged(c, A, j.value))
      && forall i | (if j.Some? then j.value + 1 else 0) <= i < |A| :: !IsJudged(c, A, i)
  {
    if A != [] && c.expr != "" {
      var n := |A| - 1;
      LastJudgedIsLast(c, A[..n]);
      SameJudged(c, A, n);
      assert A[..n + 1] == A;
    }
  }

  lemma SameJudged(c: Rule, A: seq<Arrival>, n: nat)
    requires n <= |A|
    ensures forall i | 0 <= i < n :: IsJudged(c, A[..n], i) <==> IsJudged(c, A, i)
  {
    forall i | 0 <= i < n ensures IsJudged(c, A[..n], i) <==> IsJudged(c, A, i) {
      assert A[..n][..i + 1] == A[..i + 1];
    }
  }

  /**
   * Which messages an expression is evaluated for: each that comes a second or more after every one
   * it was evaluated for.
   */
  lemma JudgedIff(c: Rule, A: seq<Arrival>, t: nat, i: nat)
    requires Ordered(A, t) && i < |A| && A[0].now >= EVAL_EVERY
    ensures
      IsJudged(c, A, i) <==>
      c.expr != "" && forall j | 0 <= j < i && IsJudged(c, A, j) :: A[i].now - A[j].now >= EVAL_EVERY
  {
    var B := A[..i];
    LastJudgedIsLast(c, B);
    SameJudged(c, A, i);
    var now := A[..i + 1];
    assert now[..i] == B && now[i] == A[i];
    assert A[i].now >= A[0].now;
    assert forall j | 0 <= j < i :: B[j] == A[j];
    hide IsJudged;
    assert IsJudged(c, A, i) <==> LastJudged(c, now) == Some(i) by { JudgedIs(c, A, i); }
  }

  lemma JudgedIs(c: Rule, A: seq<Arrival>, i: nat)
    requires i < |A|
    ensures IsJudged(c, A, i) <==> LastJudged(c, A[..i + 1]) == Some(i)
  {
  }

  /** The rule was not firing, was evaluated for this message, and was true of it. */
  predicate StartsFiring(c: Rule, A: seq<Arrival>, i: nat)
    requires i < |A|
  {
    IsJudged(c, A, i) && Hits(c, A[i]) && FiredBy(c, A[..i]).None?
  }

  lemma SameInFront(c: Rule, A: seq<Arrival>, n: nat)
    requires n <= |A|
    ensures forall i | 0 <= i < n :: A[..n][i] == A[i]
    ensures forall i | 0 <= i < n :: IsJudged(c, A[..n], i) <==> IsJudged(c, A, i)
    ensures forall i | 0 <= i < n :: StartsFiring(c, A[..n], i) <==> StartsFiring(c, A, i)
  {
    hide LastJudged, FiredBy, Hits;
    forall i | 0 <= i < n
      ensures IsJudged(c, A[..n], i) <==> IsJudged(c, A, i)
      ensures StartsFiring(c, A[..n], i) <==> StartsFiring(c, A, i)
    {
      assert A[..n][..i + 1] == A[..i + 1] && A[..n][..i] == A[..i];
    }
  }

  /** The last message that started a firing, whether or not that has ended since. */
  function LastStart(c: Rule, A: seq<Arrival>): (j: Option<nat>)
    ensures j.Some? ==> j.value < |A| && StartsFiring(c, A, j.value)
    ensures forall i | (if j.Some? then j.value + 1 else 0) <= i < |A| :: !StartsFiring(c, A, i)
  {
    if A == [] then None
    else
      var n := |A| - 1;
      SameInFront(c, A, n);
      hide StartsFiring;
      if StartsFiring(c, A, n) then Some(n) else LastStart(c, A[..n])
  }

  /** The first payload from here on that is not empty, of the messages the expression was not evaluated for. */
  function FirstUnjudged(c: Rule, A: seq<Arrival>, from: nat): string {
    if |A| <= from then ""
    else
      var n := |A| - 1;
      var before := FirstUnjudged(c, A[..n], from);
      if before != "" || IsJudged(c, A, n) then before else A[n].m.preview
  }

  /** From here on there was nothing to show before message i. */
  ghost predicate SilentUntil(c: Rule, A: seq<Arrival>, from: nat, i: nat)
    requires i <= |A|
  {
    forall j | from <= j < i && !IsJudged(c, A, j) :: A[j].m.preview == ""
  }

  /** Message i is the first from here on that was not evaluated and has something to show. */
  ghost predicate SpeaksFirst(c: Rule, A: seq<Arrival>, from: nat, i: nat) {
    from <= i < |A| && !IsJudged(c, A, i) && A[i].m.preview != "" && SilentUntil(c, A, from, i)
  }

  lemma SilentInFront(c: Rule, A: seq<Arrival>, from: nat, i: nat, n: nat)
    requires i <= n <= |A|
    ensures SilentUntil(c, A[..n], from, i) <==> SilentUntil(c, A, from, i)
    ensures i < n ==> (SpeaksFirst(c, A[..n], from, i) <==> SpeaksFirst(c, A, from, i))
  {
    SameInFront(c, A, n);
    hide IsJudged;
  }

  lemma {:induction false} FirstUnjudgedMeans(c: Rule, A: seq<Arrival>, from: nat)
    ensures
      var s := FirstUnjudged(c, A, from);
      if s == "" then SilentUntil(c, A, from, |A|) else exists i: nat ::
        SpeaksFirst(c, A, from, i) && A[i].m.preview == s
  {
    if |A| > from {
      var n := |A| - 1;
      var before := FirstUnjudged(c, A[..n], from);
      FirstUnjudgedMeans(c, A[..n], from);
      SilentInFront(c, A, from, n, n);
      hide IsJudged;
      if before == "" {
        assert IsJudged(c, A, n) || A[n].m.preview == "" || SpeaksFirst(c, A, from, n);
      } else {
        var i: nat :| SpeaksFirst(c, A[..n], from, i) && A[..n][i].m.preview == before;
        SilentInFront(c, A, from, i, n);
        assert A[i] == A[..n][i];
      }
    }
  }

  /**
   * The payload that started the last firing; if that was empty, or there was none, the first one
   * not evaluated since.
   */
  function Shown(c: Rule, A: seq<Arrival>): string {
    var j := LastStart(c, A);
    if j.Some? && A[j.value].m.preview != "" then A[j.value].m.preview
    else FirstUnjudged(c, A, if j.Some? then j.value + 1 else 0)
  }

  lemma {:induction false} RememberedIsShown(c: Rule, A: seq<Arrival>)
    ensures Remembered(c, A) == Shown(c, A)
  {
    if A != [] {
      var n := |A| - 1;
      RememberedIsShown(c, A[..n]);
      ShownOfOneMore(c, A);
      assert A[..n + 1] == A;
      hide LastJudged, FiredBy, Hits, Shown;
    }
  }

  lemma ShownOfOneMore(c: Rule, A: seq<Arrival>)
    requires A != []
    ensures
      var n := |A| - 1;
      var before := Shown(c, A[..n]);
      Shown(c, A) ==
      if StartsFiring(c, A, n) then A[n].m.preview
      else if before != "" || IsJudged(c, A, n) then before else A[n].m.preview
  {
    var n := |A| - 1;
    hide StartsFiring, IsJudged;
    var j := LastStart(c, A);
    assert j == if StartsFiring(c, A, n) then Some(n) else LastStart(c, A[..n]);
    assert j.Some? && j.value < n ==> A[..n][j.value] == A[j.value];
  }

  /** While a rule fires, the message that fired it is the last that started a firing. */
  lemma {:induction false} FiredByStarts(c: Rule, A: seq<Arrival>)
    ensures FiredBy(c, A).Some? ==> LastStart(c, A) == FiredBy(c, A)
  {
    if A != [] {
      var n := |A| - 1;
      FiredByStarts(c, A[..n]);
      assert A[..n + 1] == A;
      hide LastJudged, Hits;
    }
  }

  function FirstShown(A: seq<Arrival>): string {
    if A == [] then "" else if A[0].m.preview != "" then A[0].m.preview else FirstShown(A[1..])
  }

  /** Without an expression the payload remembered is the first that was not empty, whatever came later. */
  lemma {:induction false} PlainRuleRemembersFirst(c: Rule, A: seq<Arrival>)
    requires c.expr == ""
    ensures Remembered(c, A) == FirstShown(A)
  {
    if A != [] {
      PlainRuleRemembersFirst(c, A[..|A| - 1]);
      FirstShownOfOneMore(A[..|A| - 1], A[|A| - 1]);
      assert A == A[..|A| - 1] + [A[|A| - 1]];
    }
  }

  lemma {:induction false} FirstShownOfOneMore(A: seq<Arrival>, a: Arrival)
    ensures FirstShown(A + [a]) == if FirstShown(A) != "" then FirstShown(A) else a.m.preview
  {
    if A != [] {
      assert (A + [a])[1..] == A[1..] + [a];
      FirstShownOfOneMore(A[1..], a);
    } else {
      assert ([] + [a])[1..] == [];
    }
  }

  /**
   * A stale alert shows what started the last firing, or where that was empty
   * or there was none the first payload since that was not evaluated. So it
   * shows the last one seen exactly when that one reads the same.
   */
  lemma StaleShowsLastIff(k: Key, c: Rule, steps: seq<Step>)
    requires UnderRule(c, steps) && InTime(steps)
    requires Run(k, steps).alert.Some? && Run(k, steps).alert.value.state.Stale?
    ensures
      var A, shown := Arrivals(steps), Run(k, steps).alert.value.preview;
      var j := LastStart(c, A);
      && A != [] && shown == Text(Shown(c, A))
      && (shown == Text(A[|A| - 1].m.preview) <==>
          if j.Some? && A[j.value].m.preview != "" then A[|A| - 1].m.preview == A[j.value].m.preview
          else A[|A| - 1].m.preview == FirstUnjudged(c, A, if j.Some? then j.value + 1 else 0))
      && (c.expr == "" ==> (shown == Text(A[|A| - 1].m.preview) <==> FirstShown(A) == A[|A| - 1].m.preview))
  {
    hide FollowsPauses, FollowsValue, FollowsWindow, Run, Arrivals, LastJudged, FiredBy, Remembered, SilenceAllowed,
         FirstShown, FirstUnjudged, LastStart;
    EveryRunIsConsistent(k, steps);
    RunFollows(k, c, steps);
    RememberedIsShown(c, Arrivals(steps));
    if c.expr == "" {
      PlainRuleRemembersFirst(c, Arrivals(steps));
    }
  }

  /** A condition that did not hold begins to. */
  predicate Begins(m: Memo, r: Memo) {
    || (r.firing && !m.firing) || (r.level && !m.level) || (r.rate && !m.rate)
    || (r.stuck && !m.stuck) || (r.stale && !m.stale)
  }

  /** A condition that is not the expression stops holding. */
  predicate EndsOther(m: Memo, r: Memo) {
    (m.level && !r.level) || (m.rate && !r.rate) || (m.stuck && !r.stuck) || (m.stale && !r.stale)
  }

  /** How many messages had been heard when a condition last began. */
  function LastBegin(k: Key, steps: seq<Step>): (n: nat)
    ensures n <= |Arrivals(steps)|
  {
    hide Run;
    if steps == [] || steps[|steps| - 1].Drop? then 0
    else
      var before := steps[..|steps| - 1];
      if Begins(Run(k, before).memo, Run(k, steps).memo) then |Arrivals(steps)| else LastBegin(k, before)
  }

  /** How many messages had been heard before a condition other than the expression last ended, if one has. */
  function LastEnd(k: Key, steps: seq<Step>): (e: Option<nat>)
    ensures e.Some? ==> e.value <= |Arrivals(steps)|
  {
    hide Run;
    if steps == [] || steps[|steps| - 1].Drop? then None
    else
      var before := steps[..|steps| - 1];
      if EndsOther(Run(k, before).memo, Run(k, steps).memo) then Some(|Arrivals(before)|) else LastEnd(k, before)
  }

  /** The alert is of this time, and if it shows the rule firing shows this. */
  ghost predicate Shows(l: Life, pv: Preview, at: int) {
    l.alert.Some? ==>
      l.alert.value.at == at && (l.alert.value.state.Firing? ==> l.memo.firing && l.alert.value.preview == pv)
  }

  // What each part of a step does to that: an end shows the payload remembered, a beginning the last message's time.

  function PvAfter(m: Memo, r: Memo, pv: Preview): Preview { if EndsOther(m, r) then Text(m.preview) else pv }

  function AtAfter(m: Memo, r: Memo, at: int): int { if Begins(m, r) then m.lastSeen else at }

  ghost predicate ShowsAfter(l: Life, r: Life, pv: Preview, at: int) {
    Shows(r, PvAfter(l.memo, r.memo, pv), AtAfter(l.memo, r.memo, at))
  }

  lemma SilenceEndedShows(l: Life, k: Key, m: Message, now: nat, muted: bool, pv: Preview, at: int)
    requires Shows(l, pv, at)
    ensures ShowsAfter(l, SilenceEnded(l, k, m, now, muted), pv, at)
  {
  }

  lemma ValueSeenShows(l: Life, k: Key, c: Rule, m: Message, now: nat, muted: bool, pv: Preview, at: int)
    requires Shows(l, pv, at)
    ensures ShowsAfter(l, ValueSeen(l, k, c, m, now, muted), pv, at)
  {
    hide ValueOf;
  }

  lemma JudgedShows(l: Life, k: Key, c: Rule, m: Message, now: nat, muted: bool, pv: Preview, at: int)
    requires Shows(l, pv, at)
    ensures
      var r := Judged(l, k, c, m, now, muted);
      Shows(r, if r.memo.firing && !l.memo.firing then Text(m.preview) else pv, AtAfter(l.memo, r.memo, at))
  {
  }

  lemma StaleCheckedShows(l: Life, k: Key, c: Rule, now: nat, muted: bool, pv: Preview, at: int)
    requires Shows(l, pv, at)
    ensures ShowsAfter(l, StaleChecked(l, k, c, now, muted), pv, at)
  {
    hide SilenceAllowed;
  }

  lemma RateCheckedShows(l: Life, k: Key, c: Rule, t: Stats, now: nat, muted: bool, pv: Preview, at: int)
    requires Shows(l, pv, at)
    ensures ShowsAfter(l, RateChecked(l, k, c, t, now, muted), pv, at)
  {
    hide RateHit, RateVerdict;
  }

  lemma LevelCheckedShows(l: Life, k: Key, c: Rule, t: Stats, now: nat, muted: bool, pv: Preview, at: int)
    requires Shows(l, pv, at)
    ensures ShowsAfter(l, LevelChecked(l, k, c, t, now, muted), pv, at)
  {
    hide LevelVerdict;
  }

  lemma StuckCheckedShows(l: Life, k: Key, c: Rule, now: nat, muted: bool, pv: Preview, at: int)
    requires Shows(l, pv, at)
    ensures ShowsAfter(l, StuckChecked(l, k, c, now, muted), pv, at)
  {
  }

  /** The second part leaves alone what the first one changed. */
  ghost predicate Apart(m: Memo, m1: Memo, m2: Memo) {
    && m.preview == m1.preview && m.lastSeen == m1.lastSeen
    && (m1.firing == m.firing || m1.firing == m2.firing) && (m1.level == m.level || m1.level == m2.level)
    && (m1.rate == m.rate || m1.rate == m2.rate) && (m1.stuck == m.stuck || m1.stuck == m2.stuck)
    && (m1.stale == m.stale || m1.stale == m2.stale)
  }

  lemma ShowsAfterBoth(l: Life, l1: Life, l2: Life, pv: Preview, at: int)
    requires Apart(l.memo, l1.memo, l2.memo)
    requires ShowsAfter(l1, l2, PvAfter(l.memo, l1.memo, pv), AtAfter(l.memo, l1.memo, at))
    ensures ShowsAfter(l, l2, pv, at)
  {
  }

  lemma CheckedShows(l: Life, k: Key, c: Rule, now: nat, muted: bool, pv: Preview, at: int)
    requires Shows(l, pv, at)
    ensures ShowsAfter(l, Checked(l, k, c, now, muted), pv, at)
  {
    hide StaleChecked, WindowChecked, StuckChecked, Totals, SilenceIsLong, ValueIsOld, RateHit, LevelVerdict, Shows;
    var l1 := StaleChecked(l, k, c, now, muted);
    StaleCheckedShows(l, k, c, now, muted, pv, at);
    StaleCheckedMemo(l, k, c, now, muted);
    var pv1, at1 := PvAfter(l.memo, l1.memo, pv), AtAfter(l.memo, l1.memo, at);
    var l2 := WindowChecked(l1, k, c, now, muted);
    WindowCheckedShows(l1, k, c, now, muted, pv1, at1);
    WindowCheckedMemo(l1, k, c, now, muted);
    ShowsAfterBoth(l, l1, l2, pv, at);
    StuckCheckedShows(l2, k, c, now, muted, PvAfter(l.memo, l2.memo, pv), AtAfter(l.memo, l2.memo, at));
    StuckCheckedMemo(l2, k, c, now, muted);
    ShowsAfterBoth(l, l2, StuckChecked(l2, k, c, now, muted), pv, at);
  }

  lemma WindowCheckedShows(l: Life, k: Key, c: Rule, now: nat, muted: bool, pv: Preview, at: int)
    requires Shows(l, pv, at)
    ensures ShowsAfter(l, WindowChecked(l, k, c, now, muted), pv, at)
  {
    hide RateChecked, LevelChecked, Totals, RateHit, LevelVerdict;
    if HasWindow(c) && l.memo.win.Some? {
      var t := Totals(l.memo.win.value, now, c.window * 1000);
      var l1 := RateChecked(l, k, c, t, now, muted);
      RateCheckedShows(l, k, c, t, now, muted, pv, at);
      RateCheckedMemo(l, k, c, t, now, muted);
      hide Shows;
      LevelCheckedShows(l1, k, c, t, now, muted, PvAfter(l.memo, l1.memo, pv), AtAfter(l.memo, l1.memo, at));
      LevelCheckedMemo(l1, k, c, t, now, muted);
      ShowsAfterBoth(l, l1, LevelChecked(l1, k, c, t, now, muted), pv, at);
    }
  }

  /** A message up to where the expression is looked at. */
  function NotYetJudged(l: Life, k: Key, c: Rule, m: Message, now: nat, muted: bool): Life {
    var l1 := SilenceEnded(l.(memo := Heard(l.memo, now)), k, m, now, muted);
    ValueSeen(l1.(memo := Sampled(l1.memo, c, m, now)), k, c, m, now, muted)
  }

  lemma NotYetJudgedShows(l: Life, k: Key, c: Rule, m: Message, now: nat, muted: bool, pv: Preview, at: int)
    requires Shows(l, pv, at)
    ensures
      var r := NotYetJudged(l, k, c, m, now, muted);
      && Shows(r, PvAfter(l.memo, r.memo, pv), at)
      && r.memo.lastSeen == now && r.memo.firing == l.memo.firing && r.memo.rate == l.memo.rate
      && r.memo.level == l.memo.level
      && !r.memo.stale && (r.memo.stuck ==> l.memo.stuck)
  {
    hide SilenceEnded, ValueSeen, Noted, Sampled, MemoSeen;
    var l1 := l.(memo := Heard(l.memo, now));
    Frames(l.memo, c, m, now);
    assert Shows(l1, pv, at);
    var l2 := SilenceEnded(l1, k, m, now, muted);
    SilenceEndedShows(l1, k, m, now, muted, pv, at);
    SilenceEndedMemo(l1, k, m, now, muted);
    Frames(l2.memo, c, m, now);
    var l3 := l2.(memo := Sampled(l2.memo, c, m, now));
    assert Shows(l3, PvAfter(l1.memo, l2.memo, pv), at);
    hide Shows;
    ValueSeenShows(l3, k, c, m, now, muted, PvAfter(l1.memo, l2.memo, pv), at);
    ValueSeenMemo(l3, k, c, m, now, muted);
    Frames(l3.memo, c, m, now);
    MemoSeenOnlyFrees(l3.memo, c, m, now);
  }

  lemma ObservedShows(l: Life, k: Key, c: Rule, m: Message, now: nat, muted: bool, pv: Preview, at: int)
    requires Shows(l, pv, at)
    ensures
      var r := Observed(l, k, c, m, now, muted);
      Shows(r, if r.memo.firing && !l.memo.firing then Text(m.preview) else PvAfter(l.memo, r.memo, pv),
            if Begins(l.memo, r.memo) then now else at)
  {
    hide NotYetJudged, Judged, MemoJudged, Shows;
    var l1 := NotYetJudged(l, k, c, m, now, muted);
    NotYetJudgedShows(l, k, c, m, now, muted, pv, at);
    assert Observed(l, k, c, m, now, muted) ==
      Judged(l1, k, c, m, now, muted) by { JudgedLast(l, k, c, m, now, muted); }
    hide Observed;
    JudgedShows(l1, k, c, m, now, muted, PvAfter(l.memo, l1.memo, pv), at);
    JudgedMemo(l1, k, c, m, now, muted);
    Frames(l1.memo, c, m, now);
  }

  lemma JudgedLast(l: Life, k: Key, c: Rule, m: Message, now: nat, muted: bool)
    ensures Observed(l, k, c, m, now, muted) == Judged(NotYetJudged(l, k, c, m, now, muted), k, c, m, now, muted)
  {
    hide SilenceEnded, ValueSeen, Heard, Sampled, Judged;
  }

  lemma MemoSeenOnlyFrees(m: Memo, c: Rule, msg: Message, now: nat)
    ensures MemoSeen(m, c, msg, now).stuck ==> m.stuck
  {
    hide ValueOf;
  }

  function TimeOf(A: seq<Arrival>, n: nat): int
    requires n <= |A|
  {
    if n == 0 then 0 else A[n - 1].now
  }

  /** What a firing alert shows: what fired the rule, or what was remembered when another condition last ended since. */
  function FiringShown(c: Rule, A: seq<Arrival>, e: Option<nat>): Preview
    requires e.Some? ==> e.value <= |A|
  {
    var f := FiredBy(c, A);
    if f.None? then Text("")
    else Text(if e.Some? && e.value > f.value then Remembered(c, A[..e.value]) else A[f.value].m.preview)
  }

  lemma FiringShownOfOneMore(c: Rule, A: seq<Arrival>, a: Arrival, e: Option<nat>)
    requires e.Some? ==> e.value <= |A|
    ensures
      var f, f', B := FiredBy(c, A), FiredBy(c, A + [a]), A + [a];
      && (f.None? && f'.Some? ==>
            f' == Some(|A|) && FiringShown(c, B, e) == FiringShown(c, B, Some(|A|)) == Text(a.m.preview))
      && (f.Some? && f'.Some? ==>
            f == f' && FiringShown(c, B, e) == FiringShown(c, A, e)
              && FiringShown(c, B, Some(|A|)) == Text(Remembered(c, A)))
  {
    var B, f := A + [a], FiredBy(c, A);
    assert B[..|A|] == A && B[|A|] == a;
    assert f.Some? ==> B[f.value] == A[f.value];
    assert e.Some? ==> B[..e.value] == A[..e.value];
    hide Remembered, LastJudged;
  }

  lemma HearShows(l: Life, k: Key, c: Rule, A: seq<Arrival>, m: Message, now: nat, muted: bool, e: Option<nat>, n: nat)
    requires FollowsExpr(l.memo, c, A) && (e.Some? ==> e.value <= |A|) && n <= |A|
    requires Shows(l, FiringShown(c, A, e), TimeOf(A, n))
    ensures
      var r, B := Observed(l, k, c, m, now, muted), A + [Arrival(m, now)];
      Shows(r, FiringShown(c, B, if EndsOther(l.memo, r.memo) then Some(|A|) else e),
            TimeOf(B, if Begins(l.memo, r.memo) then |B| else n))
  {
    hide FiringShown, Observed, MemoHeard, FiredBy, LastJudged, Remembered, Begins, EndsOther, Hits;
    var a := Arrival(m, now);
    var r, B := Observed(l, k, c, m, now, muted), A + [a];
    ObservedShows(l, k, c, m, now, muted, FiringShown(c, A, e), TimeOf(A, n));
    ObservedMemo(l, k, c, m, now, muted);
    HeardExpr(l.memo, c, A, a);
    FiringShownOfOneMore(c, A, a, e);
  }

  lemma CheckShows(l: Life, k: Key, c: Rule, A: seq<Arrival>, now: nat, muted: bool, e: Option<nat>, n: nat)
    requires FollowsExpr(l.memo, c, A) && FollowsClock(l.memo, A) && (e.Some? ==> e.value <= |A|) && n <= |A|
    requires Shows(l, FiringShown(c, A, e), TimeOf(A, n))
    ensures
      var r := Checked(l, k, c, now, muted);
      Shows(r, FiringShown(c, A, if EndsOther(l.memo, r.memo) then Some(|A|) else e),
            TimeOf(A, if Begins(l.memo, r.memo) then |A| else n))
  {
    CheckedShows(l, k, c, now, muted, FiringShown(c, A, e), TimeOf(A, n));
    CheckedMemo(l, k, c, now, muted);
    assert A[..|A|] == A;
    hide Checked, FiredBy, LastJudged, Remembered, Begins, EndsOther, Hits, Totals, SilenceIsLong, ValueIsOld, RateHit,
         LevelVerdict;
  }

  /** Over every run: what a firing alert shows, and the time every alert carries. */
  lemma {:induction false} RunShows(k: Key, c: Rule, steps: seq<Step>)
    requires UnderRule(c, steps) && InTime(steps)
    ensures
      var A := Arrivals(steps);
      Shows(Run(k, steps), FiringShown(c, A, LastEnd(k, steps)), TimeOf(A, LastBegin(k, steps)))
  {
    hide Observed, Checked, Shows, FiringShown, FollowsExpr, FollowsPauses, FollowsValue, FollowsWindow, FollowsClock,
         StillHolds, SameWatch, Begins, EndsOther, TimeOf;
    if steps == [] {
      NoAlertShows(Run(k, []));
    } else {
      var before, last := steps[..|steps| - 1], steps[|steps| - 1];
      UnderRuleBefore(c, steps);
      InTimeBefore(steps);
      var l := Run(k, before);
      if last.Drop? {
        NoAlertShows(Run(k, steps));
      } else {
        RunShows(k, c, before);
        RunFollows(k, c, before);
        var A, e, n := Arrivals(before), LastEnd(k, before), LastBegin(k, before);
        match last {
          case Hear(d, m, now, muted) =>
            SameWatchHears(l, k, d, c, m, now, muted);
            HearShows(l, k, c, A, m, now, muted, e, n);
          case Check(d, now, muted) =>
            SameWatchChecks(l, k, d, c, now, muted);
            CheckShows(l, k, c, A, now, muted, e, n);
          case Refresh(now, muted) => QuietShows(l, k, now, "", muted, FiringShown(c, A, e), TimeOf(A, n));
          case Ack(now, who, acked) => QuietShows(l, k, now, who, acked, FiringShown(c, A, e), TimeOf(A, n));
        }
      }
    }
  }

  lemma NoAlertShows(l: Life)
    requires l.alert.None?
    ensures forall pv, at :: Shows(l, pv, at)
  {
  }

  lemma QuietShows(l: Life, k: Key, now: nat, who: string, flag: bool, pv: Preview, at: int)
    requires Shows(l, pv, at)
    ensures Shows(Refreshed(l, k, now, flag), pv, at) && Shows(Acked(l, now, who, flag), pv, at)
    ensures !Begins(l.memo, Refreshed(l, k, now, flag).memo) && !EndsOther(l.memo, Refreshed(l, k, now, flag).memo)
    ensures !Begins(l.memo, Acked(l, now, who, flag).memo) && !EndsOther(l.memo, Acked(l, now, who, flag).memo)
  {
  }

  /** A rule that has fired without a break since was fired by the same message then. */
  lemma {:induction false} FiredSince(c: Rule, A: seq<Arrival>, e: nat)
    requires FiredBy(c, A).Some? && FiredBy(c, A).value < e <= |A|
    ensures FiredBy(c, A[..e]) == FiredBy(c, A)
  {
    if e == |A| {
      assert A[..e] == A;
    } else {
      assert A[..|A| - 1][..e] == A[..e];
      FiredSince(c, A[..|A| - 1], e);
    }
  }

  /**
   * A firing alert shows the payload that fired the rule. It shows another
   * exactly when that payload was empty, a condition other than the expression
   * has ended since, and before that a message not evaluated had one to show.
   */
  lemma FiringShowsWhatFiredIff(k: Key, c: Rule, steps: seq<Step>)
    requires UnderRule(c, steps) && InTime(steps)
    requires Run(k, steps).alert.Some? && Run(k, steps).alert.value.state.Firing?
    ensures
      var A, shown, e := Arrivals(steps), Run(k, steps).alert.value.preview, LastEnd(k, steps);
      var f := FiredBy(c, A);
      && f.Some?
      && (shown == Text(A[f.value].m.preview) <==>
          A[f.value].m.preview != "" || e.None? || SilentUntil(c, A, f.value + 1, e.value))
  {
    hide FollowsPauses, FollowsValue, FollowsWindow, StillHolds, Run, Arrivals, LastJudged, FiredBy, Remembered, InTime,
         FirstUnjudged, SilentUntil, SpeaksFirst, LastStart, LastEnd, LastBegin, TimeOf, Hits;
    var A, e := Arrivals(steps), LastEnd(k, steps);
    RunFollows(k, c, steps);
    RunShows(k, c, steps);
    var f := FiredBy(c, A).value;
    if e.Some? && e.value > f {
      var B := A[..e.value];
      FiredSince(c, A, e.value);
      FiredByStarts(c, B);
      RememberedIsShown(c, B);
      assert B[f] == A[f];
      SilenceMeans(c, A, f + 1, e.value);
    } else if e.Some? {
      assert SilentUntil(c, A, f + 1, e.value) by { SilentBefore(c, A, f + 1, e.value); }
    }
  }

  lemma SilentBefore(c: Rule, A: seq<Arrival>, from: nat, i: nat)
    requires i <= |A| && i <= from
    ensures SilentUntil(c, A, from, i)
  {
  }

  lemma SilenceMeans(c: Rule, A: seq<Arrival>, from: nat, e: nat)
    requires e <= |A|
    ensures FirstUnjudged(c, A[..e], from) == "" <==> SilentUntil(c, A, from, e)
  {
    hide FirstUnjudged, IsJudged;
    var B := A[..e];
    FirstUnjudgedMeans(c, B, from);
    SilentInFront(c, A, from, e, e);
  }

  /** A rule with nothing but its expression always shows what fired it. */
  lemma {:induction false} ExpressionAloneNeverEnds(k: Key, c: Rule, steps: seq<Step>)
    requires UnderRule(c, steps)
    requires c.staleAfter <= 0 && !c.staleAuto && !HasWindow(c) && c.unchangedFor <= 0
    ensures
      var m := Run(k, steps).memo;
      !m.stale && !m.rate && !m.level && !m.stuck && LastEnd(k, steps) == None
  {
    hide Observed, Checked, SameWatch, MemoHeard;
    if steps != [] && !steps[|steps| - 1].Drop? {
      var before, last := steps[..|steps| - 1], steps[|steps| - 1];
      UnderRuleBefore(c, steps);
      ExpressionAloneNeverEnds(k, c, before);
      var l := Run(k, before);
      match last {
        case Hear(d, m, now, muted) =>
          SameWatchHears(l, k, d, c, m, now, muted);
          ObservedMemo(l, k, c, m, now, muted);
          HeardFlags(l.memo, c, m, now);
        case Check(d, now, muted) =>
          SameWatchChecks(l, k, d, c, now, muted);
          CheckedAlone(l, k, c, now, muted);
        case _ =>
      }
    }
  }

  lemma HeardFlags(m: Memo, c: Rule, msg: Message, now: nat)
    ensures
      var r := MemoHeard(m, c, msg, now);
      r.rate == m.rate && r.level == m.level && !r.stale && (r.stuck ==> m.stuck)
  {
    hide Noted, Sampled, JudgedPart, ValueOf;
    var m1 := Heard(m, now).(stale := false);
    var m2 := Sampled(m1, c, msg, now);
    Frames(m, c, msg, now);
    Frames(m1, c, msg, now);
    Frames(m2, c, msg, now);
  }

  lemma CheckedAlone(l: Life, k: Key, c: Rule, now: nat, muted: bool)
    requires c.staleAfter <= 0 && !c.staleAuto && !HasWindow(c) && c.unchangedFor <= 0
    ensures Checked(l, k, c, now, muted) == l
  {
    hide HasWindow, RateChecked, LevelChecked, Changed;
  }

  // ----- the time an alert carries -----

  lemma {:induction false} WhatHoldsHasBegun(k: Key, c: Rule, steps: seq<Step>)
    requires UnderRule(c, steps) && InTime(steps)
    ensures
      var A, n := Arrivals(steps), LastBegin(k, steps);
      var f := FiredBy(c, A);
      (f.Some? ==> f.value < n) && (Run(k, steps).memo.stale ==> n == |A| > 0)
  {
    hide Observed, Checked, Refreshed, SameWatch, FollowsPauses, FollowsValue, FollowsWindow, LastJudged, Remembered,
         Hits,
         SilenceAllowed, ValueIsOld, MemoHeard, Totals;
    if steps != [] && !steps[|steps| - 1].Drop? {
      var before, last := steps[..|steps| - 1], steps[|steps| - 1];
      UnderRuleBefore(c, steps);
      InTimeBefore(steps);
      WhatHoldsHasBegun(k, c, before);
      RunFollows(k, c, before);
      RunFollows(k, c, steps);
      var l := Run(k, before);
      match last {
        case Hear(d, m, now, muted) =>
          SameWatchHears(l, k, d, c, m, now, muted);
          ObservedMemo(l, k, c, m, now, muted);
          HeardFlags(l.memo, c, m, now);
          assert Arrivals(steps)[..|Arrivals(before)|] == Arrivals(before);
        case Check(d, now, muted) =>
        case Refresh(now, muted) => RefreshedMemo(l, k, now, muted);
        case Ack(_, _, _) =>
      }
    }
  }

  /**
   * An alert carries the time of the last message heard when a condition last
   * began: for a silence the last message before it. A firing alert so carries
   * the time of the message that fired the rule exactly when no later one had
   * been heard before another condition began.
   */
  lemma AlertIsOfLastBegin(k: Key, c: Rule, steps: seq<Step>)
    requires UnderRule(c, steps) && InTime(steps) && Run(k, steps).alert.Some?
    ensures
      var A, a, n := Arrivals(steps), Run(k, steps).alert.value, LastBegin(k, steps);
      var f := FiredBy(c, A);
      && a.at == TimeOf(A, n)
      && (a.state.Stale? ==> n == |A| > 0 && a.at == A[|A| - 1].now)
      && (a.state.Firing? ==>
            f.Some? && f.value < n
              && (a.at == A[f.value].now <==> forall i | f.value < i < n :: A[i].now == A[f.value].now))
  {
    hide FollowsPauses, FollowsValue, FollowsWindow, StillHolds, Run, Arrivals, LastJudged, FiredBy, Remembered, InTime,
         LastEnd, LastBegin, Hits, FiringShown;
    RunFollows(k, c, steps);
    RunShows(k, c, steps);
    WhatHoldsHasBegun(k, c, steps);
    EveryRunIsConsistent(k, steps);
  }

  // ----- runs that show another payload -----

  function Payload(text: string, fires: bool): Message {
    Message("s", text, text, map[], if fires then {"e"} else {})
  }

  const SILENCE_RULE :=
    Rule("r", "silence", "s", "", true, 1, false, 0, None, None, "", "", None, None, 0, 0)

  /** A subject that said "a", then "b", then nothing: the stale alert shows "a". */
  lemma StaleShowsFirst(k: Key)
    ensures
      var c := SILENCE_RULE;
      var l := Run(k,
        [Hear(c, Payload("a", false), 1000, false), Hear(c, Payload("b", false), 2000, false),
          Check(c, 10_000, false)]);
      l.alert.Some? && l.alert.value.state == Stale && l.alert.value.preview == Text("a")
  {
    var c := SILENCE_RULE;
    var steps := [Hear(c, Payload("a", false), 1000, false), Hear(c, Payload("b", false), 2000, false),
      Check(c, 10_000, false)];
    assert steps[..2][..1][..0] == [] && steps[..2][..1] == [steps[0]] && steps[..2] == [steps[0], steps[1]];
    var l0 := Run(k, []);
    var l1 := Observed(l0, k, c, Payload("a", false), 1000, false);
    assert Run(k, [steps[0]]) == l1;
    QuietRule(l0, k, Payload("a", false), 1000);
    var l2 := Observed(l1, k, c, Payload("b", false), 2000, false);
    assert Run(k, [steps[0], steps[1]]) == l2;
    QuietRule(l1, k, Payload("b", false), 2000);
    assert Run(k, steps) == Checked(l2, k, c, 10_000, false);
    QuietTick(l2, k, 10_000);
  }

  lemma QuietRule(l: Life, k: Key, m: Message, now: nat)
    requires l.alert.None? && !l.memo.stale
    ensures
      var r := Observed(l, k, SILENCE_RULE, m, now, false);
      && r.alert == None && !r.memo.stale && r.memo.lastSeen == now
      && r.memo.preview == (if l.memo.preview == "" then m.preview else l.memo.preview)
  {
    hide Noted;
    Frames(l.memo, SILENCE_RULE, m, now);
  }

  lemma QuietTick(l: Life, k: Key, now: nat)
    requires l.alert.None? && !l.memo.stale && l.memo.lastSeen > 0 && now - l.memo.lastSeen > 1000
    ensures
      var r := Checked(l, k, SILENCE_RULE, now, false);
      r.alert.Some? && r.alert.value.state == Stale && r.alert.value.preview == Text(l.memo.preview)
  {
  }

  const HOT_RULE :=
    Rule("r", "hot", "s", "e", true, 1, false, 0, None, None, "", "", None, None, 0, 0)

  function HotThenCool(): seq<Step> {
    var c := HOT_RULE;
    [Hear(c, Payload("hot", true), 1000, false), Hear(c, Payload("cool", false), 3000, false), Check(c, 10_000, false)]
  }

  /** Fired by "hot", ended by "cool", then nothing: the stale alert shows "hot". */
  lemma StaleShowsWhatFired(k: Key)
    ensures
      var l := Run(k, HotThenCool());
      l.alert.Some? && l.alert.value.state == Stale && l.alert.value.preview == Text("hot")
  {
    var c, steps := HOT_RULE, HotThenCool();
    assert steps[..2][..1][..0] == [] && steps[..2][..1] == steps[..1] && steps[..1] == [steps[0]];
    var l0 := Run(k, []);
    var l1 := Observed(l0, k, c, Payload("hot", true), 1000, false);
    HotRuleHears(l0, k, Payload("hot", true), 1000);
    var l2 := Observed(l1, k, c, Payload("cool", false), 3000, false);
    HotRuleHears(l1, k, Payload("cool", false), 3000);
    assert Run(k, steps[..1]) == l1 && Run(k, steps[..2]) == l2 && Run(k, steps) == Checked(l2, k, c, 10_000, false);
    HotRuleWaits(l2, k, 10_000);
  }

  ghost predicate OnlyFires(m: Memo) { !m.stale && !m.level && !m.rate && !m.stuck }

  lemma HotRuleHears(l: Life, k: Key, m: Message, now: nat)
    requires OnlyFires(l.memo) && now - l.memo.lastEval >= EVAL_EVERY
    ensures
      var r := Observed(l, k, HOT_RULE, m, now, false);
      && OnlyFires(r.memo) && r.memo.firing == ("e" in m.holds) && r.memo.lastSeen == now && r.memo.lastEval == now
      && r.memo.preview == (if "e" in m.holds && !l.memo.firing then m.preview else l.memo.preview)
      && (l.memo.firing && "e" !in m.holds ==> r.alert == None)
  {
    hide Noted;
    Frames(l.memo, HOT_RULE, m, now);
  }

  lemma HotRuleWaits(l: Life, k: Key, now: nat)
    requires OnlyFires(l.memo) && l.memo.lastSeen > 0 && now - l.memo.lastSeen > 1000
    ensures
      var r := Checked(l, k, HOT_RULE, now, false);
      r.alert.Some? && r.alert.value.state == Stale && r.alert.value.preview == Text(l.memo.preview)
  {
  }

  const STUCK_RULE :=
    Rule("r", "stuck", "s", "e", true, 0, false, 0, None, None, "", "", None, None, 1, 0)

  function EmptyThenX(): seq<Step> {
    var c := STUCK_RULE;
    [Hear(c, Payload("", true), 1000, false), Hear(c, Payload("x", false), 1500, false),
     Check(c, 5000, false), Hear(c, Payload("y", true), 5100, false)]
  }

  /**
   * Fired by an empty payload, then "x", too soon to be evaluated: the alert
   * still shows nothing. Another condition comes and goes, and it shows "x" and
   * the time of that message.
   */
  lemma EmptyPayloadIsReplaced(k: Key)
    ensures
      var l := Run(k, EmptyThenX()[..2]);
      l.alert.Some? && l.alert.value.state == Firing && l.alert.value.preview == Text("") && l.memo.preview == "x"
    ensures
      var l := Run(k, EmptyThenX());
      l.alert.Some? && l.alert.value.state == Firing && l.alert.value.preview == Text("x") && l.alert.value.at == 1500
  {
    var c, steps := STUCK_RULE, EmptyThenX();
    hide Run, Observed, Checked;
    EmptyThenXRuns(k);
    NothingHeard(k);
    var l0 := Run(k, []);
    var l1 := Observed(l0, k, c, Payload("", true), 1000, false);
    FiringHears(l0, k, Payload("", true), 1000);
    var l2 := Observed(l1, k, c, Payload("x", false), 1500, false);
    FiringHears(l1, k, Payload("x", false), 1500);
    var l3 := Checked(l2, k, c, 5000, false);
    FiringGetsStuck(l2, k, 5000);
    var l4 := Observed(l3, k, c, Payload("y", true), 5100, false);
    FiringHears(l3, k, Payload("y", true), 5100);
  }

  lemma NothingHeard(k: Key)
    ensures Run(k, []).memo == FreshMemo()
  {
  }

  lemma EmptyThenXRuns(k: Key)
    ensures
      var c, steps := STUCK_RULE, EmptyThenX();
      var l1 := Observed(Run(k, []), k, c, Payload("", true), 1000, false);
      var l2 := Observed(l1, k, c, Payload("x", false), 1500, false);
      Run(k, steps[..2]) == l2
        && Run(k, steps) == Observed(Checked(l2, k, c, 5000, false), k, c, Payload("y", true), 5100, false)
  {
    hide Observed, Checked;
    var c, steps := STUCK_RULE, EmptyThenX();
    assert steps[..3][..2][..1][..0] == [] && steps[..2][..1] == [steps[0]] && steps[..3][..2] == steps[..2];
    var l1 := Run(k, steps[..1]);
    assert steps[..1][..0] == [] && l1 == Observed(Run(k, []), k, c, Payload("", true), 1000, false);
    assert steps[..2][..1] == steps[..1];
    assert Run(k, steps[..3]) == Checked(Run(k, steps[..2]), k, c, 5000, false);
  }

  lemma FiringHears(l: Life, k: Key, m: Message, now: nat)
    requires !l.memo.stale && !l.memo.level && !l.memo.rate && now > 0 && l.memo.seen >= 0
    requires m.data != l.memo.lastValue || l.memo.lastChange == 0
    ensures
      var r := Observed(l, k, STUCK_RULE, m, now, false);
      var judged := now - l.memo.lastEval >= EVAL_EVERY;
      && !r.memo.stale && !r.memo.level && !r.memo.rate && !r.memo.stuck && r.memo.win == l.memo.win
      && r.memo.lastValue == m.data && r.memo.lastChange == now && r.memo.seen == l.memo.seen + 1
      && r.memo.lastSeen == now
      && r.memo.lastEval == (if judged then now else l.memo.lastEval)
      && (judged && "e" in m.holds && !l.memo.firing ==>
            && r.memo.firing && r.memo.preview == m.preview
            && r.alert.Some? && r.alert.value.state == Firing && r.alert.value.preview == Text(m.preview))
      && (l.memo.firing && (judged ==> "e" in m.holds) ==>
            && r.memo.firing
            && r.memo.preview == (if !judged && l.memo.preview == "" then m.preview else l.memo.preview)
            && (!l.memo.stuck ==> r.alert == l.alert)
            && (l.memo.stuck && l.alert.Some? ==>
                  && r.alert.Some? && r.alert.value.state == Firing
                  && r.alert.value.preview == Text(l.memo.preview) && r.alert.value.at == l.alert.value.at))
  {
    hide Noted;
    Frames(l.memo, STUCK_RULE, m, now);
  }

  lemma FiringGetsStuck(l: Life, k: Key, now: nat)
    requires !l.memo.stale && !l.memo.stuck && l.memo.win.None?
    requires l.memo.seen >= 2 && l.memo.lastChange != 0 && now - l.memo.lastChange > 1000
    ensures
      var r := Checked(l, k, STUCK_RULE, now, false);
      && r.alert.Some? && r.alert.value.state == Stuck && r.alert.value.at == l.memo.lastSeen
      && r.memo == l.memo.(stuck := true, stuckPreview := r.memo.stuckPreview)
  {
  }
}
