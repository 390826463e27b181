/**
 * What the conditions of a rule say about the messages really heard (alerts/alerts.go), over every
 * run under that rule.
 */
module AlertTraffic {
  import opened Wrappers
  import opened Window
  import opened AlertRules
  import opened AlertRuns
  import Sorting

  // ----- what was heard -----

  datatype Arrival = Arrival(m: Message, now: nat)

  /** The messages since the memory last started over. */
  function Arrivals(steps: seq<Step>): seq<Arrival> {
    if steps == [] then []
    else
      var before := Arrivals(steps[..|steps| - 1]);
      match steps[|steps| - 1]
      case Hear(_, m, now, _) => before + [Arrival(m, now)]
      case Drop => []
      case _ => before
  }

  ghost predicate SameSinceDrop(steps: seq<Step>, i: nat) {
    forall j | i < j < |steps| :: !steps[j].Drop?
  }

  /**
   * Since the memory last started over, messages and ticks met this rule or
   * one that watches the same: muting or renaming a rule keeps the memory.
   */
  ghost predicate UnderRule(c: Rule, steps: seq<Step>) {
    forall i | 0 <= i < |steps| && (steps[i].Hear? || steps[i].Check?) && SameSinceDrop(steps, i) ::
      SameWatch(steps[i].c, c)
  }

  lemma UnderRuleBefore(c: Rule, steps: seq<Step>)
    requires steps != [] && UnderRule(c, steps)
    ensures
      var last := steps[|steps| - 1];
      && (!last.Drop? ==> UnderRule(c, steps[..|steps| - 1]))
      && (last.Hear? || last.Check? ==> SameWatch(last.c, c))
  {
    var n := |steps| - 1;
    var before := steps[..n];
    hide SameWatch;
    assert SameSinceDrop(steps, n);
    if !steps[n].Drop? {
      forall i | 0 <= i < n && SameSinceDrop(before, i) ensures SameSinceDrop(steps, i) {
        assert forall j | i < j < n :: !before[j].Drop?;
      }
    }
  }

  lemma UnderRuleOfOneMore(c: Rule, steps: seq<Step>, s: Step)
    requires s.Drop? || UnderRule(c, steps)
    requires s.Hear? || s.Check? ==> SameWatch(s.c, c)
    ensures UnderRule(c, steps + [s])
  {
    hide SameWatch;
    var all := steps + [s];
    forall i | 0 <= i < |steps| && SameSinceDrop(all, i)
      ensures !s.Drop? && SameSinceDrop(steps, i) && all[i] == steps[i]
    {
      assert all[|steps|] == s && forall j | i < j < |steps| :: all[j] == steps[j];
    }
  }

  /** What was heard under a rule was heard under any that watches the same. */
  lemma UnderSameWatch(c: Rule, d: Rule, steps: seq<Step>)
    requires UnderRule(c, steps) && SameWatch(d, c)
    ensures UnderRule(d, steps)
  {
  }

  lemma InTimeBefore(steps: seq<Step>)
    requires steps != [] && InTime(steps)
    ensures InTime(steps[..|steps| - 1])
  {
    var before := steps[..|steps| - 1];
    assert forall i | 0 <= i < |before| :: steps[..i] == before[..i] && steps[i] == before[i];
  }

  lemma SameWatchSees(c: Rule, d: Rule, m: Message)
    requires SameWatch(c, d)
    ensures HasWindow(c) == HasWindow(d) && HasAggregate(c) == HasAggregate(d)
    ensures FieldOf(c, m) == FieldOf(d, m) && ValueOf(c, m) == ValueOf(d, m)
  {
  }

  lemma SameWatchSamples(memo: Memo, c: Rule, d: Rule, m: Message, now: nat)
    requires SameWatch(c, d)
    ensures Sampled(memo, c, m, now) == Sampled(memo, d, m, now)
  {
    hide FieldOf, HasWindow, ValueOf, Added, NewRing;
    SameWatchSees(c, d, m);
  }

  lemma SameWatchSeesValue(l: Life, k: Key, c: Rule, d: Rule, m: Message, now: nat, muted: bool)
    requires SameWatch(c, d)
    ensures ValueSeen(l, k, c, m, now, muted) == ValueSeen(l, k, d, m, now, muted)
  {
    hide FieldOf, HasWindow, ValueOf, Cleared;
    SameWatchSees(c, d, m);
  }

  lemma SameWatchJudges(l: Life, k: Key, c: Rule, d: Rule, m: Message, now: nat, muted: bool)
    requires SameWatch(c, d)
    ensures Judged(l, k, c, m, now, muted) == Judged(l, k, d, m, now, muted)
  {
    hide Cleared, Changed;
  }

  /** A message does the same under rules that watch the same. */
  lemma SameWatchHears(l: Life, k: Key, c: Rule, d: Rule, m: Message, now: nat, muted: bool)
    requires SameWatch(c, d)
    ensures Observed(l, k, c, m, now, muted) == Observed(l, k, d, m, now, muted)
  {
    hide SilenceEnded, Sampled, ValueSeen, Judged, Heard, SameWatch;
    var l1 := SilenceEnded(l.(memo := Heard(l.memo, now)), k, m, now, muted);
    SameWatchSamples(l1.memo, c, d, m, now);
    var l2 := l1.(memo := Sampled(l1.memo, c, m, now));
    SameWatchSeesValue(l2, k, c, d, m, now, muted);
    SameWatchJudges(ValueSeen(l2, k, c, m, now, muted), k, c, d, m, now, muted);
  }

  lemma SameWatchChecksStale(l: Life, k: Key, c: Rule, d: Rule, now: nat, muted: bool)
    requires SameWatch(c, d)
    ensures StaleChecked(l, k, c, now, muted) == StaleChecked(l, k, d, now, muted)
  {
    hide TypicalGap, Changed;
  }

  lemma SameWatchChecksRate(l: Life, k: Key, c: Rule, d: Rule, t: Stats, now: nat, muted: bool)
    requires SameWatch(c, d)
    ensures RateChecked(l, k, c, t, now, muted) == RateChecked(l, k, d, t, now, muted)
  {
    hide Cleared, Changed, Updated;
  }

  lemma SameWatchChecksLevel(l: Life, k: Key, c: Rule, d: Rule, t: Stats, now: nat, muted: bool)
    requires SameWatch(c, d)
    ensures LevelChecked(l, k, c, t, now, muted) == LevelChecked(l, k, d, t, now, muted)
  {
    hide Cleared, Changed, Updated;
    assert LevelVerdict(c, t) == LevelVerdict(d, t);
    hide LevelVerdict;
  }

  lemma SameWatchChecksStuck(l: Life, k: Key, c: Rule, d: Rule, now: nat, muted: bool)
    requires SameWatch(c, d)
    ensures StuckChecked(l, k, c, now, muted) == StuckChecked(l, k, d, now, muted)
  {
    hide Changed;
  }

  /** And so does a tick. */
  lemma SameWatchChecks(l: Life, k: Key, c: Rule, d: Rule, now: nat, muted: bool)
    requires SameWatch(c, d)
    ensures Checked(l, k, c, now, muted) == Checked(l, k, d, now, muted)
  {
    hide StaleChecked, RateChecked, LevelChecked, StuckChecked, Totals;
    var l1 := StaleChecked(l, k, c, now, muted);
    SameWatchChecksStale(l, k, c, d, now, muted);
    if HasWindow(c) && l1.memo.win.Some? {
      var t := Totals(l1.memo.win.value, now, c.window * 1000);
      SameWatchChecksRate(l1, k, c, d, t, now, muted);
      SameWatchChecksLevel(RateChecked(l1, k, c, t, now, muted), k, c, d, t, now, muted);
    }
    SameWatchChecksStuck(WindowChecked(l1, k, c, now, muted), k, c, d, now, muted);
  }

  /** The clock, as far as messages and ticks have shown it. */
  function Clock(steps: seq<Step>): nat {
    if steps == [] then 0
    else
      match steps[|steps| - 1]
      case Hear(_, _, now, _) => now
      case Check(_, now, _) => now
      case _ => Clock(steps[..|steps| - 1])
  }

  /** Messages and ticks in the order of a clock that has left zero. */
  ghost predicate InTime(steps: seq<Step>) {
    forall i | 0 <= i < |steps| && (steps[i].Hear? || steps[i].Check?) ::
      steps[i].now > 0 && Clock(steps[..i]) <= steps[i].now
  }

  // ----- the memory alone -----

  /** What a message does to the memory, whatever the alert. */
  function MemoHeard(m: Memo, c: Rule, msg: Message, now: nat): Memo {
    MemoJudged(MemoSeen(Sampled(Heard(m, now).(stale := false), c, msg, now), c, msg, now), c, msg, now)
  }

  function MemoSeen(m: Memo, c: Rule, msg: Message, now: nat): Memo {
    if c.unchangedFor > 0 && (m.lastChange == 0 || ValueOf(c, msg) != m.lastValue)
    then m.(lastValue := ValueOf(c, msg), lastChange := now, stuck := false)
    else m
  }

  datatype ExprPart = ExprPart(lastEval: int, firing: bool, preview: string)

  function JudgedPart(p: ExprPart, c: Rule, msg: Message, now: nat): ExprPart {
    if c.expr != "" && now - p.lastEval >= EVAL_EVERY then
      var hit := c.expr in msg.holds;
      ExprPart(now, hit, if hit && !p.firing then msg.preview else p.preview)
    else if p.preview == "" then p.(preview := msg.preview)
    else p
  }

  function PartOf(m: Memo): ExprPart { ExprPart(m.lastEval, m.firing, m.preview) }

  function MemoJudged(m: Memo, c: Rule, msg: Message, now: nat): Memo {
    var p := JudgedPart(PartOf(m), c, msg, now);
    m.(lastEval := p.lastEval, firing := p.firing, preview := p.preview)
  }

  lemma SilenceEndedMemo(l: Life, k: Key, m: Message, now: nat, muted: bool)
    ensures SilenceEnded(l, k, m, now, muted).memo == l.memo.(stale := false)
  {
    hide Changed, Cleared;
  }

  lemma ValueSeenMemo(l: Life, k: Key, c: Rule, m: Message, now: nat, muted: bool)
    ensures ValueSeen(l, k, c, m, now, muted).memo == MemoSeen(l.memo, c, m, now)
  {
    hide Changed, Cleared, ValueOf;
  }

  lemma EvaluatedMemo(l: Life, k: Key, c: Rule, m: Message, now: nat, muted: bool)
    ensures
      var hit := c.expr in m.holds;
      Evaluated(l, k, c, m, now, muted).memo ==
      l.memo.(firing := hit, preview := if hit && !l.memo.firing then m.preview else l.memo.preview)
  {
    hide Changed, Cleared;
  }

  lemma JudgedMemo(l: Life, k: Key, c: Rule, m: Message, now: nat, muted: bool)
    ensures Judged(l, k, c, m, now, muted).memo == MemoJudged(l.memo, c, m, now)
  {
    hide Evaluated;
    EvaluatedMemo(l.(memo := l.memo.(lastEval := now)), k, c, m, now, muted);
  }

  lemma ObservedMemo(l: Life, k: Key, c: Rule, m: Message, now: nat, muted: bool)
    ensures Observed(l, k, c, m, now, muted).memo == MemoHeard(l.memo, c, m, now)
  {
    hide SilenceEnded, ValueSeen, Judged, MemoSeen, MemoJudged, Heard, Sampled;
    var l1 := l.(memo := Heard(l.memo, now));
    SilenceEndedMemo(l1, k, m, now, muted);
    var l2 := SilenceEnded(l1, k, m, now, muted);
    var l3 := l2.(memo := Sampled(l2.memo, c, m, now));
    ValueSeenMemo(l3, k, c, m, now, muted);
    JudgedMemo(ValueSeen(l3, k, c, m, now, muted), k, c, m, now, muted);
  }

  predicate SilenceIsLong(c: Rule, m: Memo, now: nat) {
    var allowed := SilenceAllowed(c, m);
    allowed.Some? && m.lastSeen > 0 && now - m.lastSeen > allowed.value
  }

  predicate ValueIsOld(c: Rule, m: Memo, now: nat) {
    c.unchangedFor > 0 && m.seen >= 2 && m.lastChange != 0 && now - m.lastChange > c.unchangedFor * 1000
  }

  /** What a tick leaves in the memory, condition by condition. */
  ghost predicate MemoChecked(m: Memo, r: Memo, c: Rule, now: nat) {
    && SameButConditions(m, r)
    && r.stale == (m.stale || SilenceIsLong(c, m, now))
    && r.stuck == (m.stuck || ValueIsOld(c, m, now))
    && r.rate == (if HasCount(c) && m.win.Some? then RateHit(c, m, TotalsOf(c, m, now).count, now) else m.rate)
    && r.level == (if HasLevel(c) && m.win.Some? then LevelVerdict(c, TotalsOf(c, m, now)).0 else m.level)
    && (HasCount(c) && m.win.Some? && r.rate ==> r.ratePreview == RateVerdict(c, TotalsOf(c, m, now).count).1)
    && (HasLevel(c) && m.win.Some? && r.level ==> r.levelPreview == LevelVerdict(c, TotalsOf(c, m, now)).1)
  }

  predicate HasCount(c: Rule) { HasWindow(c) && (c.minCount.Some? || c.maxCount.Some?) }

  predicate HasLevel(c: Rule) { HasWindow(c) && HasAggregate(c) }

  function TotalsOf(c: Rule, m: Memo, now: nat): Stats
    requires m.win.Some?
  {
    Totals(m.win.value, now, c.window * 1000)
  }

  /** A tick changes nothing in the memory but what a tick decides. */
  ghost predicate SameButConditions(m: Memo, r: Memo) {
    r == m.(stale := r.stale, stuck := r.stuck, rate := r.rate, level := r.level,
            ratePreview := r.ratePreview, levelPreview := r.levelPreview, stuckPreview := r.stuckPreview)
  }

  lemma StaleCheckedMemo(l: Life, k: Key, c: Rule, now: nat, muted: bool)
    ensures StaleChecked(l, k, c, now, muted).memo == l.memo.(stale := l.memo.stale || SilenceIsLong(c, l.memo, now))
  {
    hide Changed, SilenceAllowed;
  }

  lemma RateCheckedMemo(l: Life, k: Key, c: Rule, t: Stats, now: nat, muted: bool)
    ensures
      var m, r := l.memo, RateChecked(l, k, c, t, now, muted).memo;
      var hit := if c.minCount.Some? || c.maxCount.Some? then RateHit(c, m, t.count, now) else m.rate;
      && r == m.(rate := hit, ratePreview := r.ratePreview)
      && ((c.minCount.Some? || c.maxCount.Some?) && r.rate ==> r.ratePreview == RateVerdict(c, t.count).1)
  {
    hide Changed, Cleared, Updated, RateHit, RateVerdict;
  }

  lemma LevelCheckedMemo(l: Life, k: Key, c: Rule, t: Stats, now: nat, muted: bool)
    ensures
      var m, r := l.memo, LevelChecked(l, k, c, t, now, muted).memo;
      && r == m.(level := if HasAggregate(c) then LevelVerdict(c, t).0 else m.level, levelPreview := r.levelPreview)
      && (HasAggregate(c) && r.level ==> r.levelPreview == LevelVerdict(c, t).1)
  {
    hide Changed, Cleared, Updated, LevelVerdict;
  }

  lemma StuckCheckedMemo(l: Life, k: Key, c: Rule, now: nat, muted: bool)
    ensures
      var m, r := l.memo, StuckChecked(l, k, c, now, muted).memo;
      r == m.(stuck := m.stuck || ValueIsOld(c, m, now), stuckPreview := r.stuckPreview)
  {
    hide Changed;
  }

  lemma WindowCheckedMemo(l: Life, k: Key, c: Rule, now: nat, muted: bool)
    ensures
      var m, r := l.memo, WindowChecked(l, k, c, now, muted).memo;
      && r == m.(rate := r.rate, ratePreview := r.ratePreview, level := r.level, levelPreview := r.levelPreview)
      && r.rate == (if HasCount(c) && m.win.Some? then RateHit(c, m, TotalsOf(c, m, now).count, now) else m.rate)
      && r.level == (if HasLevel(c) && m.win.Some? then LevelVerdict(c, TotalsOf(c, m, now)).0 else m.level)
      && (HasCount(c) && m.win.Some? && r.rate ==> r.ratePreview == RateVerdict(c, TotalsOf(c, m, now).count).1)
      && (HasLevel(c) && m.win.Some? && r.level ==> r.levelPreview == LevelVerdict(c, TotalsOf(c, m, now)).1)
  {
    hide RateVerdict, RateChecked, LevelChecked, RateHit, LevelVerdict, Totals;
    if HasWindow(c) && l.memo.win.Some? {
      var t := Totals(l.memo.win.value, now, c.window * 1000);
      RateCheckedMemo(l, k, c, t, now, muted);
      LevelCheckedMemo(RateChecked(l, k, c, t, now, muted), k, c, t, now, muted);
    }
  }

  lemma CheckedMemo(l: Life, k: Key, c: Rule, now: nat, muted: bool)
    ensures MemoChecked(l.memo, Checked(l, k, c, now, muted).memo, c, now)
  {
    hide StaleChecked, WindowChecked, StuckChecked, LevelVerdict, RateVerdict, Totals, SilenceAllowed;
    var l1 := StaleChecked(l, k, c, now, muted);
    StaleCheckedMemo(l, k, c, now, muted);
    WindowCheckedMemo(l1, k, c, now, muted);
    StuckCheckedMemo(WindowChecked(l1, k, c, now, muted), k, c, now, muted);
  }

  // ----- what the memory should hold -----

  ghost predicate Ordered(A: seq<Arrival>, t: nat) {
    && (forall i | 0 <= i < |A| :: 0 < A[i].now <= t)
    && forall i, j | 0 <= i < j < |A| :: A[i].now <= A[j].now
  }

  ghost predicate FollowsClock(m: Memo, A: seq<Arrival>) {
    && m.seen == |A|
    && m.firstSeen == (if A == [] then 0 else A[0].now)
    && m.lastSeen == (if A == [] then 0 else A[|A| - 1].now)
  }

  /** The time that passed from one message to the next, where any did. */
  function Pauses(A: seq<Arrival>): seq<int> {
    if |A| < 2 then []
    else
      var d := A[|A| - 1].now - A[|A| - 2].now;
      Pauses(A[..|A| - 1]) + if d > 0 then [d] else []
  }

  function LastPauses(A: seq<Arrival>): seq<int> {
    var p := Pauses(A);
    if |p| > STALE_WINDOW then p[|p| - STALE_WINDOW..] else p
  }

  /** The ring holds the last sixteen pauses. */
  ghost predicate FollowsPauses(m: Memo, A: seq<Arrival>) {
    var p := Pauses(A);
    && m.gapsN == |p|
    && forall i | 0 <= i < |p| && |p| - STALE_WINDOW <= i :: m.gaps[i % STALE_WINDOW] == p[i]
  }

  /** What a rule that waits for a change looks at: the whole payload, or its field, which may be missing. */
  function Looked(c: Rule, m: Message): string {
    if c.field == "" then m.data else if c.field in m.fields then m.fields[c.field].text else MISSING
  }

  lemma ValueIsLooked(c: Rule, m: Message)
    requires c.unchangedFor > 0
    ensures ValueOf(c, m) == Looked(c, m)
  {
  }

  /** The message since which the value has been the one it is now. */
  function UnchangedSince(c: Rule, A: seq<Arrival>): (i: nat)
    requires A != []
    ensures i < |A|
  {
    var n := |A| - 1;
    if n == 0 || Looked(c, A[n].m) != Looked(c, A[n - 1].m) then n else UnchangedSince(c, A[..n])
  }

  lemma {:induction false} UnchangedSinceIs(c: Rule, A: seq<Arrival>)
    requires A != []
    ensures
      var i := UnchangedSince(c, A);
      && (forall j | i <= j < |A| :: Looked(c, A[j].m) == Looked(c, A[|A| - 1].m))
      && (i > 0 ==> Looked(c, A[i - 1].m) != Looked(c, A[i].m))
  {
    hide Looked;
    var n := |A| - 1;
    if n > 0 && Looked(c, A[n].m) == Looked(c, A[n - 1].m) {
      UnchangedSinceIs(c, A[..n]);
      assert forall j | 0 <= j < n :: A[..n][j] == A[j];
    }
  }

  ghost predicate FollowsValue(m: Memo, c: Rule, A: seq<Arrival>) {
    c.unchangedFor > 0 ==>
      if A == [] then m.lastChange == 0
      else m.lastValue == Looked(c, A[|A| - 1].m) && m.lastChange == A[UnchangedSince(c, A)].now
  }

  /** The last message the expression was evaluated for: at most one in a second is. */
  function LastJudged(c: Rule, A: seq<Arrival>): (j: Option<nat>)
    ensures j.Some? ==> j.value < |A|
  {
    if A == [] || c.expr == "" then None
    else
      var n, before := |A| - 1, LastJudged(c, A[..|A| - 1]);
      if A[n].now - (if before.Some? then A[before.value].now else 0) >= EVAL_EVERY then Some(n) else before
  }

  predicate Hits(c: Rule, a: Arrival) { c.expr in a.m.holds }

  /** The message that fired the rule, while it fires. */
  function FiredBy(c: Rule, A: seq<Arrival>): (f: Option<nat>)
    ensures f.Some? ==> f.value < |A|
  {
    if A == [] then None
    else
      var n, before := |A| - 1, FiredBy(c, A[..|A| - 1]);
      if LastJudged(c, A) != Some(n) then before
      else if !Hits(c, A[n]) then None
      else if before.Some? then before else Some(n)
  }

  /** The payload kept for the alert: the one that fired last, and while that is empty the next one not evaluated. */
  function Remembered(c: Rule, A: seq<Arrival>): string {
    if A == [] then ""
    else
      var n, before := |A| - 1, Remembered(c, A[..|A| - 1]);
      if LastJudged(c, A) == Some(n) then
        if Hits(c, A[n]) && FiredBy(c, A[..n]).None? then A[n].m.preview else before
      else if before == "" then A[n].m.preview else before
  }

  ghost predicate FollowsExpr(m: Memo, c: Rule, A: seq<Arrival>) {
    var j := LastJudged(c, A);
    && m.lastEval == (if j.Some? then A[j.value].now else 0)
    && m.firing == (j.Some? && Hits(c, A[j.value]))
    && (m.firing <==> FiredBy(c, A).Some?)
    && m.preview == Remembered(c, A)
  }

  function SampleOf(c: Rule, a: Arrival): Sample {
    var f := FieldOf(c, a.m);
    Sample(a.now, if f.Some? then f.value.number else None)
  }

  /** The messages as the window sees them. */
  function Samples(c: Rule, A: seq<Arrival>): (s: seq<Sample>)
    ensures |s| == |A|
  {
    seq(|A|, i requires 0 <= i < |A| => SampleOf(c, A[i]))
  }

  ghost predicate FollowsWindow(m: Memo, c: Rule, A: seq<Arrival>) {
    && (HasWindow(c) ==> m.win == if A == [] then None else Some(After(c.window, Samples(c, A))))
    && (!HasCount(c) || A == [] ==> !m.rate)
    && (!HasLevel(c) || A == [] ==> !m.level)
  }

  /** What once held still holds, as nothing was heard since that ends it. */
  ghost predicate StillHolds(m: Memo, c: Rule, t: nat) {
    (m.stale ==> SilenceIsLong(c, m, t)) && (m.stuck ==> ValueIsOld(c, m, t))
  }

  ghost predicate Follows(m: Memo, c: Rule, A: seq<Arrival>, t: nat) {
    && Ordered(A, t) && FollowsClock(m, A) && FollowsPauses(m, A) && FollowsValue(m, c, A)
    && FollowsExpr(m, c, A) && FollowsWindow(m, c, A) && StillHolds(m, c, t)
  }

  // ----- and does -----

  lemma Frames(m: Memo, c: Rule, msg: Message, now: nat)
    ensures var r := Noted(m, now); r == m.(gaps := r.gaps, gapsN := r.gapsN)
    ensures var r := Sampled(m, c, msg, now); r == m.(win := r.win)
    ensures var r := MemoSeen(m, c, msg, now);
      r == m.(lastValue := r.lastValue, lastChange := r.lastChange, stuck := r.stuck)
    ensures var r := MemoJudged(m, c, msg, now);
      r == m.(lastEval := r.lastEval, firing := r.firing, preview := r.preview)
  {
    hide ValueOf, FieldOf, Added, JudgedPart;
  }

  lemma SampledWindow(m: Memo, m': Memo, c: Rule, msg: Message, now: nat)
    requires m.win == m'.win
    ensures Sampled(m, c, msg, now).win == Sampled(m', c, msg, now).win
  {
  }

  /** What a message leaves in the memory, part by part. */
  lemma HeardParts(m: Memo, c: Rule, msg: Message, now: nat)
    ensures
      var r, seen := MemoHeard(m, c, msg, now), MemoSeen(m, c, msg, now);
      && r.seen == m.seen + 1 && r.lastSeen == now && !r.stale
      && r.firstSeen == (if m.firstSeen == 0 then now else m.firstSeen)
      && r.gaps == Noted(m, now).gaps && r.gapsN == Noted(m, now).gapsN
      && r.win == Sampled(m, c, msg, now).win && r.rate == m.rate && r.level == m.level
      && r.lastValue == seen.lastValue && r.lastChange == seen.lastChange && r.stuck == seen.stuck
  {
    hide Noted, Sampled, MemoSeen, MemoJudged;
    var m1 := Heard(m, now).(stale := false);
    var m2 := Sampled(m1, c, msg, now);
    var m3 := MemoSeen(m2, c, msg, now);
    Frames(m, c, msg, now);
    Frames(m1, c, msg, now);
    Frames(m2, c, msg, now);
    Frames(m3, c, msg, now);
    SampledWindow(m, m1, c, msg, now);
    SeenParts(m, m2, c, msg, now);
  }

  lemma SeenParts(m: Memo, m': Memo, c: Rule, msg: Message, now: nat)
    requires m.lastChange == m'.lastChange && m.lastValue == m'.lastValue && m.stuck == m'.stuck
    ensures
      var r, r' := MemoSeen(m, c, msg, now), MemoSeen(m', c, msg, now);
      r.lastChange == r'.lastChange && r.lastValue == r'.lastValue && r.stuck == r'.stuck
  {
    hide ValueOf;
  }

  lemma HeardExprParts(m: Memo, c: Rule, msg: Message, now: nat)
    ensures PartOf(MemoHeard(m, c, msg, now)) == JudgedPart(PartOf(m), c, msg, now)
  {
    hide Noted, Sampled, MemoSeen, JudgedPart;
    var m1 := Heard(m, now).(stale := false);
    var m2 := Sampled(m1, c, msg, now);
    Frames(m, c, msg, now);
    Frames(m1, c, msg, now);
    Frames(m2, c, msg, now);
  }

  lemma HeardClock(m: Memo, c: Rule, A: seq<Arrival>, t: nat, a: Arrival)
    requires FollowsClock(m, A) && Ordered(A, t) && 0 < a.now && t <= a.now
    ensures FollowsClock(MemoHeard(m, c, a.m, a.now), A + [a]) && Ordered(A + [a], a.now)
  {
    hide MemoHeard;
    HeardParts(m, c, a.m, a.now);
  }

  lemma HeardPauses(m: Memo, c: Rule, A: seq<Arrival>, t: nat, a: Arrival)
    requires FollowsClock(m, A) && FollowsPauses(m, A) && Ordered(A, t) && t <= a.now
    ensures FollowsPauses(MemoHeard(m, c, a.m, a.now), A + [a])
  {
    hide MemoHeard;
    HeardParts(m, c, a.m, a.now);
    PausesOfOneMore(A, a);
    var n := m.gapsN;
    forall i | n - STALE_WINDOW < i < n ensures i % STALE_WINDOW != n % STALE_WINDOW {
      SlotsDiffer(i, n);
    }
    hide Pauses;
  }

  lemma PausesOfOneMore(A: seq<Arrival>, a: Arrival)
    ensures
      Pauses(A + [a]) ==
      Pauses(A) + if A != [] && a.now > A[|A| - 1].now then [a.now - A[|A| - 1].now] else []
  {
    hide Pauses;
    var B := A + [a];
    assert B[..|B| - 1] == A && B[|B| - 1] == a;
    PausesUnfold(B);
    if A == [] {
      PausesUnfold(A);
    } else {
      assert B[|B| - 2] == A[|A| - 1];
    }
  }

  lemma PausesUnfold(A: seq<Arrival>)
    ensures
      Pauses(A) ==
      if |A| < 2 then []
      else
        Pauses(A[..|A| - 1]) + if A[|A| - 1].now > A[|A| - 2].now then [A[|A| - 1].now - A[|A| - 2].now] else []
  {
  }

  lemma SlotsDiffer(i: int, n: int)
    requires n - STALE_WINDOW < i < n
    ensures i % STALE_WINDOW != n % STALE_WINDOW
  {
  }

  lemma HeardValue(m: Memo, c: Rule, A: seq<Arrival>, t: nat, a: Arrival)
    requires FollowsValue(m, c, A) && Ordered(A, t) && t <= a.now
    ensures FollowsValue(MemoHeard(m, c, a.m, a.now), c, A + [a])
  {
    hide MemoHeard, ValueOf, Looked, UnchangedSince;
    HeardParts(m, c, a.m, a.now);
    if c.unchangedFor > 0 {
      ValueIsLooked(c, a.m);
      UnchangedOfOneMore(c, A, a);
    }
  }

  lemma UnchangedOfOneMore(c: Rule, A: seq<Arrival>, a: Arrival)
    ensures
      var B := A + [a];
      && (A == [] ==> UnchangedSince(c, B) == 0)
      && (A != [] ==>
            && UnchangedSince(c, B) ==
               (if Looked(c, a.m) != Looked(c, A[|A| - 1].m) then |A| else UnchangedSince(c, A))
            && B[UnchangedSince(c, A)] == A[UnchangedSince(c, A)])
  {
    hide Looked;
    assert (A + [a])[..|A|] == A && (A + [a])[|A|] == a;
  }

  lemma HeardExpr(m: Memo, c: Rule, A: seq<Arrival>, a: Arrival)
    requires FollowsExpr(m, c, A)
    ensures FollowsExpr(MemoHeard(m, c, a.m, a.now), c, A + [a])
  {
    hide MemoHeard;
    HeardExprParts(m, c, a.m, a.now);
    assert (A + [a])[..|A|] == A;
    var j := LastJudged(c, A);
    assert j.Some? ==> (A + [a])[j.value] == A[j.value];
  }

  lemma HeardWindow(m: Memo, c: Rule, A: seq<Arrival>, a: Arrival)
    requires FollowsWindow(m, c, A)
    ensures FollowsWindow(MemoHeard(m, c, a.m, a.now), c, A + [a])
  {
    hide MemoHeard, Added;
    HeardParts(m, c, a.m, a.now);
    var s := Samples(c, A + [a]);
    assert s[..|A|] == Samples(c, A);
    assert s[|A|] == SampleOf(c, a);
  }

  lemma HeardHolds(m: Memo, c: Rule, t: nat, a: Arrival)
    requires StillHolds(m, c, t) && t <= a.now
    ensures StillHolds(MemoHeard(m, c, a.m, a.now), c, a.now)
  {
    hide MemoHeard, ValueOf, SilenceAllowed;
    HeardParts(m, c, a.m, a.now);
  }

  lemma HeardFollows(m: Memo, c: Rule, A: seq<Arrival>, t: nat, a: Arrival)
    requires Follows(m, c, A, t) && 0 < a.now && t <= a.now
    ensures Follows(MemoHeard(m, c, a.m, a.now), c, A + [a], a.now)
  {
    hide MemoHeard, Ordered, FollowsPauses, FollowsValue, FollowsExpr, FollowsWindow, StillHolds;
    HeardClock(m, c, A, t, a);
    HeardPauses(m, c, A, t, a);
    HeardValue(m, c, A, t, a);
    HeardExpr(m, c, A, a);
    HeardWindow(m, c, A, a);
    HeardHolds(m, c, t, a);
  }

  lemma CheckedFollows(m: Memo, r: Memo, c: Rule, A: seq<Arrival>, t: nat, now: nat)
    requires Follows(m, c, A, t) && t <= now && MemoChecked(m, r, c, now)
    ensures Follows(r, c, A, now)
  {
    hide Pauses, UnchangedSince, LastJudged, FiredBy, Remembered, Totals, RateHit, LevelVerdict, SilenceAllowed;
    assert SilenceAllowed(c, r) == SilenceAllowed(c, m) by { SameSilence(c, m, r); }
  }

  lemma SameSilence(c: Rule, m: Memo, r: Memo)
    requires m.gaps == r.gaps && m.gapsN == r.gapsN
    ensures SilenceAllowed(c, m) == SilenceAllowed(c, r)
  {
  }

  lemma FreshFollows(c: Rule, t: nat)
    ensures Follows(FreshMemo(), c, [], t)
  {
  }

  /** Over every run under one rule the memory says what the messages since the last start say. */
  lemma {:induction false} RunFollows(k: Key, c: Rule, steps: seq<Step>)
    requires UnderRule(c, steps) && InTime(steps)
    ensures Follows(Run(k, steps).memo, c, Arrivals(steps), Clock(steps))
  {
    hide Observed, Checked, Refreshed, Follows, MemoHeard, MemoChecked, SameWatch;
    if steps == [] {
      FreshFollows(c, 0);
    } else {
      var n := |steps| - 1;
      var before, last := steps[..n], steps[n];
      UnderRuleBefore(c, steps);
      InTimeBefore(steps);
      if !last.Drop? {
        RunFollows(k, c, before);
      }
      var l := Run(k, before);
      match last
      case Hear(d, m, now, muted) =>
        SameWatchHears(l, k, d, c, m, now, muted);
        ObservedMemo(l, k, c, m, now, muted);
        HeardFollows(l.memo, c, Arrivals(before), Clock(before), Arrival(m, now));
      case Check(d, now, muted) =>
        SameWatchChecks(l, k, d, c, now, muted);
        CheckedMemo(l, k, c, now, muted);
        CheckedFollows(l.memo, Checked(l, k, c, now, muted).memo, c, Arrivals(before), Clock(before), now);
      case Refresh(now, muted) => RefreshedMemo(l, k, now, muted);
      case Ack(_, _, _) =>
      case Drop => FreshFollows(c, Clock(before));
    }
  }

  lemma RefreshedMemo(l: Life, k: Key, now: nat, muted: bool)
    ensures Refreshed(l, k, now, muted).memo == l.memo
  {
  }

  // ----- the learned silence -----

  function Sum(s: seq<int>): int {
    if s == [] then 0 else Sum(s[..|s| - 1]) + s[|s| - 1]
  }

  /**
   * Pauses are positive, end where a message was heard, and make up the whole time from the first
   * message to the last.
   */
  lemma {:induction false} PausesFillTheTime(A: seq<Arrival>, t: nat)
    requires Ordered(A, t)
    ensures forall p | p in Pauses(A) :: p > 0 && exists i :: 0 < i < |A| && A[i].now - A[i - 1].now == p
    ensures Sum(Pauses(A)) == if A == [] then 0 else A[|A| - 1].now - A[0].now
  {
    if |A| >= 2 {
      var n := |A| - 1;
      PausesFillTheTime(A[..n], t);
      PausesUnfold(A);
      hide Pauses;
      var d := A[n].now - A[n - 1].now;
      var p, q := Pauses(A[..n]), Pauses(A);
      if d > 0 {
        assert q == p + [d] && q[..|q| - 1] == p && q[|q| - 1] == d;
      } else {
        assert p + [] == p;
      }
      assert A[..n][n - 1] == A[n - 1] && A[..n][0] == A[0];
    } else {
      PausesUnfold(A);
    }
  }

  /** The ring and the last sixteen pauses hold the same numbers. */
  lemma RingHoldsLastPauses(m: Memo, A: seq<Arrival>)
    requires FollowsPauses(m, A)
    ensures
      var n := if m.gapsN > STALE_WINDOW then STALE_WINDOW else m.gapsN;
      n == |LastPauses(A)| && multiset(m.gaps[..n]) == multiset(LastPauses(A))
  {
    var p, last := Pauses(A), LastPauses(A);
    var n, r := |p|, |p| % STALE_WINDOW;
    if n <= STALE_WINDOW {
      assert m.gaps[..n] == last;
    } else {
      forall x | 0 <= x < STALE_WINDOW ensures last[x] == (m.gaps[r..] + m.gaps[..r])[x] {
        var i := n - STALE_WINDOW + x;
        SlotOf(n, x);
        assert last[x] == p[i] == m.gaps[i % STALE_WINDOW];
      }
      assert last == m.gaps[r..] + m.gaps[..r];
      assert m.gaps == m.gaps[..r] + m.gaps[r..] && m.gaps[..STALE_WINDOW] == m.gaps;
    }
  }

  lemma SlotOf(n: nat, x: nat)
    requires n > STALE_WINDOW && x < STALE_WINDOW
    ensures
      var r := n % STALE_WINDOW;
      (n - STALE_WINDOW + x) % STALE_WINDOW == if r + x < STALE_WINDOW then r + x else r + x - STALE_WINDOW
  {
  }

  /** The pause a subject normally has: the upper quartile of its last pauses, 0 before there are eight. */
  function Typical(pauses: seq<int>): (g: int)
    ensures |pauses| < STALE_MIN_GAPS ==> g == 0
    ensures
      |pauses| >= STALE_MIN_GAPS ==>
      && g in pauses
      && Sorting.AtMost(pauses, g) > |pauses| * 3 / 4
      && Sorting.AtLeast(pauses, g) >= |pauses| - |pauses| * 3 / 4
  {
    if |pauses| < STALE_MIN_GAPS then 0
    else
      Sorting.KthOfSorted(pauses, |pauses| * 3 / 4);
      Sorting.Sort(pauses)[|pauses| * 3 / 4]
  }

  /** What the memory computes from its ring is that quartile of the pauses really heard. */
  lemma TypicalGapIsQuartile(m: Memo, A: seq<Arrival>)
    requires FollowsPauses(m, A)
    ensures TypicalGap(m) == Typical(LastPauses(A))
  {
    hide LastPauses;
    RingHoldsLastPauses(m, A);
    var n := if m.gapsN > STALE_WINDOW then STALE_WINDOW else m.gapsN;
    Sorting.SortOfSame(m.gaps[..n], LastPauses(A));
  }

  /** How long a silence may last after these pauses, when the rule looks at silence and there is a rhythm. */
  function SilenceFor(c: Rule, pauses: seq<int>): Option<int> {
    if c.staleAfter <= 0 && !c.staleAuto then None
    else if !c.staleAuto then Some(c.staleAfter * 1000)
    else
      var learned := Typical(pauses) * STALE_FACTOR;
      if learned == 0 then None
      else if learned > c.staleAfter * 1000 then Some(learned) else Some(c.staleAfter * 1000)
  }

  lemma SilenceOfTraffic(m: Memo, c: Rule, A: seq<Arrival>)
    requires FollowsPauses(m, A)
    ensures SilenceAllowed(c, m) == SilenceFor(c, LastPauses(A))
  {
    hide Typical, TypicalGap, LastPauses;
    TypicalGapIsQuartile(m, A);
  }

  // ----- the five conditions -----

  /** A tick after a run, in the order of time. */
  ghost predicate TickAfter(c: Rule, steps: seq<Step>, now: nat) {
    UnderRule(c, steps) && InTime(steps) && 0 < now && Clock(steps) <= now
  }

  lemma AfterTick(k: Key, c: Rule, steps: seq<Step>, now: nat, muted: bool)
    requires TickAfter(c, steps, now)
    ensures
      var m, r := Run(k, steps).memo, Run(k, steps + [Check(c, now, muted)]).memo;
      Follows(m, c, Arrivals(steps), Clock(steps)) && MemoChecked(m, r, c, now)
  {
    hide Checked, Follows, MemoChecked;
    var all := steps + [Check(c, now, muted)];
    assert all[..|all| - 1] == steps;
    RunFollows(k, c, steps);
    CheckedMemo(Run(k, steps), k, c, now, muted);
  }

  /**
   * The silence is longer than the rule allows, or if it learns than that and than ten of the usual
   * pauses, once there are any.
   */
  predicate SilentTooLong(c: Rule, A: seq<Arrival>, now: nat) {
    A != [] &&
    var quiet, usual := now - A[|A| - 1].now, Typical(LastPauses(A));
    && quiet > c.staleAfter * 1000
    && (if c.staleAuto then usual != 0 && quiet > usual * STALE_FACTOR else c.staleAfter > 0)
  }

  /** After a tick a subject is stale exactly when its silence is longer than its pauses allow. */
  lemma StaleFollowsTraffic(k: Key, c: Rule, steps: seq<Step>, now: nat, muted: bool)
    requires TickAfter(c, steps, now)
    ensures Run(k, steps + [Check(c, now, muted)]).memo.stale <==> SilentTooLong(c, Arrivals(steps), now)
  {
    hide SilenceAllowed, LastPauses, FollowsPauses, FollowsValue, FollowsExpr, FollowsWindow, Run, Arrivals,
         Totals, Typical;
    AfterTick(k, c, steps, now, muted);
    SilenceOfTraffic(Run(k, steps).memo, c, Arrivals(steps));
  }

  predicate UnchangedTooLong(c: Rule, A: seq<Arrival>, now: nat) {
    c.unchangedFor > 0 && |A| >= 2 && now - A[UnchangedSince(c, A)].now > c.unchangedFor * 1000
  }

  /**
   * After a tick a value is stuck exactly when it was heard twice or more and has not changed for
   * longer than the rule allows.
   */
  lemma StuckFollowsTraffic(k: Key, c: Rule, steps: seq<Step>, now: nat, muted: bool)
    requires TickAfter(c, steps, now)
    ensures Run(k, steps + [Check(c, now, muted)]).memo.stuck <==> UnchangedTooLong(c, Arrivals(steps), now)
  {
    hide SilenceIsLong, FollowsPauses, FollowsExpr, FollowsWindow, Run, Arrivals, Totals, UnchangedSince;
    AfterTick(k, c, steps, now, muted);
  }

  /** The messages with the numbers in the rule's field. */
  function Readings(c: Rule, A: seq<Arrival>): (s: seq<Sample>)
    ensures |s| == |A|
  {
    seq(|A|, i requires 0 <= i < |A| =>
      Sample(A[i].now, if c.field in A[i].m.fields then A[i].m.fields[c.field].number else None))
  }

  lemma SamplesAreReadings(c: Rule, A: seq<Arrival>)
    ensures |Samples(c, A)| == |A| && forall i | 0 <= i < |A| ::
      Samples(c, A)[i].time == Readings(c, A)[i].time == A[i].now
    ensures HasLevel(c) ==> Samples(c, A) == Readings(c, A)
  {
  }

  /** Which of the messages fell into the slots the window counts. */
  ghost function InWindow(c: Rule, A: seq<Arrival>, now: nat): set<nat>
    requires c.window > 0
  {
    var size, heard := NewRing(c.window).size, Readings(c, A);
    Picked(heard, size, Counted(heard, size, GoDiv(now - c.window * 1000, size)))
  }

  lemma {:induction false} SameTimesAreCounted(a: seq<Sample>, b: seq<Sample>, size: int, first: int)
    requires size >= 1 && |a| == |b| && forall i | 0 <= i < |a| :: a[i].time == b[i].time
    ensures Counted(a, size, first) == Counted(b, size, first)
    ensures Picked(a, size, Counted(a, size, first)) == Picked(b, size, Counted(b, size, first))
  {
    forall x ensures HasSlot(a, size, x) <==> HasSlot(b, size, x) {
      HasSlotByIndex(a, size, x);
      HasSlotByIndex(b, size, x);
    }
    forall x ensures Kept(a, size, x) <==> Kept(b, size, x) {
      KeptByIndex(a, size, x);
      KeptByIndex(b, size, x);
    }
  }

  lemma HasSlotByIndex(a: seq<Sample>, size: int, slot: int)
    requires size >= 1
    ensures HasSlot(a, size, slot) <==> exists i :: 0 <= i < |a| && a[i].time / size == slot
  {
  }

  lemma KeptByIndex(a: seq<Sample>, size: int, slot: int)
    requires size >= 1
    ensures Kept(a, size, slot) <==>
      forall i | 0 <= i < |a| && a[i].time / size % WIN_BUCKETS == slot % WIN_BUCKETS :: a[i].time / size <= slot
  {
  }

  /** By age those are all messages younger than the window but for a sixtieth, and none a sixtieth older. */
  lemma InWindowByAge(c: Rule, A: seq<Arrival>, now: nat, i: nat)
    requires c.window > 0 && Ordered(A, now) && i < |A|
    ensures 60 * (now - A[i].now) <= 59 * (c.window * 1000 - 59) ==> i in InWindow(c, A, now)
    ensures 60 * (now - A[i].now) >= 61 * (c.window * 1000) ==> i !in InWindow(c, A, now)
  {
    var heard := Readings(c, A);
    assert heard[i] in heard;
    CountedByAge(c.window, heard, now, heard[i]);
  }

  /** The totals of the window are those of these messages. */
  lemma WindowOfTraffic(k: Key, c: Rule, steps: seq<Step>, now: nat)
    requires TickAfter(c, steps, now) && HasWindow(c) && Arrivals(steps) != []
    ensures
      var A, m := Arrivals(steps), Run(k, steps).memo;
      && m.win.Some? && TotalsOf(c, m, now).count == |InWindow(c, A, now)|
      && (HasLevel(c) ==> IsOf(TotalsOf(c, m, now), Readings(c, A), InWindow(c, A, now)))
  {
    hide Totals, StatsOf, Counted, FollowsClock, FollowsPauses, FollowsExpr, FollowsValue, StillHolds, Run, After,
         NewRing, Picked, IsLeast, IsGreatest, Arrivals, GoDiv;
    RunFollows(k, c, steps);
    var A := Arrivals(steps);
    SamplesAreReadings(c, A);
    var size := NewRing(c.window).size;
    SameTimesAreCounted(Samples(c, A), Readings(c, A), size, GoDiv(now - c.window * 1000, size));
    TotalsAreExact(c.window, Samples(c, A), now, c.window * 1000);
  }

  /** Too many were heard in the window, or too few and a whole window has passed since the first. */
  ghost predicate CountOutOfBounds(c: Rule, A: seq<Arrival>, now: nat) {
    c.window > 0 && A != [] &&
    var count := |InWindow(c, A, now)|;
    if c.minCount.Some? && count < c.minCount.value then now - A[0].now >= c.window * 1000
    else c.maxCount.Some? && count > c.maxCount.value
  }

  /** What a rule out of its bounds shows: how many there were, and on which side. */
  ghost predicate ShowsCount(pv: Preview, c: Rule, A: seq<Arrival>, now: nat)
    requires c.window > 0
  {
    var count := |InWindow(c, A, now)|;
    pv == CountText(count, if c.minCount.Some? && count < c.minCount.value then Under else Over)
  }

  /**
   * After a tick the rate condition holds exactly when too few or too many were heard, too few only
   * after a whole window, and it then reads that count.
   */
  lemma RateFollowsTraffic(k: Key, c: Rule, steps: seq<Step>, now: nat, muted: bool)
    requires TickAfter(c, steps, now)
    ensures
      var A, r := Arrivals(steps), Run(k, steps + [Check(c, now, muted)]).memo;
      (r.rate <==> CountOutOfBounds(c, A, now)) && (r.rate ==> c.window > 0 && ShowsCount(r.ratePreview, c, A, now))
  {
    hide TotalsOf, InWindow, FollowsPauses, FollowsValue, FollowsExpr, StillHolds, Run, Arrivals, SilenceIsLong,
         LevelVerdict, IsOf;
    AfterTick(k, c, steps, now, muted);
    if HasWindow(c) && Arrivals(steps) != [] {
      WindowOfTraffic(k, c, steps, now);
    }
  }

  /** The least, the greatest or the average of the numbers heard in the window, if there are any. */
  ghost predicate IsAggregate(v: real, c: Rule, A: seq<Arrival>, now: nat)
    requires c.window > 0
  {
    var heard, picked := Readings(c, A), InWindow(c, A, now);
    var n := |Numbered(heard, picked)|;
    && n > 0
    && if c.agg == "min" then IsLeast(v, heard, picked)
       else if c.agg == "max" then IsGreatest(v, heard, picked)
       else IsShare(v, n, Total(heard, picked))
  }

  /** So many of it make the total. */
  ghost predicate IsShare(v: real, n: nat, total: real) { v * n as real == total }

  predicate IsOut(v: real, c: Rule) { (c.above.Some? && v > c.above.value) || (c.below.Some? && v < c.below.value) }

  /** The chosen aggregate of the numbers heard in the window exists and is too high or too low. */
  ghost predicate AggregateOutOfBounds(c: Rule, A: seq<Arrival>, now: nat) {
    c.window > 0 && c.field != "" && exists v :: IsAggregate(v, c, A, now) && IsOut(v, c)
  }

  /** What it then shows: that number, and on which side. */
  ghost predicate ShowsLevel(pv: Preview, c: Rule, A: seq<Arrival>, now: nat)
    requires c.window > 0
  {
    && pv.LevelText? && IsAggregate(pv.v, c, A, now)
    && pv.side == if c.above.Some? && pv.v > c.above.value then Over else Under
  }

  lemma AggregateIsOne(v: real, w: real, c: Rule, A: seq<Arrival>, now: nat)
    requires c.window > 0 && IsAggregate(v, c, A, now) && IsAggregate(w, c, A, now)
    ensures v == w
  {
    hide Readings, InWindow, Total, Numbered, IsShare;
    var heard, picked := Readings(c, A), InWindow(c, A, now);
    if c.agg != "min" && c.agg != "max" {
      SameShare(v, w, |Numbered(heard, picked)|, Total(heard, picked));
    }
  }

  lemma SameShare(v: real, w: real, n: nat, total: real)
    requires n > 0 && IsShare(v, n, total) && IsShare(w, n, total)
    ensures v == w
  {
    assert (v - w) * n as real == 0.0;
  }

  /** What the rule's verdict computes is that aggregate. */
  lemma VerdictIsOfAggregate(t: Stats, c: Rule, A: seq<Arrival>, now: nat)
    requires c.window > 0 && IsOf(t, Readings(c, A), InWindow(c, A, now))
    ensures
      if t.n == 0 then forall v :: !IsAggregate(v, c, A, now)
      else IsAggregate(if c.agg == "min" then t.min else if c.agg == "max" then t.max
        else t.sum / t.n as real, c, A, now)
  {
    hide Readings, InWindow, Total, Numbered, IsLeast, IsGreatest, IsShare;
    if t.n > 0 {
      QuotientIsShare(t.sum, t.n);
    }
  }

  lemma QuotientIsShare(x: real, n: nat)
    requires n > 0
    ensures IsShare(x / n as real, n, x)
  {
  }

  /**
   * After a tick the level condition holds exactly when the chosen aggregate of the numbers heard is
   * out of bounds, and it then reads that aggregate.
   */
  lemma LevelFollowsTraffic(k: Key, c: Rule, steps: seq<Step>, now: nat, muted: bool)
    requires TickAfter(c, steps, now)
    ensures
      var A, r := Arrivals(steps), Run(k, steps + [Check(c, now, muted)]).memo;
      (r.level <==> AggregateOutOfBounds(c, A, now))
        && (r.level ==> c.window > 0 && ShowsLevel(r.levelPreview, c, A, now))
  {
    hide TotalsOf, InWindow, FollowsPauses, FollowsValue, FollowsExpr, StillHolds, Run, Arrivals, SilenceIsLong,
         RateHit, IsAggregate, IsOf;
    var A := Arrivals(steps);
    AfterTick(k, c, steps, now, muted);
    if HasLevel(c) && A != [] {
      WindowOfTraffic(k, c, steps, now);
      VerdictIsOfAggregate(TotalsOf(c, Run(k, steps).memo, now), c, A, now);
      forall v, w | IsAggregate(v, c, A, now) && IsAggregate(w, c, A, now) ensures v == w {
        AggregateIsOne(v, w, c, A, now);
      }
    } else if c.window > 0 && A == [] {
      NothingHasNoAggregate(c, now);
    }
  }

  lemma NothingHasNoAggregate(c: Rule, now: nat)
    requires c.window > 0
    ensures forall v :: !IsAggregate(v, c, [], now)
  {
    assert Numbered(Readings(c, []), InWindow(c, [], now)) == {};
  }

  /** The expression was true of the last message it was evaluated for. */
  predicate LastJudgedHits(c: Rule, A: seq<Arrival>) {
    var j := LastJudged(c, A);
    j.Some? && Hits(c, A[j.value])
  }

  /** A rule fires exactly when its expression was true of the last message it was evaluated for. */
  lemma FiringFollowsTraffic(k: Key, c: Rule, steps: seq<Step>)
    requires UnderRule(c, steps) && InTime(steps)
    ensures Run(k, steps).memo.firing <==> LastJudgedHits(c, Arrivals(steps))
  {
    hide FollowsPauses, FollowsValue, FollowsWindow, StillHolds, Run, Arrivals, LastJudged, FiredBy, Remembered;
    RunFollows(k, c, steps);
  }
  /** All five conditions, as the messages heard decide them at a tick. */
  ghost predicate TickDecided(m: Memo, c: Rule, A: seq<Arrival>, now: nat) {
    && (m.stale <==> SilentTooLong(c, A, now))
    && (m.stuck <==> UnchangedTooLong(c, A, now))
    && (m.rate <==> CountOutOfBounds(c, A, now))
    && (m.level <==> AggregateOutOfBounds(c, A, now))
    && (m.rate ==> c.window > 0 && ShowsCount(m.ratePreview, c, A, now))
    && (m.level ==> c.window > 0 && ShowsLevel(m.levelPreview, c, A, now))
    && (m.firing <==> LastJudgedHits(c, A))
  }

  lemma TickKeepsFiring(k: Key, c: Rule, steps: seq<Step>, now: nat, muted: bool)
    requires TickAfter(c, steps, now)
    ensures Run(k, steps + [Check(c, now, muted)]).memo.firing == Run(k, steps).memo.firing
  {
    hide Run, TickAfter, SilenceIsLong, ValueIsOld, RateHit, LevelVerdict, TotalsOf;
    AfterTick(k, c, steps, now, muted);
  }

  lemma TickDecides(k: Key, c: Rule, steps: seq<Step>, now: nat, muted: bool)
    requires TickAfter(c, steps, now)
    ensures TickDecided(Run(k, steps + [Check(c, now, muted)]).memo, c, Arrivals(steps), now)
  {
    hide SilentTooLong, UnchangedTooLong, InWindow, IsAggregate, ShowsCount, ShowsLevel, LastJudgedHits, Run, InTime,
         UnderRule;
    StaleFollowsTraffic(k, c, steps, now, muted);
    StuckFollowsTraffic(k, c, steps, now, muted);
    RateFollowsTraffic(k, c, steps, now, muted);
    LevelFollowsTraffic(k, c, steps, now, muted);
    FiringFollowsTraffic(k, c, steps);
    TickKeepsFiring(k, c, steps, now, muted);
  }
}
