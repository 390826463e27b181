/**
 * Who is told what, and when: the events every step of a run logs and the alert it leaves, by the
 * five conditions before and after it (alerts/alerts.go).
 */
module AlertEvents {
  import opened Wrappers
  import opened Window
  import opened AlertRules
  import opened AlertRuns
  import opened AlertTraffic
  import AlertShows

  // ----- what should be told -----

  ghost predicate Ends(m: Memo, r: Memo, s: State) { Holds(m, s) && !Holds(r, s) }

  ghost predicate Starts(m: Memo, r: Memo, s: State) { !Holds(m, s) && Holds(r, s) }

  /** Something held, and none of it holds any more. */
  ghost predicate AllEnded(m: Memo, r: Memo) {
    AnyHolds(m) && !Lasts(m, r)
  }

  ghost predicate Lasts(m: Memo, r: Memo) {
    (m.firing && r.firing) || (m.level && r.level) || (m.rate && r.rate) || (m.stuck && r.stuck) || (m.stale && r.stale)
  }

  /**
   * A message ends silences, changes values and is evaluated. Where with it everything ends that held,
   * one event says Resolved; where the rule begins to fire, one says so. There are no others.
   */
  ghost predicate MessageTold(l: Life, r: Life, k: Key, m: Message, now: nat, muted: bool) {
    && !r.memo.stale && (r.memo.stuck ==> l.memo.stuck) && r.memo.level == l.memo.level && r.memo.rate == l.memo.rate
    && r.log == l.log
      + (if AllEnded(l.memo, r.memo) then [Event(now, k, Resolved, Text(m.preview), muted)] else [])
      + (if Starts(l.memo, r.memo, Firing) then [Event(now, k, Firing, Text(m.preview), muted)] else [])
  }

  /** What is said of one condition at a tick: that it begins, or Resolved if it ends and nothing else holds then. */
  ghost function Said(begins: bool, resolves: bool, s: State, reading: Preview, now: nat, k: Key, muted: bool,
                      last: Preview): seq<Event> {
    if begins then [Event(now, k, s, reading, muted)] else if resolves then [Event(now, k, Resolved, last, muted)]
      else []
  }

  /** A tick looks at silence, count, aggregate and value in turn, and says of each what has become of it. */
  ghost predicate TickTold(l: Life, r: Life, k: Key, now: nat, muted: bool, counted: Preview, aggregated: Preview) {
    var m, t := l.memo, r.memo;
    && m.firing == t.firing && (m.stale ==> t.stale) && (m.stuck ==> t.stuck) &&
    var afterRate := m.firing || m.level || m.stuck || t.stale;
    var afterLevel := m.firing || t.rate || m.stuck || t.stale;
    r.log == l.log
      + Said(Starts(m, t, Stale), false, Stale, Text(m.preview), now, k, muted, Text(""))
      + Said(Starts(m, t, Rate), Ends(m, t, Rate) && !afterRate, Rate, t.ratePreview, now, k, muted, counted)
      + Said(Starts(m, t, Level), Ends(m, t, Level) && !afterLevel, Level, t.levelPreview, now, k, muted, aggregated)
      + Said(Starts(m, t, Stuck), false, Stuck, t.stuckPreview, now, k, muted, Text(""))
  }

  /** How much a condition matters. */
  function Rank(s: State): nat {
    match s
    case Firing => 5
    case Level => 4
    case Rate => 3
    case Stuck => 2
    case Stale => 1
    case Resolved => 0
  }

  ghost predicate IsTop(s: State, m: Memo) { Holds(m, s) && forall t | Holds(m, t) :: Rank(t) <= Rank(s) }

  /** A condition that begins starts the alert anew, at this time and with this mute; otherwise those stay. */
  ghost predicate AlertKept(l: Life, r: Life, now: nat, muted: bool) {
    if AlertShows.Begins(l.memo, r.memo) then
      r.alert.Some? && r.alert.value.since == now && r.alert.value.muted == muted
      && r.alert.value.ackedAt == 0 && r.alert.value.ackedBy == ""
    else
      r.alert.Some? ==>
        && l.alert.Some? && r.alert.value.since == l.alert.value.since && r.alert.value.muted == l.alert.value.muted
        && r.alert.value.ackedAt == l.alert.value.ackedAt && r.alert.value.ackedBy == l.alert.value.ackedBy
  }

  // ----- one condition at a time -----

  ghost predicate SameFlags(m: Memo, r: Memo) { OthersSame(m, r, Resolved) }

  /** All conditions but this one are as before. */
  ghost predicate OthersSame(m: Memo, r: Memo, s: State) {
    && (s.Firing? || m.firing == r.firing) && (s.Level? || m.level == r.level) && (s.Rate? || m.rate == r.rate)
    && (s.Stuck? || m.stuck == r.stuck) && (s.Stale? || m.stale == r.stale)
  }

  /** What one part of a step does: it decides the condition s and no other. */
  ghost predicate PartTold(l: Life, r: Life, k: Key, s: State, reading: Preview, last: Preview, now: nat, muted: bool) {
    && OthersSame(l.memo, r.memo, s)
    && PartLogged(l, r, k, s, reading, last, now, muted) && AlertKept(l, r, now, muted) && PartShown(l, r, s)
    && (l.alert.Some? && AnyHolds(r.memo) ==> r.alert.Some?)
  }

  ghost predicate PartLogged(l: Life, r: Life, k: Key, s: State, reading: Preview, last: Preview, now: nat,
                             muted: bool) {
    r.log == l.log
      + Said(Starts(l.memo, r.memo, s), Ends(l.memo, r.memo, s) && !AnyHolds(r.memo), s, reading, now, k, muted, last)
  }

  ghost predicate PartShown(l: Life, r: Life, s: State) {
    r.alert.Some? ==>
      if Starts(l.memo, r.memo, s) then r.alert.value.state == s
      else if Ends(l.memo, r.memo, s) then IsTop(r.alert.value.state, r.memo)
      else l.alert.Some? && r.alert.value.state == l.alert.value.state
  }

  lemma ChangedTells(l: Life, k: Key, s: State, m: Memo, reading: Preview, last: Preview, now: nat, muted: bool)
    requires Starts(l.memo, m, s) && OthersSame(l.memo, m, s)
    ensures PartTold(l, Changed(l.(memo := m), k, s, reading, now, muted), k, s, reading, last, now, muted)
  {
  }

  /** What an alert falls back to is the condition that matters most of those that hold. */
  lemma CurrentIsTop(m: Memo)
    ensures if Current(m).None? then !AnyHolds(m) else AnyHolds(m) && IsTop(Current(m).value.0, m)
  {
  }

  lemma ClearedTells(l: Life, k: Key, s: State, m: Memo, reading: Preview, last: Preview, now: nat, muted: bool)
    requires Ends(l.memo, m, s) && OthersSame(l.memo, m, s)
    ensures PartTold(l, Cleared(l.(memo := m), k, last, now, muted), k, s, reading, last, now, muted)
  {
    CurrentIsTop(m);
    hide IsTop;
    if Current(m).None? {
      LastClearedTells(l, k, s, m, reading, last, now, muted);
    } else {
      OneClearedTells(l, k, s, m, reading, last, now, muted);
    }
  }

  lemma LastClearedTells(l: Life, k: Key, s: State, m: Memo, reading: Preview, last: Preview, now: nat, muted: bool)
    requires Ends(l.memo, m, s) && OthersSame(l.memo, m, s) && Current(m).None?
    ensures PartTold(l, Cleared(l.(memo := m), k, last, now, muted), k, s, reading, last, now, muted)
  {
    CurrentIsTop(m);
    EndBeginsNothing(l.memo, m, s);
    hide IsTop, Current, AlertShows.Begins, OthersSame, Holds, AnyHolds;
  }

  lemma EndBeginsNothing(m: Memo, r: Memo, s: State)
    requires OthersSame(m, r, s) && !Starts(m, r, s)
    ensures !AlertShows.Begins(m, r)
  {
  }

  lemma OneClearedTells(l: Life, k: Key, s: State, m: Memo, reading: Preview, last: Preview, now: nat, muted: bool)
    requires Ends(l.memo, m, s) && OthersSame(l.memo, m, s) && Current(m).Some?
    ensures PartTold(l, Cleared(l.(memo := m), k, last, now, muted), k, s, reading, last, now, muted)
  {
    hide PartTold, Ends, OthersSame, AnyHolds, IsTop;
    CurrentIsTop(m);
    RestatedTells(l, Cleared(l.(memo := m), k, last, now, muted), k, s, reading, last, now, muted);
  }

  /** The alert shows another condition, and nothing is said. */
  lemma RestatedTells(l: Life, r: Life, k: Key, s: State, reading: Preview, last: Preview, now: nat, muted: bool)
    requires Ends(l.memo, r.memo, s) && OthersSame(l.memo, r.memo, s) && AnyHolds(r.memo)
    requires r.log == l.log && (r.alert.Some? <==> l.alert.Some?)
    requires r.alert.Some? ==>
      && r.alert.value == l.alert.value.(state := r.alert.value.state, preview := r.alert.value.preview)
      && IsTop(r.alert.value.state, r.memo)
    ensures PartTold(l, r, k, s, reading, last, now, muted)
  {
    hide IsTop, OthersSame;
    EndBeginsNothing(l.memo, r.memo, s);
    hide AlertShows.Begins, Holds, AnyHolds;
    assert l.log + [] == l.log;
  }

  lemma QuietTells(l: Life, r: Life, k: Key, s: State, reading: Preview, last: Preview, now: nat, muted: bool)
    requires SameFlags(l.memo, r.memo)
    requires r.log == l.log && (r.alert.Some? <==> l.alert.Some?)
    requires r.alert.Some? ==> r.alert == Some(l.alert.value.(preview := r.alert.value.preview))
    ensures PartTold(l, r, k, s, reading, last, now, muted)
  {
    assert !Starts(l.memo, r.memo, s) && !Ends(l.memo, r.memo, s) && OthersSame(l.memo, r.memo, s);
    EndBeginsNothing(l.memo, r.memo, s);
    hide IsTop, AlertShows.Begins, OthersSame, Starts, Ends, Holds, AnyHolds;
  }

  lemma SilenceEndedTells(l: Life, k: Key, m: Message, now: nat, muted: bool)
    ensures PartTold(l, SilenceEnded(l, k, m, now, muted), k, Stale, Text(""), Text(m.preview), now, muted)
  {
    hide Changed, Cleared, PartTold;
    if l.memo.stale {
      ClearedTells(l, k, Stale, l.memo.(stale := false), Text(""), Text(m.preview), now, muted);
    } else {
      QuietTells(l, l, k, Stale, Text(""), Text(m.preview), now, muted);
    }
  }

  lemma ValueSeenTells(l: Life, k: Key, c: Rule, m: Message, now: nat, muted: bool)
    ensures PartTold(l, ValueSeen(l, k, c, m, now, muted), k, Stuck, Text(""), Text(m.preview), now, muted)
  {
    hide Changed, Cleared, PartTold, ValueOf;
    var m1 := l.memo.(lastValue := ValueOf(c, m), lastChange := now);
    if c.unchangedFor > 0 && (l.memo.lastChange == 0 || ValueOf(c, m) != l.memo.lastValue) && l.memo.stuck {
      ClearedTells(l, k, Stuck, m1.(stuck := false), Text(""), Text(m.preview), now, muted);
    } else {
      QuietTells(l, ValueSeen(l, k, c, m, now, muted), k, Stuck, Text(""), Text(m.preview), now, muted);
    }
  }

  lemma JudgedTells(l: Life, k: Key, c: Rule, m: Message, now: nat, muted: bool)
    ensures PartTold(l, Judged(l, k, c, m, now, muted), k, Firing, Text(m.preview), Text(m.preview), now, muted)
  {
    hide Changed, Cleared, PartTold;
    var hit, pv, m1 := c.expr in m.holds, Text(m.preview), l.memo.(lastEval := now);
    if c.expr != "" && now - l.memo.lastEval >= EVAL_EVERY && hit && !l.memo.firing {
      ChangedTells(l, k, Firing, m1.(firing := true, preview := m.preview), pv, pv, now, muted);
    } else if c.expr != "" && now - l.memo.lastEval >= EVAL_EVERY && !hit && l.memo.firing {
      ClearedTells(l, k, Firing, m1.(firing := false), pv, pv, now, muted);
    } else {
      QuietTells(l, Judged(l, k, c, m, now, muted), k, Firing, pv, pv, now, muted);
    }
  }

  lemma StaleCheckedTells(l: Life, k: Key, c: Rule, now: nat, muted: bool)
    ensures PartTold(l, StaleChecked(l, k, c, now, muted), k, Stale, Text(l.memo.preview), Text(""), now, muted)
  {
    hide Changed, PartTold, SilenceAllowed;
    if SilenceIsLong(c, l.memo, now) && !l.memo.stale {
      ChangedTells(l, k, Stale, l.memo.(stale := true), Text(l.memo.preview), Text(""), now, muted);
    } else {
      QuietTells(l, l, k, Stale, Text(l.memo.preview), Text(""), now, muted);
    }
  }

  lemma RateCheckedTells(l: Life, k: Key, c: Rule, t: Stats, now: nat, muted: bool)
    ensures
      var r := RateChecked(l, k, c, t, now, muted);
      PartTold(l, r, k, Rate, r.memo.ratePreview, RateVerdict(c, t.count).1, now, muted)
  {
    hide Changed, Cleared, PartTold, RateHit, RateVerdict;
    var hit, pv, r := RateHit(c, l.memo, t.count, now), RateVerdict(c, t.count).1, RateChecked(l, k, c, t, now, muted);
    if (c.minCount.Some? || c.maxCount.Some?) && hit && !l.memo.rate {
      ChangedTells(l, k, Rate, l.memo.(rate := true, ratePreview := pv), pv, pv, now, muted);
    } else if (c.minCount.Some? || c.maxCount.Some?) && !hit && l.memo.rate {
      ClearedTells(l, k, Rate, l.memo.(rate := false), r.memo.ratePreview, pv, now, muted);
    } else {
      QuietTells(l, r, k, Rate, r.memo.ratePreview, pv, now, muted);
    }
  }

  lemma LevelCheckedTells(l: Life, k: Key, c: Rule, t: Stats, now: nat, muted: bool)
    ensures
      var r := LevelChecked(l, k, c, t, now, muted);
      PartTold(l, r, k, Level, r.memo.levelPreview, LevelVerdict(c, t).1, now, muted)
  {
    hide Changed, Cleared, PartTold, LevelVerdict;
    var hit, pv, r := LevelVerdict(c, t).0, LevelVerdict(c, t).1, LevelChecked(l, k, c, t, now, muted);
    if HasAggregate(c) && hit && !l.memo.level {
      ChangedTells(l, k, Level, l.memo.(level := true, levelPreview := pv), pv, pv, now, muted);
    } else if HasAggregate(c) && !hit && l.memo.level {
      ClearedTells(l, k, Level, l.memo.(level := false), r.memo.levelPreview, pv, now, muted);
    } else {
      QuietTells(l, r, k, Level, r.memo.levelPreview, pv, now, muted);
    }
  }

  lemma StuckCheckedTells(l: Life, k: Key, c: Rule, now: nat, muted: bool)
    ensures
      var r := StuckChecked(l, k, c, now, muted);
      && PartTold(l, r, k, Stuck, r.memo.stuckPreview, Text(""), now, muted)
      && (Starts(l.memo, r.memo, Stuck) ==>
            r.memo.stuckPreview ==
            StuckText(if c.field == "" then "payload" else l.memo.lastValue, GoDiv(now - l.memo.lastChange, 1000)))
  {
    hide Changed, PartTold, GoDiv;
    var r := StuckChecked(l, k, c, now, muted);
    if ValueIsOld(c, l.memo, now) && !l.memo.stuck {
      ChangedTells(l, k, Stuck, l.memo.(stuck := true, stuckPreview := r.memo.stuckPreview), r.memo.stuckPreview,
        Text(""), now, muted);
    } else {
      QuietTells(l, l, k, Stuck, r.memo.stuckPreview, Text(""), now, muted);
    }
  }

  // ----- a whole step -----

  /** Where a message ends or begins something, the alert shows the condition that matters most of those left. */
  ghost predicate MessageShown(l: Life, r: Life) {
    r.alert.Some? ==>
      if SameFlags(l.memo, r.memo) then l.alert.Some? && r.alert.value.state == l.alert.value.state
      else IsTop(r.alert.value.state, r.memo)
  }

  /**
   * After a tick the alert shows what began last, or where something ended after that the condition
   * that matters most.
   */
  ghost predicate TickShown(l: Life, r: Life) {
    r.alert.Some? ==>
      var m, t, s := l.memo, r.memo, r.alert.value.state;
      if Starts(m, t, Stuck) then s == Stuck
      else if Starts(m, t, Level) then s == Level
      else if Ends(m, t, Level) then IsTop(s, t)
      else if Starts(m, t, Rate) then s == Rate
      else if Ends(m, t, Rate) then IsTop(s, t)
      else if Starts(m, t, Stale) then s == Stale
      else l.alert.Some? && s == l.alert.value.state
  }


  /** The parts of a message that can end or begin a condition. */
  ghost predicate ThreeParts(l: Life, l1: Life, l2: Life, l3: Life, r: Life, k: Key, m: Message, now: nat,
                             muted: bool) {
    && PartTold(l, l1, k, Stale, Text(""), Text(m.preview), now, muted) && !l1.memo.stale
    && SameFlags(l1.memo, l2.memo) && l2.alert == l1.alert && l2.log == l1.log
    && PartTold(l2, l3, k, Stuck, Text(""), Text(m.preview), now, muted) && !Starts(l2.memo, l3.memo, Stuck)
    && PartTold(l3, r, k, Firing, Text(m.preview), Text(m.preview), now, muted)
  }

  lemma ThreeFlags(l: Life, l1: Life, l2: Life, l3: Life, r: Life, k: Key, m: Message, now: nat, muted: bool)
    requires ThreeParts(l, l1, l2, l3, r, k, m, now, muted)
    ensures l.memo.firing == l1.memo.firing == l2.memo.firing == l3.memo.firing
    ensures l.memo.level == l1.memo.level == l2.memo.level == l3.memo.level == r.memo.level
    ensures l.memo.rate == l1.memo.rate == l2.memo.rate == l3.memo.rate == r.memo.rate
    ensures l.memo.stuck == l1.memo.stuck == l2.memo.stuck && l3.memo.stuck == r.memo.stuck
      && (r.memo.stuck ==> l.memo.stuck)
    ensures !l1.memo.stale && !l2.memo.stale && !l3.memo.stale && !r.memo.stale
  {
    hide PartLogged, AlertKept, PartShown;
  }

  lemma ThreeLogs(l: Life, l1: Life, l2: Life, l3: Life, r: Life, k: Key, m: Message, now: nat, muted: bool)
    requires ThreeParts(l, l1, l2, l3, r, k, m, now, muted)
    ensures MessageTold(l, r, k, m, now, muted)
  {
    hide AlertKept, PartShown;
    ThreeFlags(l, l1, l2, l3, r, k, m, now, muted);
  }

  lemma ThreeKept(l: Life, l1: Life, l2: Life, l3: Life, r: Life, k: Key, m: Message, now: nat, muted: bool)
    requires ThreeParts(l, l1, l2, l3, r, k, m, now, muted)
    ensures AlertKept(l, r, now, muted)
  {
    hide PartLogged, PartShown;
    ThreeFlags(l, l1, l2, l3, r, k, m, now, muted);
  }

  lemma ThreeShown(l: Life, l1: Life, l2: Life, l3: Life, r: Life, k: Key, m: Message, now: nat, muted: bool)
    requires ThreeParts(l, l1, l2, l3, r, k, m, now, muted)
    ensures MessageShown(l, r)
  {
    hide PartLogged, AlertKept, IsTop;
    ThreeFlags(l, l1, l2, l3, r, k, m, now, muted);
    TopOfSame(l1.memo, r.memo);
    TopOfSame(l3.memo, r.memo);
    if r.memo.firing {
      FiringIsTop(r.memo);
    }
  }

  lemma FiringIsTop(m: Memo)
    requires m.firing
    ensures IsTop(Firing, m)
  {
  }

  lemma MessageIsTold(l: Life, k: Key, c: Rule, m: Message, now: nat, muted: bool)
    ensures
      var r := Observed(l, k, c, m, now, muted);
      MessageTold(l, r, k, m, now, muted) && AlertKept(l, r, now, muted) && MessageShown(l, r)
  {
    hide SilenceEnded, ValueSeen, Judged, Sampled, Noted, PartTold, MessageTold, AlertKept, MessageShown, MemoSeen,
         MemoJudged;
    var l0 := l.(memo := Heard(l.memo, now));
    Frames(l.memo, c, m, now);
    var l1 := SilenceEnded(l0, k, m, now, muted);
    SilenceEndedTells(l0, k, m, now, muted);
    SilenceEndedMemo(l0, k, m, now, muted);
    SameStart(l, l0, l1, k, Stale, Text(""), Text(m.preview), now, muted);
    var l2 := l1.(memo := Sampled(l1.memo, c, m, now));
    Frames(l1.memo, c, m, now);
    var l3 := ValueSeen(l2, k, c, m, now, muted);
    ValueSeenTells(l2, k, c, m, now, muted);
    ValueSeenMemo(l2, k, c, m, now, muted);
    AlertShows.MemoSeenOnlyFrees(l2.memo, c, m, now);
    JudgedTells(l3, k, c, m, now, muted);
    var r := Judged(l3, k, c, m, now, muted);
    ThreeLogs(l, l1, l2, l3, r, k, m, now, muted);
    ThreeKept(l, l1, l2, l3, r, k, m, now, muted);
    ThreeShown(l, l1, l2, l3, r, k, m, now, muted);
  }

  lemma SameStart(l: Life, l0: Life, r: Life, k: Key, s: State, reading: Preview, last: Preview, now: nat, muted: bool)
    requires l0 == l.(memo := l0.memo) && SameFlags(l.memo, l0.memo) && PartTold(l0, r, k, s, reading, last, now, muted)
    ensures PartTold(l, r, k, s, reading, last, now, muted)
  {
    SameFlagsAre(l.memo, l0.memo, r.memo, s);
    hide IsTop, AlertShows.Begins, OthersSame, Starts, Ends, Holds, AnyHolds;
  }

  lemma SameFlagsAre(m: Memo, m0: Memo, r: Memo, s: State)
    requires SameFlags(m, m0)
    ensures OthersSame(m, r, s) == OthersSame(m0, r, s) && Starts(m, r, s) == Starts(m0, r, s)
      && Ends(m, r, s) == Ends(m0, r, s)
    ensures AlertShows.Begins(m, r) == AlertShows.Begins(m0, r)
  {
  }

  /** The four parts of a tick, each with its condition. */
  ghost predicate FourParts(l: Life, l1: Life, l2: Life, l3: Life, r: Life, k: Key, now: nat, muted: bool,
                            counted: Preview, aggregated: Preview) {
    && PartTold(l, l1, k, Stale, Text(l.memo.preview), Text(""), now, muted) && !Ends(l.memo, l1.memo, Stale)
    && PartTold(l1, l2, k, Rate, r.memo.ratePreview, counted, now, muted)
    && PartTold(l2, l3, k, Level, r.memo.levelPreview, aggregated, now, muted)
    && PartTold(l3, r, k, Stuck, r.memo.stuckPreview, Text(""), now, muted) && !Ends(l3.memo, r.memo, Stuck)
  }

  lemma FourFlags(l: Life, l1: Life, l2: Life, l3: Life, r: Life, k: Key, now: nat, muted: bool, counted: Preview,
                  aggregated: Preview)
    requires FourParts(l, l1, l2, l3, r, k, now, muted, counted, aggregated)
    ensures l.memo.firing == l1.memo.firing == l2.memo.firing == l3.memo.firing == r.memo.firing
    ensures l.memo.level == l1.memo.level == l2.memo.level && l3.memo.level == r.memo.level
    ensures l.memo.rate == l1.memo.rate && l2.memo.rate == l3.memo.rate == r.memo.rate
    ensures l.memo.stuck == l1.memo.stuck == l2.memo.stuck == l3.memo.stuck && (l.memo.stuck ==> r.memo.stuck)
    ensures l1.memo.stale == l2.memo.stale == l3.memo.stale == r.memo.stale && (l.memo.stale ==> r.memo.stale)
  {
    hide PartLogged, AlertKept, PartShown;
  }

  lemma FourLogs(l: Life, l1: Life, l2: Life, l3: Life, r: Life, k: Key, now: nat, muted: bool, counted: Preview,
                 aggregated: Preview)
    requires FourParts(l, l1, l2, l3, r, k, now, muted, counted, aggregated)
    ensures TickTold(l, r, k, now, muted, counted, aggregated)
  {
    hide AlertKept, PartShown;
    FourFlags(l, l1, l2, l3, r, k, now, muted, counted, aggregated);
  }

  lemma FourKept(l: Life, l1: Life, l2: Life, l3: Life, r: Life, k: Key, now: nat, muted: bool, counted: Preview,
                 aggregated: Preview)
    requires FourParts(l, l1, l2, l3, r, k, now, muted, counted, aggregated)
    ensures AlertKept(l, r, now, muted)
  {
    hide PartLogged, PartShown;
    FourFlags(l, l1, l2, l3, r, k, now, muted, counted, aggregated);
  }

  lemma FourShown(l: Life, l1: Life, l2: Life, l3: Life, r: Life, k: Key, now: nat, muted: bool, counted: Preview,
                  aggregated: Preview)
    requires FourParts(l, l1, l2, l3, r, k, now, muted, counted, aggregated)
    ensures TickShown(l, r)
  {
    hide PartLogged, AlertKept, IsTop;
    FourFlags(l, l1, l2, l3, r, k, now, muted, counted, aggregated);
    TopOfSame(l2.memo, l3.memo);
    TopOfSame(l3.memo, r.memo);
    TopOfSame(l2.memo, r.memo);
  }

  lemma TopOfSame(m: Memo, r: Memo)
    ensures
      m.firing == r.firing && m.level == r.level && m.rate == r.rate && m.stuck == r.stuck && m.stale == r.stale ==>
      forall s :: IsTop(s, m) == IsTop(s, r)
  {
  }

  lemma TickIsTold(l: Life, k: Key, c: Rule, now: nat, muted: bool) returns (counted: Preview, aggregated: Preview)
    ensures
      var r := Checked(l, k, c, now, muted);
      && TickTold(l, r, k, now, muted, counted, aggregated) && AlertKept(l, r, now, muted) && TickShown(l, r)
      && StuckReads(l, r, c, now)
  {
    hide StaleChecked, RateChecked, LevelChecked, StuckChecked, Totals, PartTold, TickTold, AlertKept, TickShown,
         SilenceIsLong, ValueIsOld, RateHit, RateVerdict, LevelVerdict, GoDiv;
    var l1 := StaleChecked(l, k, c, now, muted);
    StaleCheckedTells(l, k, c, now, muted);
    StaleCheckedMemo(l, k, c, now, muted);
    var l2, l3 := l1, l1;
    counted, aggregated := Text(""), Text("");
    if HasWindow(c) && l1.memo.win.Some? {
      var t := Totals(l1.memo.win.value, now, c.window * 1000);
      l2 := RateChecked(l1, k, c, t, now, muted);
      l3 := LevelChecked(l2, k, c, t, now, muted);
      counted, aggregated := RateVerdict(c, t.count).1, LevelVerdict(c, t).1;
      RateCheckedTells(l1, k, c, t, now, muted);
      LevelCheckedTells(l2, k, c, t, now, muted);
      RateCheckedMemo(l1, k, c, t, now, muted);
      LevelCheckedMemo(l2, k, c, t, now, muted);
    } else {
      QuietTells(l1, l2, k, Rate, l2.memo.ratePreview, counted, now, muted);
      QuietTells(l2, l3, k, Level, l3.memo.levelPreview, aggregated, now, muted);
    }
    var r := StuckChecked(l3, k, c, now, muted);
    StuckCheckedTells(l3, k, c, now, muted);
    StuckCheckedMemo(l3, k, c, now, muted);
    assert l3 == WindowChecked(l1, k, c, now, muted);
    FourLogs(l, l1, l2, l3, r, k, now, muted, counted, aggregated);
    FourKept(l, l1, l2, l3, r, k, now, muted, counted, aggregated);
    FourShown(l, l1, l2, l3, r, k, now, muted, counted, aggregated);
  }

  // ----- every step of a run -----

  /**
   * Reading the mute again says the alert's own state and reading, if it comes out of a mute, and
   * changes nothing else.
   */
  ghost predicate RefreshTold(l: Life, r: Life, k: Key, now: nat, muted: bool) {
    && r.memo == l.memo && (r.alert.Some? <==> l.alert.Some?)
    && (l.alert.None? ==> r.log == l.log)
    && (l.alert.Some? ==>
          var a := l.alert.value;
          && r.alert.value == a.(muted := muted)
          && r.log == l.log + (if a.muted && !muted then [Event(now, k, a.state, a.preview, false)] else []))
  }

  /** Seeing an alert, or no longer having seen it, says nothing and leaves the rest of it alone. */
  ghost predicate AckTold(l: Life, r: Life, now: int, who: string, acked: bool) {
    && r.memo == l.memo && r.log == l.log && (r.alert.Some? <==> l.alert.Some?)
    && (l.alert.Some? ==>
          r.alert.value == l.alert.value.(ackedAt := if acked then now else 0, ackedBy := if acked then who else ""))
  }

  /** A value that gets stuck is shown with the seconds it has been the same. */
  ghost predicate StuckReads(l: Life, r: Life, c: Rule, now: nat) {
    Starts(l.memo, r.memo, Stuck) ==>
      r.memo.stuckPreview ==
      StuckText(if c.field == "" then "payload" else l.memo.lastValue, GoDiv(now - l.memo.lastChange, 1000))
  }

  ghost predicate StepTold(l: Life, r: Life, k: Key, s: Step) {
    match s
    case Hear(_, m, now, muted) =>
      MessageTold(l, r, k, m, now, muted) && AlertKept(l, r, now, muted) && MessageShown(l, r)
    case Check(c, now, muted) =>
      && StuckReads(l, r, c, now)
      && (exists counted, aggregated :: TickTold(l, r, k, now, muted, counted, aggregated))
      && AlertKept(l, r, now, muted) && TickShown(l, r)
    case Refresh(now, muted) => RefreshTold(l, r, k, now, muted)
    case Ack(now, who, acked) => AckTold(l, r, now, who, acked)
    case Drop => r.alert == None && r.memo == FreshMemo() && r.log == l.log
  }

  lemma NextIsTold(l: Life, k: Key, s: Step)
    ensures StepTold(l, Next(l, k, s), k, s)
  {
    hide Observed, Checked, MessageTold, TickTold, AlertKept, MessageShown, TickShown, StuckReads;
    match s
    case Hear(c, m, now, muted) => MessageIsTold(l, k, c, m, now, muted);
    case Check(c, now, muted) => var counted, aggregated := TickIsTold(l, k, c, now, muted);
    case Refresh(_, _) =>
    case Ack(_, _, _) =>
    case Drop =>
  }

  /** Every step of every run is told as it should be. */
  lemma EveryStepIsTold(k: Key, steps: seq<Step>, i: nat)
    requires i < |steps|
    ensures StepTold(Run(k, steps[..i]), Run(k, steps[..i + 1]), k, steps[i])
  {
    hide Next, StepTold;
    assert steps[..i + 1][..i] == steps[..i];
    NextIsTold(Run(k, steps[..i]), k, steps[i]);
  }

  /**
   * Where an alert was active and none is after a message or a tick, exactly one event is logged:
   * Resolved, at that time and with that mute.
   */
  lemma GoneIsResolved(k: Key, steps: seq<Step>, s: Step)
    requires s.Hear? || s.Check?
    requires Run(k, steps).alert.Some? && Run(k, steps + [s]).alert.None?
    ensures
      var l, r := Run(k, steps), Run(k, steps + [s]);
      exists pv :: r.log == l.log + [Event(s.now, k, Resolved, pv, s.muted)]
  {
    hide Next, AlertKept, MessageShown, TickShown, Run;
    var l, r := Run(k, steps), Run(k, steps + [s]);
    RunOfOneMore(k, steps, s);
    NextIsTold(l, k, s);
    EveryRunIsConsistent(k, steps);
    EveryRunIsConsistent(k, steps + [s]);
    HoldsWhileActive(l);
    HoldsWhileActive(r);
    match s
    case Hear(_, m, now, muted) => assert r.log == l.log + [Event(now, k, Resolved, Text(m.preview), muted)];
    case Check(_, now, muted) =>
      var counted, aggregated :| TickTold(l, r, k, now, muted, counted, aggregated);
      LastEnded(l, r, k, now, muted, counted, aggregated);
  }

  lemma HoldsWhileActive(l: Life)
    requires Consistent(l)
    ensures l.alert.Some? <==> AnyHolds(l.memo)
  {
  }

  lemma LastEnded(l: Life, r: Life, k: Key, now: nat, muted: bool, counted: Preview, aggregated: Preview)
    requires TickTold(l, r, k, now, muted, counted, aggregated) && AnyHolds(l.memo) && !AnyHolds(r.memo)
    ensures exists pv :: r.log == l.log + [Event(now, k, Resolved, pv, muted)]
  {
    var pv := if l.memo.level then aggregated else counted;
    assert r.log == l.log + [Event(now, k, Resolved, pv, muted)];
  }
}
