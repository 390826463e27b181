/** What every run of messages, ticks, rule changes and mutes keeps for one rule on one subject. */
module AlertRuns {
  import opened Wrappers
  import opened Window
  import opened AlertRules

  // ----- the invariant -----

  /** No two events in a row say Resolved. */
  ghost predicate NeverResolvedTwice(log: seq<Event>) {
    forall i | 0 <= i < |log| - 1 && log[i].state.Resolved? :: !log[i + 1].state.Resolved?
  }

  /** The active alert was announced, has not been resolved since, and reached the channels unless it is muted. */
  ghost predicate Announced(l: Life) {
    l.alert.Some? ==>
      && l.born < |l.log|
      && (forall i | l.born <= i < |l.log| :: !l.log[i].state.Resolved?)
      && (!l.alert.value.muted ==> exists i :: l.born <= i < |l.log| && !l.log[i].muted)
  }

  /**
   * The alert shows a condition that holds; for a count, a level or a stuck
   * value its latest reading, for a silence the payload remembered before it.
   */
  ghost predicate ShowsItsCondition(a: Alert, m: Memo) {
    && Holds(m, a.state)
    && (a.state.Stale? ==> a.preview == Text(m.preview))
    && (a.state.Rate? ==> a.preview == m.ratePreview)
    && (a.state.Level? ==> a.preview == m.levelPreview)
    && (a.state.Stuck? ==> a.preview == m.stuckPreview)
  }

  ghost predicate Consistent(l: Life) {
    && (l.alert.Some? <==> AnyHolds(l.memo))
    && (l.alert.Some? ==> ShowsItsCondition(l.alert.value, l.memo))
    && NeverResolvedTwice(l.log)
    && Announced(l)
  }

  // ----- every step keeps it -----

  lemma ChangedKeeps(l: Life, k: Key, state: State, pv: Preview, now: nat, muted: bool)
    requires NeverResolvedTwice(l.log) && Announced(l)
    requires ShowsItsCondition(Alert(state, now, pv, l.memo.lastSeen, muted, 0, ""), l.memo)
    ensures Consistent(Changed(l, k, state, pv, now, muted))
  {
    var r := Changed(l, k, state, pv, now, muted);
    assert r.log[|l.log|] == Event(now, k, state, pv, muted);
    assert !state.Resolved?;
    assert r.born <= |l.log| < |r.log|;
  }

  lemma ClearedKeeps(l: Life, k: Key, pv: Preview, now: nat, muted: bool)
    requires l.alert.Some? && NeverResolvedTwice(l.log) && Announced(l)
    ensures Consistent(Cleared(l, k, pv, now, muted))
  {
  }

  lemma SilenceEndedKeeps(l: Life, k: Key, m: Message, now: nat, muted: bool)
    requires Consistent(l)
    ensures Consistent(SilenceEnded(l, k, m, now, muted))
  {
  }

  lemma BookkeepingKeeps(l: Life, c: Rule, m: Message, now: nat)
    requires Consistent(l)
    ensures Consistent(l.(memo := Heard(l.memo, now)))
    ensures Consistent(l.(memo := Sampled(l.memo, c, m, now)))
  {
  }

  lemma ObservedKeeps(l: Life, k: Key, c: Rule, m: Message, now: nat, muted: bool)
    requires Consistent(l)
    ensures Consistent(Observed(l, k, c, m, now, muted))
  {
    hide Consistent, Heard, Sampled, SilenceEnded, ValueSeen, Judged;
    BookkeepingKeeps(l, c, m, now);
    var l1 := l.(memo := Heard(l.memo, now));
    SilenceEndedKeeps(l1, k, m, now, muted);
    var l2 := SilenceEnded(l1, k, m, now, muted);
    BookkeepingKeeps(l2, c, m, now);
    var l3 := l2.(memo := Sampled(l2.memo, c, m, now));
    ValueSeenKeeps(l3, k, c, m, now, muted);
    SilenceIsOver(l1, k, c, m, now, muted);
    JudgedKeeps(ValueSeen(l3, k, c, m, now, muted), k, c, m, now, muted);
  }

  lemma SilenceIsOver(l: Life, k: Key, c: Rule, m: Message, now: nat, muted: bool)
    ensures
      var l2 := SilenceEnded(l, k, m, now, muted);
      !l2.memo.stale && !ValueSeen(l2.(memo := Sampled(l2.memo, c, m, now)), k, c, m, now, muted).memo.stale
  {
  }

  lemma ValueSeenKeeps(l: Life, k: Key, c: Rule, m: Message, now: nat, muted: bool)
    requires Consistent(l)
    ensures Consistent(ValueSeen(l, k, c, m, now, muted))
  {
    if l.memo.stuck {
      ClearedKeeps(l.(memo := l.memo.(lastValue := ValueOf(c, m), lastChange := now, stuck := false)), k,
        Text(m.preview), now, muted);
    }
  }

  lemma EvaluatedKeeps(l: Life, k: Key, c: Rule, m: Message, now: nat, muted: bool)
    requires Consistent(l)
    ensures Consistent(Evaluated(l, k, c, m, now, muted))
  {
    hide Changed, Cleared;
    if c.expr in m.holds && !l.memo.firing {
      ChangedKeeps(l.(memo := l.memo.(firing := true, preview := m.preview)), k, Firing, Text(m.preview), now, muted);
    } else if l.memo.firing {
      ClearedKeeps(l.(memo := l.memo.(firing := false)), k, Text(m.preview), now, muted);
    }
  }

  lemma JudgedKeeps(l: Life, k: Key, c: Rule, m: Message, now: nat, muted: bool)
    requires Consistent(l) && !l.memo.stale
    ensures Consistent(Judged(l, k, c, m, now, muted))
  {
    EvaluatedKeeps(l.(memo := l.memo.(lastEval := now)), k, c, m, now, muted);
  }

  lemma RateCheckedKeeps(l: Life, k: Key, c: Rule, t: Stats, now: nat, muted: bool)
    requires Consistent(l)
    ensures Consistent(RateChecked(l, k, c, t, now, muted))
  {
    var hit, pv := RateHit(c, l.memo, t.count, now), RateVerdict(c, t.count).1;
    if hit && !l.memo.rate {
      ChangedKeeps(l.(memo := l.memo.(rate := true, ratePreview := pv)), k, Rate, pv, now, muted);
    } else if !hit && l.memo.rate {
      ClearedKeeps(l.(memo := l.memo.(rate := false)), k, pv, now, muted);
    }
  }

  lemma LevelCheckedKeeps(l: Life, k: Key, c: Rule, t: Stats, now: nat, muted: bool)
    requires Consistent(l)
    ensures Consistent(LevelChecked(l, k, c, t, now, muted))
  {
    var (hit, pv) := LevelVerdict(c, t);
    if hit && !l.memo.level {
      ChangedKeeps(l.(memo := l.memo.(level := true, levelPreview := pv)), k, Level, pv, now, muted);
    } else if !hit && l.memo.level {
      ClearedKeeps(l.(memo := l.memo.(level := false)), k, pv, now, muted);
    }
  }

  lemma StaleCheckedKeeps(l: Life, k: Key, c: Rule, now: nat, muted: bool)
    requires Consistent(l)
    ensures Consistent(StaleChecked(l, k, c, now, muted))
  {
    if !l.memo.stale {
      ChangedKeeps(l.(memo := l.memo.(stale := true)), k, Stale, Text(l.memo.preview), now, muted);
    }
  }

  lemma StuckCheckedKeeps(l: Life, k: Key, c: Rule, now: nat, muted: bool)
    requires Consistent(l)
    ensures Consistent(StuckChecked(l, k, c, now, muted))
  {
    var pv := StuckText(if c.field != "" then l.memo.lastValue else "payload", GoDiv(now - l.memo.lastChange, 1000));
    if !l.memo.stuck {
      ChangedKeeps(l.(memo := l.memo.(stuck := true, stuckPreview := pv)), k, Stuck, pv, now, muted);
    }
  }

  lemma CheckedKeeps(l: Life, k: Key, c: Rule, now: nat, muted: bool)
    requires Consistent(l)
    ensures Consistent(Checked(l, k, c, now, muted))
  {
    hide Consistent, StaleChecked, RateChecked, LevelChecked, StuckChecked, Totals;
    var l1 := StaleChecked(l, k, c, now, muted);
    StaleCheckedKeeps(l, k, c, now, muted);
    if HasWindow(c) && l1.memo.win.Some? {
      var t := Totals(l1.memo.win.value, now, c.window * 1000);
      RateCheckedKeeps(l1, k, c, t, now, muted);
      LevelCheckedKeeps(RateChecked(l1, k, c, t, now, muted), k, c, t, now, muted);
    }
    StuckCheckedKeeps(WindowChecked(l1, k, c, now, muted), k, c, now, muted);
  }

  lemma RefreshedKeeps(l: Life, k: Key, now: nat, muted: bool)
    requires Consistent(l)
    ensures Consistent(Refreshed(l, k, now, muted))
  {
    var r := Refreshed(l, k, now, muted);
    if l.alert.Some? && !muted {
      if l.alert.value.muted {
        assert !r.log[|l.log|].muted;
      } else {
        var i :| l.born <= i < |l.log| && !l.log[i].muted;
        assert r.log[i] == l.log[i];
      }
    }
  }

  lemma DroppedKeeps(l: Life)
    requires Consistent(l)
    ensures Consistent(Dropped(l))
  {
  }

  // ----- runs -----

  /** What can happen to one rule on one subject. */
  datatype Step =
    | Hear(c: Rule, m: Message, now: nat, muted: bool)
    | Check(c: Rule, now: nat, muted: bool)
    | Refresh(now: nat, muted: bool)
    | Ack(now: nat, who: string, acked: bool)
    | Drop

  function Next(l: Life, k: Key, s: Step): Life
  {
    match s
    case Hear(c, m, now, muted) => Observed(l, k, c, m, now, muted)
    case Check(c, now, muted) => Checked(l, k, c, now, muted)
    case Refresh(now, muted) => Refreshed(l, k, now, muted)
    case Ack(now, who, acked) => Acked(l, now, who, acked)
    case Drop => Dropped(l)
  }

  function Run(k: Key, steps: seq<Step>): Life
  {
    if steps == [] then Life(FreshMemo(), None, [], 0)
    else Next(Run(k, steps[..|steps| - 1]), k, steps[|steps| - 1])
  }

  lemma RunOfOneMore(k: Key, steps: seq<Step>, s: Step)
    ensures Run(k, steps + [s]) == Next(Run(k, steps), k, s)
  {
    assert (steps + [s])[..|steps|] == steps;
    hide Next;
  }

  lemma NextKeeps(l: Life, k: Key, s: Step)
    requires Consistent(l)
    ensures Consistent(Next(l, k, s))
  {
    hide Observed, Checked, Refreshed;
    match s
    case Hear(c, m, now, muted) => ObservedKeeps(l, k, c, m, now, muted);
    case Check(c, now, muted) => CheckedKeeps(l, k, c, now, muted);
    case Refresh(now, muted) => RefreshedKeeps(l, k, now, muted);
    case Ack(_, _, _) =>
    case Drop => DroppedKeeps(l);
  }

  /**
   * In every reachable state an alert is active exactly when one of its five
   * conditions holds, it shows one that holds, Resolved is never said twice in
   * a row, and an unmuted active alert has reached the channels since it began.
   */
  lemma {:induction false} EveryRunIsConsistent(k: Key, steps: seq<Step>)
    ensures Consistent(Run(k, steps))
  {
    if steps != [] {
      EveryRunIsConsistent(k, steps[..|steps| - 1]);
      NextKeeps(Run(k, steps[..|steps| - 1]), k, steps[|steps| - 1]);
    }
  }

  /** Nothing that is still true when a mute ends is lost: after the re-reading it has been announced unmuted. */
  lemma MuteLosesNothing(k: Key, steps: seq<Step>, now: nat)
    ensures
      var l := Run(k, steps + [Refresh(now, false)]);
      l.alert.Some? ==> exists i :: l.born <= i < |l.log| && !l.log[i].muted && !l.log[i].state.Resolved?
  {
    var all := steps + [Refresh(now, false)];
    assert all[..|all| - 1] == steps;
    EveryRunIsConsistent(k, all);
    var l := Run(k, all);
    if l.alert.Some? {
      var i :| l.born <= i < |l.log| && !l.log[i].muted;
      assert !l.log[i].state.Resolved?;
    }
  }
}
