/** The alert engine: rules, the memory per rule and subject, the active alerts and the event log (alerts/alerts.go). */
module AlertEngine {
  import opened Wrappers
  import opened Window
  import opened AlertRules
  import opened AlertRuns
  import AlertTraffic
  import AlertShows
  import AlertEvents
  import Sorting
  import SubjectMatch

  const MAX_EVENTS := 1000

  /** What the engine remembers of one rule on one subject, updated in place. */
  class SubjectState {
    const key: Key
    var lastSeen: int
    var lastEval: int
    var preview: string
    var firing: bool
    var stale: bool
    const gaps: array<int>
    var gapsN: nat
    var firstSeen: int
    var seen: int
    var win: SlidingWindow?
    var rate: bool
    var level: bool
    var stuck: bool
    var ratePreview: Preview
    var levelPreview: Preview
    var stuckPreview: Preview
    var lastValue: string
    var lastChange: int

    ghost predicate Valid()
      reads this
    {
      gaps.Length == STALE_WINDOW && (win != null ==> win.Valid())
    }

    ghost function Repr(): set<object>
      reads this
    {
      {this, gaps} + (if win == null then {} else {win, win.b})
    }

    ghost function Value(): Memo
      requires Valid()
      reads this, Repr()
    {
      Memo(lastSeen, lastEval, preview, firing, stale, gaps[..], gapsN,
           firstSeen, seen, if win == null then None else Some(win.Value()), rate, level, stuck,
           ratePreview, levelPreview, stuckPreview, lastValue, lastChange)
    }

    constructor (k: Key)
      ensures Valid() && fresh(Repr()) && key == k && Value() == FreshMemo()
    {
      key := k;
      lastSeen, lastEval, preview, firing, stale := 0, 0, "", false, false;
      gaps := new int[STALE_WINDOW](_ => 0);
      gapsN, firstSeen, seen, win, rate, level, stuck := 0, 0, 0, null, false, false, false;
      ratePreview, levelPreview, stuckPreview := Text(""), Text(""), Text("");
      lastValue, lastChange := "", 0;
    }

    method NoteGap(now: nat)
      requires Valid()
      modifies this`gapsN, gaps
      ensures Value() == Noted(old(Value()), now)
    {
      if lastSeen > 0 && now > lastSeen {
        gaps[gapsN % STALE_WINDOW] := now - lastSeen;
        gapsN := gapsN + 1;
      }
    }

    method Hear(now: nat)
      requires Valid()
      modifies `lastSeen, `seen, `firstSeen, `gapsN, gaps
      ensures Valid() && Repr() == old(Repr()) && Value() == Heard(old(Value()), now)
    {
      NoteGap(now);
      lastSeen := now;
      seen := seen + 1;
      if firstSeen == 0 {
        firstSeen := now;
      }
    }

    /** Counts the message in the window, and its number when the rule's field holds one. */
    method Sample(c: Rule, m: Message, now: nat)
      requires Valid()
      modifies `win, if win == null then {} else {win.b}
      ensures Valid() && Value() == Sampled(old(Value()), c, m, now)
      ensures old(Repr()) <= Repr() && fresh(Repr() - old(Repr()))
    {
      if HasWindow(c) {
        if win == null {
          win := new SlidingWindow(c.window);
        }
        var f := FieldOf(c, m);
        win.Add(now, if f.Some? then f.value.number else None);
      }
    }

    /** Sets one of the five conditions. */
    method Set(s: State, holds: bool)
      requires Valid()
      modifies `firing, `level, `rate, `stuck, `stale
      ensures Valid() && Repr() == old(Repr()) && Value() == WithFlag(old(Value()), s, holds)
    {
      match s {
        case Firing => firing := holds;
        case Level => level := holds;
        case Rate => rate := holds;
        case Stuck => stuck := holds;
        case Stale => stale := holds;
        case Resolved =>
      }
    }

    method SetValue(val: string, now: nat)
      requires Valid()
      modifies `lastValue, `lastChange
      ensures Valid() && Repr() == old(Repr()) && Value() == old(Value()).(lastValue := val, lastChange := now)
    {
      lastValue, lastChange := val, now;
    }

    method SetPreview(pv: string)
      requires Valid()
      modifies `preview
      ensures Valid() && Repr() == old(Repr()) && Value() == old(Value()).(preview := pv)
    {
      preview := pv;
    }

    /** What the rate, level or stuck condition said last. */
    method SetReading(s: State, pv: Preview)
      requires Valid()
      modifies `ratePreview, `levelPreview, `stuckPreview
      ensures Valid() && Repr() == old(Repr()) && Value() == WithReading(old(Value()), s, pv)
    {
      match s {
        case Rate => ratePreview := pv;
        case Level => levelPreview := pv;
        case Stuck => stuckPreview := pv;
        case _ =>
      }
    }

    method SetEvaluated(now: nat)
      requires Valid()
      modifies `lastEval
      ensures Valid() && Repr() == old(Repr()) && Value() == old(Value()).(lastEval := now)
    {
      lastEval := now;
    }

    method GetTypicalGap() returns (gap: int)
      requires Valid()
      ensures gap == TypicalGap(Value())
    {
      var n := gapsN;
      if n > STALE_WINDOW {
        n := STALE_WINDOW;
      }
      if n < STALE_MIN_GAPS {
        return 0;
      }
      var sorted := Sorting.Sort(gaps[..n]);
      assert gaps[..n] == Value().gaps[..n];
      return sorted[n * 3 / 4];
    }

    method GetCurrent() returns (c: Option<(State, Preview)>)
      requires Valid()
      ensures c == Current(Value())
    {
      if firing {
        return Some((Firing, Text(preview)));
      } else if level {
        return Some((Level, levelPreview));
      } else if rate {
        return Some((Rate, ratePreview));
      } else if stuck {
        return Some((Stuck, stuckPreview));
      } else if stale {
        return Some((Stale, Text(preview)));
      }
      return None;
    }
  }

  function WithFlag(m: Memo, s: State, holds: bool): Memo {
    match s
    case Firing => m.(firing := holds)
    case Level => m.(level := holds)
    case Rate => m.(rate := holds)
    case Stuck => m.(stuck := holds)
    case Stale => m.(stale := holds)
    case Resolved => m
  }

  function WithReading(m: Memo, s: State, pv: Preview): Memo {
    match s
    case Rate => m.(ratePreview := pv)
    case Level => m.(levelPreview := pv)
    case Stuck => m.(stuckPreview := pv)
    case _ => m
  }

  /** The events about one key, in order. */
  ghost function Of(log: seq<Event>, k: Key): seq<Event> {
    if log == [] then []
    else Of(log[..|log| - 1], k) + (if log[|log| - 1].key == k then [log[|log| - 1]] else [])
  }

  lemma {:induction false} OfConcat(a: seq<Event>, b: seq<Event>, k: Key)
    ensures Of(a + b, k) == Of(a, k) + Of(b, k)
  {
    if b == [] {
      assert a + b == a;
    } else {
      OfConcat(a, b[..|b| - 1], k);
      assert (a + b)[..|a + b| - 1] == a + b[..|b| - 1];
    }
  }

  lemma OfOne(log: seq<Event>, ev: Event, k: Key)
    ensures Of(log + [ev], k) == Of(log, k) + (if ev.key == k then [ev] else [])
  {
  }

  lemma SlotsDiffer(i: int, n: int)
    requires i < n < i + MAX_EVENTS
    ensures i % MAX_EVENTS != n % MAX_EVENTS
  {
  }

  lemma SlotAdvances(n: nat)
    ensures (n % MAX_EVENTS + 1) % MAX_EVENTS == (n + 1) % MAX_EVENTS
  {
  }

  function ById(rules: seq<Rule>): map<string, Rule> {
    if rules == [] then map[]
    else ById(rules[..|rules| - 1])[rules[|rules| - 1].id := rules[|rules| - 1]]
  }

  function IdsOf(rules: seq<Rule>): set<string> { set r | r in rules :: r.id }

  ghost predicate DistinctIds(rules: seq<Rule>) {
    forall i, j | 0 <= i < j < |rules| :: rules[i].id != rules[j].id
  }

  lemma {:induction false} ByIdFinds(rules: seq<Rule>)
    requires DistinctIds(rules)
    ensures forall i | 0 <= i < |rules| :: rules[i].id in ById(rules) && ById(rules)[rules[i].id] == rules[i]
    ensures forall id | id in ById(rules) :: ById(rules)[id].id == id && ById(rules)[id] in rules
  {
    if rules != [] {
      var before := rules[..|rules| - 1];
      ByIdFinds(before);
      forall i | 0 <= i < |rules| ensures rules[i].id in ById(rules) && ById(rules)[rules[i].id] == rules[i] {
        if i < |before| {
          assert before[i] == rules[i];
        }
      }
    }
  }

  class Engine {
    const compiles: string -> bool
    var rules: seq<Rule>
    var byID: map<string, Rule>
    var maintenance: seq<Maintenance>
    var states: map<Key, SubjectState>
    var active: map<Key, Alert>
    const events: array<Event>
    var head: nat
    var count: nat
    var pending: seq<Event>

    ghost var log: seq<Event>
    ghost var delivered: seq<Event>
    ghost var born: map<Key, nat>
    ghost var trace: Key -> seq<Step>
    ghost var Shelf: set<object>

    /** The ring holds the newest events of the log; those not yet handed to the browsers are pending. */
    ghost predicate RingHoldsLog()
      reads `head, `count, `pending, `log, `delivered, events
    {
      && events.Length == MAX_EVENTS
      && head == |log| % MAX_EVENTS
      && count == (if |log| < MAX_EVENTS then |log| else MAX_EVENTS)
      && (forall i | |log| - count <= i < |log| :: events[i % MAX_EVENTS] == log[i])
      && delivered + pending == log
    }

    ghost predicate RulesAgree()
      reads `rules, `byID, `states
    {
      && DistinctIds(rules) && byID == ById(rules)
      && (forall k | k in states :: k.ruleID in byID && byID[k.ruleID].enabled)
    }

    /** Every key has a memory of its own; the shelf is what they all consist of. */
    ghost predicate Shelved()
      reads `states, `Shelf, Shelf
    {
      && (forall k | k in states :: states[k] in Shelf && states[k].key == k)
      && (forall k | k in states :: states[k].Valid() && states[k].Repr() <= Shelf)
      && (forall j, k | j in states && k in states && j != k :: states[j].Repr() !! states[k].Repr())
    }

    ghost predicate Valid()
      reads this, events, Shelf
    {
      this !in Shelf && events !in Shelf && Shelved() && RingHoldsLog() && RulesAgree()
    }

    ghost function MemoOf(k: Key): Memo
      requires Shelved()
      reads `states, `Shelf, Shelf
    {
      if k in states then states[k].Value() else FreshMemo()
    }

    /** All there is to one key: memory, alert and events. */
    ghost function LifeOf(k: Key): Life
      requires Shelved()
      reads `states, `Shelf, Shelf, `active, `log, `born
    {
      Life(MemoOf(k), if k in active then Some(active[k]) else None, Of(log, k), if k in born then born[k] else 0)
    }

    lemma OnShelf(st: SubjectState)
      requires Shelved() && st.key in states && states[st.key] == st
      ensures st.Valid() && MemoOf(st.key) == st.Value() && st in st.Repr() && st.Repr() <= Shelf
      ensures var m := MemoOf(st.key);
        && m.lastSeen == st.lastSeen && m.lastEval == st.lastEval && m.lastChange == st.lastChange
        && m.lastValue == st.lastValue
        && m.stale == st.stale && m.firing == st.firing && m.level == st.level && m.rate == st.rate
        && m.stuck == st.stuck
        && m.preview == st.preview && m.ratePreview == st.ratePreview && m.levelPreview == st.levelPreview
        && m.firstSeen == st.firstSeen && m.seen == st.seen && (m.win.None? <==> st.win == null)
    {
    }

    /** The rule a key is watched by, as far as that decides anything; without a memory it is any. */
    ghost predicate Watched(k: Key)
      reads `states, `byID, `trace
    {
      if k in states then k.ruleID in byID && AlertTraffic.UnderRule(byID[k.ruleID], trace(k))
      else forall c: Rule :: AlertTraffic.UnderRule(c, trace(k))
    }

    /** All there is to every key is what the steps it has been through make of it. */
    ghost predicate Traced()
      requires Shelved()
      reads this, Shelf
    {
      (forall k: Key :: LifeOf(k) == Run(k, trace(k))) && (forall k: Key :: Watched(k))
    }

    /** The invariant of every run, for every rule on every subject. */
    ghost predicate Sound()
      reads this, events, Shelf
    {
      Valid() && (forall k: Key :: Consistent(LifeOf(k))) && Traced()
    }

    /** One more step of one key. */
    lemma OneMoreStep(k: Key, was: seq<Step>, s: Step)
      requires Shelved() && LifeOf(k) == Next(Run(k, was), k, s) && trace(k) == was + [s]
      ensures LifeOf(k) == Run(k, trace(k))
    {
      hide Next, Run, LifeOf;
      RunOfOneMore(k, was, s);
    }

    /** Consistent is no more than what every run keeps. */
    lemma TracedIsConsistent()
      requires Valid() && Traced()
      ensures Sound()
    {
      hide Consistent, LifeOf, Shelved, Watched, Run;
      forall k: Key ensures Consistent(LifeOf(k)) {
        EveryRunIsConsistent(k, trace(k));
      }
    }

    constructor (compiles: string -> bool)
      ensures Sound() && fresh(events) && Shelf == {} && rules == [] && active == map[] && log == []
    {
      this.compiles := compiles;
      rules, byID, maintenance, states, active := [], map[], [], map[], map[];
      events := new Event[MAX_EVENTS](_ => Event(0, Key("", "", ""), Resolved, Text(""), false));
      head, count, pending := 0, 0, [];
      log, delivered, born := [], [], map[];
      trace := (k: Key) => [];
      Shelf := {};
    }

    // ----- the event log -----

    method Record(ev: Event)
      requires RingHoldsLog()
      modifies `head, `count, `pending, `log, events
      ensures RingHoldsLog() && log == old(log) + [ev]
    {
      ghost var n := |log|;
      forall i | n - count <= i < n && i + MAX_EVENTS > n ensures i % MAX_EVENTS != head {
        SlotsDiffer(i, n);
      }
      SlotAdvances(n);
      events[head] := ev;
      head := (head + 1) % MAX_EVENTS;
      if count < MAX_EVENTS {
        count := count + 1;
      }
      pending := pending + [ev];
      log := log + [ev];
    }

    /** Where an event goes; sending it to a webhook or by mail is not part of the model. */
    method Notify(ev: Event)
      requires RingHoldsLog()
      modifies `head, `count, `pending, `log, events
      ensures RingHoldsLog() && log == old(log) + [ev]
      ensures forall k: Key :: Of(log, k) == Of(old(log), k) + (if ev.key == k then [ev] else [])
    {
      hide RingHoldsLog;
      Record(ev);
      forall k: Key ensures Of(log, k) == Of(old(log), k) + (if ev.key == k then [ev] else []) {
        OfOne(old(log), ev, k);
      }
    }

    method NotifyAll(send: seq<Event>)
      requires RingHoldsLog()
      modifies `head, `count, `pending, `log, events
      ensures RingHoldsLog() && log == old(log) + send
    {
      hide RingHoldsLog;
      for i := 0 to |send|
        invariant RingHoldsLog() && log == old(log) + send[..i]
      {
        assert send[..i + 1] == send[..i] + [send[i]];
        Record(send[i]);
      }
      assert send[..|send|] == send;
    }

    /** The newest events first. */
    method Events(limit: int) returns (out: seq<Event>)
      requires Valid()
      ensures |out| == if limit <= 0 || limit > count then count else limit
      ensures forall i | 0 <= i < |out| :: out[i] == log[|log| - 1 - i]
    {
      var n := limit;
      if n <= 0 || n > count {
        n := count;
      }
      out := [];
      for i := 1 to n + 1
        invariant |out| == i - 1
        invariant forall j | 0 <= j < |out| :: out[j] == log[|log| - 1 - j]
      {
        assert (head - i + MAX_EVENTS) % MAX_EVENTS == (|log| - i) % MAX_EVENTS;
        out := out + [events[(head - i + MAX_EVENTS) % MAX_EVENTS]];
      }
    }

    /** Hands over what happened since the last time: every event goes out exactly once, in order. */
    method Flush() returns (out: seq<Event>)
      requires Sound()
      modifies `pending, `delivered
      ensures Sound() && pending == [] && delivered == old(delivered) + out == log
    {
      hide Shelved, MemoOf, Consistent, Watched, Run;
      out := pending;
      delivered := delivered + pending;
      pending := [];
      assert forall k: Key :: LifeOf(k) == old(LifeOf(k));
    }

    // ----- one change -----

    method IsMuted(c: Rule, subject: string, now: nat) returns (muted: bool)
      ensures muted <==> Muted(c, maintenance, subject, now)
    {
      if c.mutedUntil > now {
        return true;
      }
      for i := 0 to |maintenance|
        invariant forall j | 0 <= j < i :: !Covers(maintenance[j], subject, now)
      {
        var covers := CoversNow(maintenance[i], subject, now);
        if covers {
          return true;
        }
      }
      return false;
    }

    method CoversNow(m: Maintenance, subject: string, now: nat) returns (covers: bool)
      ensures covers <==> Covers(m, subject, now)
    {
      if now < m.from || now >= m.to {
        return false;
      }
      if |m.patterns| == 0 {
        return true;
      }
      for i := 0 to |m.patterns|
        invariant forall j | 0 <= j < i ::
          !SubjectMatch.Matches(SubjectMatch.Tokens(m.patterns[j]), SubjectMatch.Tokens(subject))
      {
        var hit := SubjectMatch.ServerMatch(m.patterns[i], subject);
        if hit {
          return true;
        }
      }
      return false;
    }

    ghost predicate Known(c: Rule, st: SubjectState)
      reads this, st
    {
      st.key in states && states[st.key] == st && c.id == st.key.ruleID
    }

    method Change(c: Rule, st: SubjectState, state: State, pv: Preview, now: nat)
      requires Valid() && Known(c, st)
      modifies `active, `head, `count, `pending, `log, `born, events
      ensures Valid()
      ensures LifeOf(st.key) ==
        Changed(old(LifeOf(st.key)), st.key, state, pv, now, Muted(c, maintenance, st.key.subject, now))
      ensures var muted := Muted(c, maintenance, st.key.subject, now);
        && log == old(log) + [Event(now, st.key, state, pv, muted)]
        && active ==
           if state.Resolved? then old(active) - {st.key}
           else old(active)[st.key := Alert(state, now, pv, st.lastSeen, muted, 0, "")]
      ensures forall k: Key | k != st.key :: LifeOf(k) == old(LifeOf(k))
    {
      hide Shelved, MemoOf, RingHoldsLog, RulesAgree, Of, Muted, SubjectState.Value, SubjectState.Repr,
           SubjectState.Valid;
      OnShelf(st);
      var k := st.key;
      var muted := IsMuted(c, k.subject, now);
      Place(k, state, Alert(state, now, pv, st.lastSeen, muted, 0, ""));
      Notify(Event(now, k, state, pv, muted));
    }

    /** The part of a change that is seen in the active alerts. */
    method Place(k: Key, state: State, a: Alert)
      modifies `active, `born
      ensures active == if state.Resolved? then old(active) - {k} else old(active)[k := a]
      ensures born == if state.Resolved? || k in old(active) then old(born) else old(born)[k := |Of(log, k)|]
    {
      if state.Resolved? {
        active := active - {k};
      } else {
        if k !in active {
          born := born[k := |Of(log, k)|];
        }
        active := active[k := a];
      }
    }

    method Clear(c: Rule, st: SubjectState, pv: Preview, now: nat)
      requires Valid() && Known(c, st)
      modifies `active, `head, `count, `pending, `log, `born, events
      ensures Valid()
      ensures LifeOf(st.key) ==
        Cleared(old(LifeOf(st.key)), st.key, pv, now, Muted(c, maintenance, st.key.subject, now))
      ensures log ==
        if AnyHolds(MemoOf(st.key)) then old(log)
        else old(log) + [Event(now, st.key, Resolved, pv, Muted(c, maintenance, st.key.subject, now))]
      ensures forall k: Key | k != st.key :: LifeOf(k) == old(LifeOf(k))
    {
      hide Shelved, MemoOf, RingHoldsLog, RulesAgree, Of, Muted, SubjectState.Value, SubjectState.Repr,
           SubjectState.Valid;
      OnShelf(st);
      var left := st.GetCurrent();
      if left.None? {
        Change(c, st, Resolved, pv, now);
        return;
      }
      if st.key in active {
        active := active[st.key := active[st.key].(state := left.value.0, preview := left.value.1)];
      }
    }

    method Update(st: SubjectState, state: State, pv: Preview)
      requires Valid() && st.key in states && states[st.key] == st
      modifies `active
      ensures Valid()
      ensures LifeOf(st.key) == Updated(old(LifeOf(st.key)), state, pv)
      ensures forall k: Key | k != st.key :: LifeOf(k) == old(LifeOf(k))
    {
      hide Shelved, MemoOf, RingHoldsLog, RulesAgree, Of, Muted, SubjectState.Value, SubjectState.Repr,
           SubjectState.Valid;
      OnShelf(st);
      if st.key in active && active[st.key].state == state {
        active := active[st.key := active[st.key].(preview := pv)];
      }
    }

    // ----- working on one memory -----

    /** Only st changed: every other memory is as it was, and st is still its own. */
    twostate lemma OnlyChanged(st: SubjectState)
      requires old(Shelved()) && states == old(states) && st.key in states && states[st.key] == st
      requires st.Valid() && old(st.Repr()) <= st.Repr() && fresh(st.Repr() - old(st.Repr()))
      requires Shelf == old(Shelf) + st.Repr()
      requires forall o | o in old(Shelf) && o !in st.Repr() :: unchanged(o)
      ensures Shelved()
      ensures MemoOf(st.key) == st.Value()
      ensures forall k: Key | k != st.key :: MemoOf(k) == old(MemoOf(k))
    {
      forall k | k in states && k != st.key
        ensures states[k].Valid() && states[k].Repr() <= Shelf && states[k].Repr() !! st.Repr()
        ensures states[k].Value() == old(states[k].Value()) && states[k].Repr() == old(states[k].Repr())
      {
        assert old(states[k].Repr() !! st.Repr());
        assert forall o | o in old(states[k].Repr()) :: o in old(Shelf) && o !in st.Repr();
      }
    }

    /** A condition begins to hold. */
    method Start(c: Rule, st: SubjectState, s: State, pv: Preview, now: nat)
      requires Valid() && Known(c, st)
      modifies st`firing, st`level, st`rate, st`stuck, st`stale, st`ratePreview, st`levelPreview, st`stuckPreview,
               `active, `head, `count, `pending, `log, `born, events
      ensures Valid()
      ensures LifeOf(st.key) ==
        Changed(old(LifeOf(st.key)).(memo := WithReading(WithFlag(old(MemoOf(st.key)), s, true), s, pv)), st.key, s, pv,
          now, Muted(c, maintenance, st.key.subject, now))
      ensures forall k: Key | k != st.key :: LifeOf(k) == old(LifeOf(k))
    {
      hide Shelved, MemoOf, RingHoldsLog, RulesAgree, Of, Muted, Cleared, Changed, SubjectState.Value,
           SubjectState.Repr, SubjectState.Valid;
      OnShelf(st);
      st.Set(s, true);
      st.SetReading(s, pv);
      OnlyChanged(st);
      Change(c, st, s, pv, now);
    }

    /** A condition stops holding. */
    method End(c: Rule, st: SubjectState, s: State, pv: Preview, now: nat)
      requires Valid() && Known(c, st)
      modifies st`firing, st`level, st`rate, st`stuck, st`stale, `active, `head, `count, `pending, `log, `born, events
      ensures Valid()
      ensures LifeOf(st.key) ==
        Cleared(old(LifeOf(st.key)).(memo := WithFlag(old(MemoOf(st.key)), s, false)), st.key, pv, now,
          Muted(c, maintenance, st.key.subject, now))
      ensures forall k: Key | k != st.key :: LifeOf(k) == old(LifeOf(k))
    {
      hide Shelved, MemoOf, RingHoldsLog, RulesAgree, Of, Muted, Cleared, Changed, SubjectState.Value,
           SubjectState.Repr, SubjectState.Valid;
      OnShelf(st);
      st.Set(s, false);
      OnlyChanged(st);
      Clear(c, st, pv, now);
    }

    /** A condition still holds but reads differently. */
    method Reread(st: SubjectState, s: State, pv: Preview)
      requires Valid() && st.key in states && states[st.key] == st
      modifies st`ratePreview, st`levelPreview, st`stuckPreview, `active
      ensures Valid()
      ensures LifeOf(st.key) == Updated(old(LifeOf(st.key)).(memo := WithReading(old(MemoOf(st.key)), s, pv)), s, pv)
      ensures forall k: Key | k != st.key :: LifeOf(k) == old(LifeOf(k))
    {
      hide Shelved, MemoOf, RingHoldsLog, RulesAgree, Of, Muted, Cleared, Changed, SubjectState.Value,
           SubjectState.Repr, SubjectState.Valid;
      OnShelf(st);
      st.SetReading(s, pv);
      OnlyChanged(st);
      Update(st, s, pv);
    }

    method Hear(st: SubjectState, now: nat)
      requires Valid() && st.key in states && states[st.key] == st
      modifies st`lastSeen, st`seen, st`firstSeen, st`gapsN, st.gaps
      ensures Valid()
      ensures LifeOf(st.key) == old(LifeOf(st.key)).(memo := Heard(old(MemoOf(st.key)), now))
      ensures forall k: Key | k != st.key :: LifeOf(k) == old(LifeOf(k))
    {
      hide Shelved, MemoOf, RingHoldsLog, RulesAgree, Of, Muted, Cleared, Changed, Heard, SubjectState.Value;
      OnShelf(st);
      st.Hear(now);
      OnlyChanged(st);
    }

    method EndSilence(c: Rule, st: SubjectState, m: Message, now: nat)
      requires Valid() && Known(c, st)
      modifies st`firing, st`level, st`rate, st`stuck, st`stale, `active, `head, `count, `pending, `log, `born, events
      ensures Valid()
      ensures LifeOf(st.key) ==
        SilenceEnded(old(LifeOf(st.key)), st.key, m, now, Muted(c, maintenance, st.key.subject, now))
      ensures forall k: Key | k != st.key :: LifeOf(k) == old(LifeOf(k))
    {
      hide Shelved, MemoOf, RingHoldsLog, RulesAgree, Of, Muted, Cleared, Changed, SubjectState.Value,
           SubjectState.Repr, SubjectState.Valid;
      OnShelf(st);
      if st.stale {
        End(c, st, Stale, Text(m.preview), now);
      }
    }

    method Sample(c: Rule, st: SubjectState, m: Message, now: nat)
      requires Valid() && Known(c, st)
      modifies `Shelf, st`win, if st.win == null then {} else {st.win.b}
      ensures Valid() && fresh(Shelf - old(Shelf))
      ensures LifeOf(st.key) == old(LifeOf(st.key)).(memo := Sampled(old(MemoOf(st.key)), c, m, now))
      ensures forall k: Key | k != st.key :: LifeOf(k) == old(LifeOf(k))
    {
      hide Shelved, MemoOf, RingHoldsLog, RulesAgree, Of, Muted, Cleared, Changed, Sampled, SubjectState.Value;
      OnShelf(st);
      st.Sample(c, m, now);
      Shelf := Shelf + st.Repr();
      OnlyChanged(st);
    }

    method SeeValue(c: Rule, st: SubjectState, m: Message, now: nat)
      requires Valid() && Known(c, st)
      modifies st`lastValue, st`lastChange, st`firing, st`level, st`rate, st`stuck, st`stale, `active, `head, `count,
               `pending, `log, `born, events
      ensures Valid()
      ensures LifeOf(st.key) ==
        ValueSeen(old(LifeOf(st.key)), st.key, c, m, now, Muted(c, maintenance, st.key.subject, now))
      ensures forall k: Key | k != st.key :: LifeOf(k) == old(LifeOf(k))
    {
      hide Shelved, MemoOf, RingHoldsLog, RulesAgree, Of, Muted, Cleared, Changed, ValueOf, SubjectState.Value,
           SubjectState.Repr, SubjectState.Valid;
      OnShelf(st);
      if c.unchangedFor > 0 {
        var val := ValueOf(c, m);
        if st.lastChange == 0 || val != st.lastValue {
          st.SetValue(val, now);
          OnlyChanged(st);
          if st.stuck {
            End(c, st, Stuck, Text(m.preview), now);
          }
        }
      }
    }

    method Evaluate(c: Rule, st: SubjectState, m: Message, now: nat)
      requires Valid() && Known(c, st)
      modifies st`preview, st`firing, st`level, st`rate, st`stuck, st`stale, st`ratePreview, st`levelPreview,
               st`stuckPreview, `active, `head, `count, `pending, `log, `born, events
      ensures Valid()
      ensures LifeOf(st.key) ==
        Evaluated(old(LifeOf(st.key)), st.key, c, m, now, Muted(c, maintenance, st.key.subject, now))
      ensures forall k: Key | k != st.key :: LifeOf(k) == old(LifeOf(k))
    {
      hide Shelved, MemoOf, RingHoldsLog, RulesAgree, Of, Muted, Cleared, Changed, SubjectState.Value,
           SubjectState.Repr, SubjectState.Valid;
      OnShelf(st);
      var hit := c.expr in m.holds;
      if hit && !st.firing {
        st.SetPreview(m.preview);
        OnlyChanged(st);
        Start(c, st, Firing, Text(m.preview), now);
      } else if !hit && st.firing {
        End(c, st, Firing, Text(m.preview), now);
      }
    }

    /** Evaluates the expression, at most once a second. */
    method Judge(c: Rule, st: SubjectState, m: Message, now: nat)
      requires Valid() && Known(c, st)
      modifies st`lastEval, st`preview, st`firing, st`level, st`rate, st`stuck, st`stale, st`ratePreview,
               st`levelPreview, st`stuckPreview, `active, `head, `count, `pending, `log, `born, events
      ensures Valid()
      ensures LifeOf(st.key) ==
        Judged(old(LifeOf(st.key)), st.key, c, m, now, Muted(c, maintenance, st.key.subject, now))
      ensures forall k: Key | k != st.key :: LifeOf(k) == old(LifeOf(k))
    {
      hide Shelved, MemoOf, RingHoldsLog, RulesAgree, Of, Muted, Cleared, Changed, Evaluated, SubjectState.Value,
           SubjectState.Repr, SubjectState.Valid;
      OnShelf(st);
      if c.expr != "" && now - st.lastEval >= EVAL_EVERY {
        st.SetEvaluated(now);
        OnlyChanged(st);
        Evaluate(c, st, m, now);
      } else if st.preview == "" {
        st.SetPreview(m.preview);
        OnlyChanged(st);
      }
    }

    // ----- a tick -----

    method CheckStale(c: Rule, st: SubjectState, now: nat)
      requires Valid() && Known(c, st)
      modifies st`firing, st`level, st`rate, st`stuck, st`stale, st`ratePreview, st`levelPreview, st`stuckPreview,
               `active, `head, `count, `pending, `log, `born, events
      ensures Valid()
      ensures LifeOf(st.key) ==
        StaleChecked(old(LifeOf(st.key)), st.key, c, now, Muted(c, maintenance, st.key.subject, now))
      ensures forall k: Key | k != st.key :: LifeOf(k) == old(LifeOf(k))
    {
      hide Shelved, MemoOf, RingHoldsLog, RulesAgree, Of, Muted, Cleared, Changed, TypicalGap, SubjectState.Value,
           SubjectState.Repr, SubjectState.Valid;
      OnShelf(st);
      if c.staleAfter <= 0 && !c.staleAuto {
        return;
      }
      var after := c.staleAfter * 1000;
      if c.staleAuto {
        var gap := st.GetTypicalGap();
        var learned := gap * STALE_FACTOR;
        if learned == 0 {
          return;
        }
        if learned > after {
          after := learned;
        }
      }
      if !st.stale && st.lastSeen > 0 && now - st.lastSeen > after {
        Start(c, st, Stale, Text(st.preview), now);
      }
    }

    method CheckRate(c: Rule, st: SubjectState, t: Stats, now: nat)
      requires Valid() && Known(c, st)
      modifies st`firing, st`level, st`rate, st`stuck, st`stale, st`ratePreview, st`levelPreview, st`stuckPreview,
               `active, `head, `count, `pending, `log, `born, events
      ensures Valid()
      ensures LifeOf(st.key) ==
        RateChecked(old(LifeOf(st.key)), st.key, c, t, now, Muted(c, maintenance, st.key.subject, now))
      ensures forall k: Key | k != st.key :: LifeOf(k) == old(LifeOf(k))
    {
      hide Shelved, MemoOf, RingHoldsLog, RulesAgree, Of, Muted, Cleared, Changed, RateVerdict, RateHit,
           SubjectState.Value, SubjectState.Repr, SubjectState.Valid;
      OnShelf(st);
      if c.minCount.Some? || c.maxCount.Some? {
        var hit, pv := JudgeRate(c, st, t.count, now);
        if hit && !st.rate {
          Start(c, st, Rate, pv, now);
        } else if hit && st.rate && pv != st.ratePreview {
          Reread(st, Rate, pv);
        } else if !hit && st.rate {
          End(c, st, Rate, pv, now);
        }
      }
    }

    /** A count that is too low is only judged once the subject has been watched for a whole window. */
    method JudgeRate(c: Rule, st: SubjectState, count: int, now: nat) returns (hit: bool, pv: Preview)
      requires st.Valid()
      ensures hit == RateHit(c, st.Value(), count, now) && pv == RateVerdict(c, count).1
    {
      var verdict := RateVerdict(c, count);
      hit, pv := verdict.0, verdict.1;
      if hit && c.minCount.Some? && count < c.minCount.value && now - st.firstSeen < c.window * 1000 {
        hit := false;
      }
    }

    method CheckLevel(c: Rule, st: SubjectState, t: Stats, now: nat)
      requires Valid() && Known(c, st)
      modifies st`firing, st`level, st`rate, st`stuck, st`stale, st`ratePreview, st`levelPreview, st`stuckPreview,
               `active, `head, `count, `pending, `log, `born, events
      ensures Valid()
      ensures LifeOf(st.key) ==
        LevelChecked(old(LifeOf(st.key)), st.key, c, t, now, Muted(c, maintenance, st.key.subject, now))
      ensures forall k: Key | k != st.key :: LifeOf(k) == old(LifeOf(k))
    {
      hide Shelved, MemoOf, RingHoldsLog, RulesAgree, Of, Muted, Cleared, Changed, LevelVerdict, SubjectState.Value,
           SubjectState.Repr, SubjectState.Valid;
      OnShelf(st);
      if HasAggregate(c) {
        var (hit, pv) := LevelVerdict(c, t);
        if hit && !st.level {
          Start(c, st, Level, pv, now);
        } else if hit && st.level && pv != st.levelPreview {
          Reread(st, Level, pv);
        } else if !hit && st.level {
          End(c, st, Level, pv, now);
        }
      }
    }

    method CheckWindow(c: Rule, st: SubjectState, now: nat)
      requires Valid() && Known(c, st)
      modifies st`firing, st`level, st`rate, st`stuck, st`stale, st`ratePreview, st`levelPreview, st`stuckPreview,
               `active, `head, `count, `pending, `log, `born, events
      ensures Valid()
      ensures LifeOf(st.key) ==
        WindowChecked(old(LifeOf(st.key)), st.key, c, now, Muted(c, maintenance, st.key.subject, now))
      ensures forall k: Key | k != st.key :: LifeOf(k) == old(LifeOf(k))
    {
      hide Shelved, MemoOf, RingHoldsLog, RulesAgree, Of, Muted, Cleared, Changed, RateChecked, LevelChecked, Totals,
           SubjectState.Value, SubjectState.Repr, SubjectState.Valid;
      OnShelf(st);
      if !HasWindow(c) || st.win == null {
        return;
      }
      var t := WindowTotals(st, c, now);
      CheckRate(c, st, t, now);
      CheckLevel(c, st, t, now);
    }

    method WindowTotals(st: SubjectState, c: Rule, now: nat) returns (t: Stats)
      requires st.Valid() && st.win != null
      ensures st.Value().win.Some? && t == Totals(st.Value().win.value, now, c.window * 1000)
    {
      t := st.win.GetTotals(now, c.window * 1000);
    }

    method CheckStuck(c: Rule, st: SubjectState, now: nat)
      requires Valid() && Known(c, st)
      modifies st`firing, st`level, st`rate, st`stuck, st`stale, st`ratePreview, st`levelPreview, st`stuckPreview,
               `active, `head, `count, `pending, `log, `born, events
      ensures Valid()
      ensures LifeOf(st.key) ==
        StuckChecked(old(LifeOf(st.key)), st.key, c, now, Muted(c, maintenance, st.key.subject, now))
      ensures forall k: Key | k != st.key :: LifeOf(k) == old(LifeOf(k))
    {
      hide Shelved, MemoOf, RingHoldsLog, RulesAgree, Of, Muted, Cleared, Changed, SubjectState.Value,
           SubjectState.Repr, SubjectState.Valid;
      OnShelf(st);
      if c.unchangedFor <= 0 || st.stuck || st.seen < 2 || st.lastChange == 0 {
        return;
      }
      if now - st.lastChange > c.unchangedFor * 1000 {
        var what := if c.field != "" then st.lastValue else "payload";
        Start(c, st, Stuck, StuckText(what, GoDiv(now - st.lastChange, 1000)), now);
      }
    }

    method CheckState(c: Rule, st: SubjectState, now: nat)
      requires Valid() && Known(c, st)
      modifies st`firing, st`level, st`rate, st`stuck, st`stale, st`ratePreview, st`levelPreview, st`stuckPreview,
               `active, `head, `count, `pending, `log, `born, events
      ensures Valid()
      ensures LifeOf(st.key) == Checked(old(LifeOf(st.key)), st.key, c, now, Muted(c, maintenance, st.key.subject, now))
      ensures forall k: Key | k != st.key :: LifeOf(k) == old(LifeOf(k))
    {
      hide Shelved, MemoOf, RingHoldsLog, RulesAgree, Of, Muted, Cleared, Changed, StaleChecked, WindowChecked,
           StuckChecked, SubjectState.Value, SubjectState.Repr, SubjectState.Valid;
      OnShelf(st);
      CheckStale(c, st, now);
      CheckWindow(c, st, now);
      CheckStuck(c, st, now);
    }

    /** A memory for a key seen for the first time. */
    method AddState(k: Key)
      requires Valid() && k !in states && k.ruleID in byID && byID[k.ruleID].enabled
      modifies `states, `Shelf
      ensures Valid() && fresh(Shelf - old(Shelf))
      ensures states.Keys == old(states).Keys + {k}
      ensures forall j: Key :: LifeOf(j) == old(LifeOf(j))
    {
      var st := new SubjectState(k);
      states := states[k := st];
      Shelf := Shelf + st.Repr();
      Joined(k);
    }

    twostate lemma Joined(k: Key)
      requires old(Shelved()) && k !in old(states) && k in states && states == old(states)[k := states[k]]
      requires fresh(states[k].Repr()) && states[k].Valid() && states[k].key == k && states[k].Value() == FreshMemo()
      requires Shelf == old(Shelf) + states[k].Repr()
      requires forall o | o in old(Shelf) :: unchanged(o)
      ensures Shelved() && forall j: Key :: MemoOf(j) == old(MemoOf(j))
    {
      forall j | j in old(states)
        ensures states[j].Valid() && states[j].Repr() <= Shelf && states[j].Repr() !! states[k].Repr()
        ensures states[j].Value() == old(states[j].Value()) && states[j].Repr() == old(states[j].Repr())
      {
        assert forall o | o in old(states[j].Repr()) :: o in old(Shelf);
      }
    }

    /** The rules a message is for: enabled, and its subject matches the pattern. */
    ghost predicate Applies(c: Rule, connID: string, m: Message, k: Key) {
      && k == Key(c.id, connID, m.subject)
      && c.enabled && SubjectMatch.Matches(SubjectMatch.Tokens(c.pattern), SubjectMatch.Tokens(m.subject))
    }

    method ObserveRule(c: Rule, connID: string, m: Message, now: nat)
      requires Valid() && c.id in byID && byID[c.id] == c && c.enabled
      modifies `states, `Shelf, Shelf, `active, `head, `count, `pending, `log, `born, events
      ensures Valid() && fresh(Shelf - old(Shelf))
      ensures states.Keys == old(states).Keys + {Key(c.id, connID, m.subject)}
      ensures var k := Key(c.id, connID, m.subject);
        LifeOf(k) == Observed(old(LifeOf(k)), k, c, m, now, Muted(c, maintenance, k.subject, now))
      ensures forall k: Key | k != Key(c.id, connID, m.subject) :: LifeOf(k) == old(LifeOf(k))
    {
      hide Shelved, MemoOf, LifeOf, RingHoldsLog, Of, Muted, Observed, SubjectState.Value, SubjectState.Valid;
      var k := Key(c.id, connID, m.subject);
      if k !in states {
        AddState(k);
      }
      KeyOfState(k);
      HearMessage(c, states[k], m, now);
    }

    method HearMessage(c: Rule, st: SubjectState, m: Message, now: nat)
      requires Valid() && Known(c, st)
      modifies `Shelf, Shelf, `active, `head, `count, `pending, `log, `born, events
      ensures Valid() && fresh(Shelf - old(Shelf))
      ensures LifeOf(st.key) ==
        Observed(old(LifeOf(st.key)), st.key, c, m, now, Muted(c, maintenance, st.key.subject, now))
      ensures forall k: Key | k != st.key :: LifeOf(k) == old(LifeOf(k))
    {
      hide Shelved, MemoOf, RingHoldsLog, RulesAgree, Of, Muted, SilenceEnded, Heard, Examined, SubjectState.Value,
           SubjectState.Valid;
      OnShelf(st);
      Hear(st, now);
      EndSilence(c, st, m, now);
      Examine(c, st, m, now);
    }

    method Examine(c: Rule, st: SubjectState, m: Message, now: nat)
      requires Valid() && Known(c, st)
      modifies `Shelf, Shelf, `active, `head, `count, `pending, `log, `born, events
      ensures Valid() && fresh(Shelf - old(Shelf))
      ensures LifeOf(st.key) ==
        Examined(old(LifeOf(st.key)), st.key, c, m, now, Muted(c, maintenance, st.key.subject, now))
      ensures forall k: Key | k != st.key :: LifeOf(k) == old(LifeOf(k))
    {
      hide Shelved, MemoOf, RingHoldsLog, RulesAgree, Of, Muted, Sampled, ValueSeen, Judged, SubjectState.Value,
           SubjectState.Valid;
      OnShelf(st);
      Sample(c, st, m, now);
      SeeValue(c, st, m, now);
      Judge(c, st, m, now);
    }

    lemma KeyOfState(k: Key)
      requires Shelved() && k in states
      ensures states[k].key == k
    {
    }

    /** The key is one of a rule this message is for. */
    ghost predicate Concerns(ids: map<string, Rule>, connID: string, m: Message, k: Key) {
      k.ruleID in ids && Applies(ids[k.ruleID], connID, m, k)
    }

    lemma RuleOfKey(connID: string, m: Message)
      requires DistinctIds(rules) && byID == ById(rules)
      ensures forall c, k: Key | c in rules && Applies(c, connID, m, k) ::
        Concerns(byID, connID, m, k) && byID[k.ruleID] == c
      ensures forall k: Key | Concerns(byID, connID, m, k) ::
        byID[k.ruleID] in rules && Applies(byID[k.ruleID], connID, m, k)
    {
      hide ById, SubjectMatch.Matches;
      ByIdFinds(rules);
    }

    /** The hot path: one message, every rule in turn. */
    method Observe(connID: string, m: Message, now: nat)
      requires Sound()
      modifies `states, `Shelf, Shelf, `active, `head, `count, `pending, `log, `born, `trace, events
      ensures Sound() && fresh(Shelf - old(Shelf))
      ensures forall k: Key | Concerns(byID, connID, m, k) ::
        && LifeOf(k) == Observed(old(LifeOf(k)), k, byID[k.ruleID], m, now, MutedAt(k, now))
        && trace(k) == old(trace)(k) + [Step.Hear(byID[k.ruleID], m, now, MutedAt(k, now))]
      ensures forall c, k: Key | c in rules && Applies(c, connID, m, k) ::
        Concerns(byID, connID, m, k) && byID[k.ruleID] == c
      ensures forall k: Key | !Concerns(byID, connID, m, k) :: LifeOf(k) == old(LifeOf(k)) && trace(k) == old(trace)(k)
    {
      hide Shelved, MemoOf, LifeOf, RingHoldsLog, Of, Muted, Consistent, Observed, Applies, ById, Run,
           AlertTraffic.UnderRule, SameWatch;
      RuleOfKey(connID, m);
      ObserveRules(connID, m, now);
      ghost var was, ids, mt := trace, byID, maintenance;
      trace := (k: Key) =>
        if Concerns(ids, connID, m, k)
          then was(k) + [Step.Hear(ids[k.ruleID], m, now, Muted(ids[k.ruleID], mt, k.subject, now))] else was(k);
      forall k: Key ensures LifeOf(k) == Run(k, trace(k)) && Watched(k) {
        assert old(Watched(k));
        if Concerns(byID, connID, m, k) {
          HeardStep(k, was(k), byID[k.ruleID], Step.Hear(byID[k.ruleID], m, now, MutedAt(k, now)));
        }
      }
      TracedIsConsistent();
    }

    lemma HeardStep(k: Key, was: seq<Step>, c: Rule, s: Step)
      requires Shelved() && LifeOf(k) == Next(Run(k, was), k, s) && trace(k) == was + [s]
      requires AlertTraffic.UnderRule(c, was) && (s.Hear? || s.Check? ==> s.c == c)
      ensures LifeOf(k) == Run(k, trace(k)) && AlertTraffic.UnderRule(c, trace(k))
    {
      OneMoreStep(k, was, s);
      AlertTraffic.UnderRuleOfOneMore(c, was, s);
    }

    method ObserveRules(connID: string, m: Message, now: nat)
      requires Valid()
      modifies `states, `Shelf, Shelf, `active, `head, `count, `pending, `log, `born, events
      ensures Valid() && fresh(Shelf - old(Shelf)) && old(states).Keys <= states.Keys
      ensures forall k: Key | Concerns(byID, connID, m, k) :: k in states
      ensures forall k: Key | Concerns(byID, connID, m, k) ::
        LifeOf(k) == Observed(old(LifeOf(k)), k, byID[k.ruleID], m, now, MutedAt(k, now))
      ensures forall k: Key | !Concerns(byID, connID, m, k) :: LifeOf(k) == old(LifeOf(k))
    {
      hide Shelved, MemoOf, LifeOf, RingHoldsLog, Of, MutedAt, Observed, ById, Concerns, DistinctIds, IdsOf;
      RulesAreNumbered();
      hide RulesAgree;
      for i := 0 to |rules|
        invariant Valid() && fresh(Shelf - old(Shelf)) && old(states).Keys <= states.Keys
        invariant forall k: Key | Concerns(byID, connID, m, k) && k.ruleID in IdsOf(rules[..i]) :: k in states
        invariant forall k: Key | Concerns(byID, connID, m, k) && k.ruleID in IdsOf(rules[..i]) ::
          LifeOf(k) == Observed(old(LifeOf(k)), k, byID[k.ruleID], m, now, MutedAt(k, now))
        invariant forall k: Key | !(Concerns(byID, connID, m, k) && k.ruleID in IdsOf(rules[..i])) ::
          LifeOf(k) == old(LifeOf(k))
      {
        ObserveIfMeant(rules[i], connID, m, now);
      }
      assert rules[..|rules|] == rules;
      ConcernsIsOfRule(connID, m);
    }

    /** Every rule is found under its own id, and the ids of those in front of it are others. */
    lemma RulesAreNumbered()
      requires RulesAgree()
      ensures forall i | 0 <= i < |rules| :: rules[i].id in byID && byID[rules[i].id] == rules[i]
      ensures IdsOf(rules[..0]) == {}
      ensures forall i | 0 <= i < |rules| ::
        rules[i].id !in IdsOf(rules[..i]) && IdsOf(rules[..i + 1]) == IdsOf(rules[..i]) + {rules[i].id}
      ensures forall id :: id in byID ==> id in IdsOf(rules)
    {
      hide ById;
      ByIdFinds(rules);
      forall i | 0 <= i < |rules| ensures IdsOf(rules[..i + 1]) == IdsOf(rules[..i]) + {rules[i].id} {
        assert rules[..i + 1] == rules[..i] + [rules[i]];
      }
    }

    lemma ConcernsIsOfRule(connID: string, m: Message)
      ensures forall k: Key | Concerns(byID, connID, m, k) :: k.ruleID in byID
    {
    }

    method ObserveIfMeant(c: Rule, connID: string, m: Message, now: nat)
      requires Valid() && c.id in byID && byID[c.id] == c
      modifies `states, `Shelf, Shelf, `active, `head, `count, `pending, `log, `born, events
      ensures Valid() && fresh(Shelf - old(Shelf)) && old(states).Keys <= states.Keys
      ensures forall k: Key | Concerns(byID, connID, m, k) && k.ruleID == c.id :: k in states
      ensures forall k: Key | Concerns(byID, connID, m, k) && k.ruleID == c.id ::
        LifeOf(k) == Observed(old(LifeOf(k)), k, c, m, now, MutedAt(k, now))
      ensures forall k: Key | !(Concerns(byID, connID, m, k) && k.ruleID == c.id) :: LifeOf(k) == old(LifeOf(k))
    {
      hide Shelved, MemoOf, LifeOf, RingHoldsLog, Of, Muted, Observed, ById, SubjectMatch.Matches;
      if !c.enabled {
        return;
      }
      var matches := SubjectMatch.ServerMatch(c.pattern, m.subject);
      if matches {
        ObserveRule(c, connID, m, now);
      }
    }

    ghost predicate MutedAt(k: Key, now: nat)
      requires k.ruleID in byID
      reads `byID, `maintenance
    {
      Muted(byID[k.ruleID], maintenance, k.subject, now)
    }

    /**
     * One pass of everything time decides: each memory once, in any order, then
     * the mutes. The conditions are then what the messages heard say they are.
     */
    method Tick(now: nat)
      requires Sound()
      modifies Shelf, `active, `head, `count, `pending, `log, `born, `trace, events
      ensures Sound()
      ensures forall k: Key | k in states ::
        && LifeOf(k) ==
              Refreshed(Checked(old(LifeOf(k)), k, byID[k.ruleID], now, MutedAt(k, now)), k, now, MutedAt(k, now))
        && trace(k) == old(trace)(k) + [Check(byID[k.ruleID], now, MutedAt(k, now)), Refresh(now, MutedAt(k, now))]
      ensures forall k: Key | k !in states :: LifeOf(k) == old(LifeOf(k)) && trace(k) == old(trace)(k)
      ensures forall k: Key | k in states && AlertTraffic.TickAfter(byID[k.ruleID], old(trace)(k), now) ::
        AlertTraffic.TickDecided(MemoOf(k), byID[k.ruleID], AlertTraffic.Arrivals(old(trace)(k)), now)
    {
      hide Shelved, MemoOf, LifeOf, RingHoldsLog, Of, MutedAt, Consistent, Checked, Refreshed, Traced,
           AlertTraffic.TickDecided,
           AlertTraffic.TickAfter;
      CheckTime(now);
      RefreshMuted(now);
    }

    /** The checks of a tick. */
    method CheckTime(now: nat)
      requires Sound()
      modifies Shelf, `active, `head, `count, `pending, `log, `born, `trace, events
      ensures Sound()
      ensures forall k: Key | k in states ::
        && LifeOf(k) == Checked(old(LifeOf(k)), k, byID[k.ruleID], now, MutedAt(k, now))
        && trace(k) == old(trace)(k) + [Check(byID[k.ruleID], now, MutedAt(k, now))]
      ensures forall k: Key | k !in states :: LifeOf(k) == old(LifeOf(k)) && trace(k) == old(trace)(k)
      ensures forall k: Key | k in states && AlertTraffic.TickAfter(byID[k.ruleID], old(trace)(k), now) ::
        AlertTraffic.TickDecided(MemoOf(k), byID[k.ruleID], AlertTraffic.Arrivals(old(trace)(k)), now)
    {
      hide Shelved, MemoOf, LifeOf, RingHoldsLog, Of, Muted, Consistent, Checked, Run, AlertTraffic.UnderRule,
           AlertTraffic.TickDecided, AlertTraffic.TickAfter, SameWatch;
      CheckAll(now);
      ghost var was, known, ids, mt := trace, states.Keys, byID, maintenance;
      trace := (k: Key) =>
        if k in known && k.ruleID in ids
          then was(k) + [Check(ids[k.ruleID], now, Muted(ids[k.ruleID], mt, k.subject, now))] else was(k);
      forall k: Key ensures LifeOf(k) == Run(k, trace(k)) && Watched(k) {
        assert old(Watched(k));
        if k in states {
          HeardStep(k, was(k), byID[k.ruleID], Check(byID[k.ruleID], now, MutedAt(k, now)));
        }
      }
      TracedIsConsistent();
      forall k: Key | k in states && AlertTraffic.TickAfter(byID[k.ruleID], was(k), now)
        ensures AlertTraffic.TickDecided(MemoOf(k), byID[k.ruleID], AlertTraffic.Arrivals(was(k)), now)
      {
        AlertTraffic.TickDecides(k, byID[k.ruleID], was(k), now, MutedAt(k, now));
        MemoIsOfLife(k);
      }
    }

    lemma MemoIsOfLife(k: Key)
      requires Shelved()
      ensures MemoOf(k) == LifeOf(k).memo
    {
    }

    method CheckAll(now: nat)
      requires Valid() && forall k | k in states :: k.ruleID in byID
      modifies Shelf, `active, `head, `count, `pending, `log, `born, events
      ensures Valid()
      ensures forall k: Key | k in states ::
        LifeOf(k) == Checked(old(LifeOf(k)), k, byID[k.ruleID], now, MutedAt(k, now))
      ensures forall k: Key | k !in states :: LifeOf(k) == old(LifeOf(k))
    {
      hide Shelved, MemoOf, LifeOf, RingHoldsLog, RulesAgree, Of, MutedAt, Checked;
      var todo := states.Keys;
      while todo != {}
        invariant todo <= states.Keys && Valid()
        invariant forall k: Key | k in states && k !in todo ::
          LifeOf(k) == Checked(old(LifeOf(k)), k, byID[k.ruleID], now, MutedAt(k, now))
        invariant forall k: Key | k !in states || k in todo :: LifeOf(k) == old(LifeOf(k))
        decreases todo
      {
        var k :| k in todo;
        CheckKey(k, now);
        todo := todo - {k};
      }
    }

    method CheckKey(k: Key, now: nat)
      requires Valid() && k in states && k.ruleID in byID
      modifies Shelf, `active, `head, `count, `pending, `log, `born, events
      ensures Valid()
      ensures LifeOf(k) == Checked(old(LifeOf(k)), k, byID[k.ruleID], now, MutedAt(k, now))
      ensures forall j: Key | j != k :: LifeOf(j) == old(LifeOf(j))
    {
      hide Shelved, MemoOf, RingHoldsLog, Of, Muted, Checked, ById, SubjectState.Value, SubjectState.Valid,
           SubjectState.Repr;
      ByIdFinds(rules);
      KeyOfState(k);
      OnShelf(states[k]);
      var c := byID[k.ruleID];
      if c.enabled {
        CheckState(c, states[k], now);
      }
    }

    /** Reads every active alert's mute again; one that comes out of it and is still true is announced now. */
    method RefreshMuted(now: nat)
      requires Sound()
      modifies `active, `head, `count, `pending, `log, `trace, events
      ensures Sound()
      ensures forall k: Key | k in states ::
        && LifeOf(k) == Refreshed(old(LifeOf(k)), k, now, MutedAt(k, now))
        && trace(k) == old(trace)(k) + [Refresh(now, MutedAt(k, now))]
      ensures forall k: Key | k !in states :: LifeOf(k) == old(LifeOf(k)) && trace(k) == old(trace)(k)
      ensures forall k: Key :: MemoOf(k) == old(MemoOf(k))
    {
      hide Shelved, MemoOf, LifeOf, RingHoldsLog, Of, Muted, Consistent, Refreshed, Run, AlertTraffic.UnderRule,
           SameWatch;
      ActiveIsRemembered();
      RefreshAll(now);
      ghost var was, known, ids, mt := trace, states.Keys, byID, maintenance;
      trace := (k: Key) =>
        if k in known && k.ruleID in ids then was(k) + [Refresh(now, Muted(ids[k.ruleID], mt, k.subject, now))]
          else was(k);
      forall k: Key ensures LifeOf(k) == Run(k, trace(k)) && Watched(k) {
        assert old(Watched(k));
        if k in states {
          HeardStep(k, was(k), byID[k.ruleID], Refresh(now, MutedAt(k, now)));
        }
      }
      TracedIsConsistent();
    }

    method RefreshAll(now: nat)
      requires Valid() && forall k | k in active :: k in states && k.ruleID in byID
      modifies `active, `head, `count, `pending, `log, events
      ensures Valid()
      ensures forall k: Key | k in states :: LifeOf(k) == Refreshed(old(LifeOf(k)), k, now, MutedAt(k, now))
      ensures forall k: Key | k !in states :: LifeOf(k) == old(LifeOf(k))
      ensures forall k: Key :: MemoOf(k) == old(MemoOf(k))
    {
      hide Shelved, MemoOf, LifeOf, RingHoldsLog, MutedAt, Of, DueAmong, Refreshed;
      var send := RereadMutes(now);
      ghost var silent := log;
      NotifyAll(send);
      forall k: Key ensures Of(log, k) == Of(silent, k) + Of(send, k) {
        OfConcat(silent, send, k);
      }
      RefreshTakesEffect(now);
    }

    twostate lemma RefreshTakesEffect(now: nat)
      requires old(Shelved()) && Shelved() && states == old(states) && born == old(born)
      requires forall k: Key :: MemoOf(k) == old(MemoOf(k))
      requires forall k | k in states :: k.ruleID in byID
      requires active.Keys == old(active.Keys)
      requires forall k | k in active :: k in states && active[k] == old(active)[k].(muted := MutedAt(k, now))
      requires forall k: Key :: Of(log, k) == Of(old(log), k) + DueAmong(active.Keys, old(active), active, k, now)
      ensures forall k: Key | k in states :: LifeOf(k) == Refreshed(old(LifeOf(k)), k, now, MutedAt(k, now))
      ensures forall k: Key | k !in states :: LifeOf(k) == old(LifeOf(k))
    {
      hide Shelved, MemoOf, MutedAt, Of, Due, Refreshed;
      forall k: Key | k in states ensures LifeOf(k) == Refreshed(old(LifeOf(k)), k, now, MutedAt(k, now)) {
        RefreshedParts(old(LifeOf(k)), LifeOf(k), k, now, MutedAt(k, now));
      }
    }

    lemma RefreshedParts(was: Life, is': Life, k: Key, now: nat, muted: bool)
      requires is'.memo == was.memo && is'.born == was.born
      requires was.alert.None? ==> is' == was
      requires was.alert.Some? ==>
        && is'.alert == Some(was.alert.value.(muted := muted))
        && is'.log == was.log + Due(k, was.alert.value, is'.alert.value, now)
      ensures is' == Refreshed(was, k, now, muted)
    {
    }

    /** Every active alert belongs to a memory, and so to a rule. */
    lemma ActiveIsRemembered()
      requires Sound()
      ensures forall k | k in active :: k in states && k.ruleID in byID
    {
      forall k | k in active ensures k in states {
        assert Consistent(LifeOf(k));
      }
    }

    /** The announcement an alert owes when it comes out of a mute. */
    ghost function Due(k: Key, was: Alert, is': Alert, now: nat): seq<Event> {
      if was.muted && !is'.muted then [Event(now, k, was.state, was.preview, false)] else []
    }

    /** The locked part: the mutes are set, the announcements that are due are collected. */
    method RereadMutes(now: nat) returns (send: seq<Event>)
      requires forall k | k in active :: k.ruleID in byID
      modifies `active
      ensures active.Keys == old(active.Keys)
      ensures forall k | k in active :: active[k] == old(active)[k].(muted := MutedAt(k, now))
      ensures forall k: Key :: Of(send, k) == DueAmong(active.Keys, old(active), active, k, now)
    {
      hide Of, MutedAt, DueAmong, Due;
      send := [];
      ghost var was := active;
      var todo := active.Keys;
      NothingDueYet(was, now);
      while todo != {}
        invariant active.Keys == was.Keys && todo <= was.Keys
        invariant forall k | k in todo :: active[k] == was[k]
        invariant forall k | k in was.Keys - todo :: active[k] == was[k].(muted := MutedAt(k, now))
        invariant forall k: Key :: Of(send, k) == DueAmong(was.Keys - todo, was, active, k, now)
        decreases todo
      {
        var k :| k in todo;
        ghost var before, done := active, was.Keys - todo;
        var due := RereadMute(k, now);
        OfBatch(send, due, k);
        DueOfOneMore(done, was, before, active[k], k, now);
        send := send + due;
        todo := todo - {k};
        assert was.Keys - todo == done + {k};
      }
      assert was.Keys - todo == was.Keys;
    }

    /** The announcement one key owes when the mutes of these keys were read again. */
    ghost function DueAmong(done: set<Key>, was: map<Key, Alert>, is': map<Key, Alert>, k: Key, now: nat): seq<Event> {
      if k in done && k in was && k in is' then Due(k, was[k], is'[k], now) else []
    }

    lemma NothingDueYet(was: map<Key, Alert>, now: nat)
      ensures forall k: Key :: Of([], k) == DueAmong(was.Keys - was.Keys, was, was, k, now)
    {
    }

    lemma DueOfOneMore(done: set<Key>, was: map<Key, Alert>, before: map<Key, Alert>, a: Alert, k: Key, now: nat)
      requires k in was && k !in done && before.Keys == was.Keys
      ensures forall j: Key ::
        DueAmong(done + {k}, was, before[k := a], j, now) ==
          DueAmong(done, was, before, j, now) + (if j == k then Due(k, was[k], a, now) else [])
    {
    }

    lemma OfBatch(send: seq<Event>, due: seq<Event>, k: Key)
      requires |due| <= 1 && forall e | e in due :: e.key == k
      ensures forall j: Key :: Of(send + due, j) == Of(send, j) + (if j == k then due else [])
    {
      hide Of;
      forall j: Key ensures Of(send + due, j) == Of(send, j) + (if j == k then due else []) {
        OfConcat(send, due, j);
        OfDue(due, k, j);
      }
    }

    lemma OfDue(due: seq<Event>, k: Key, j: Key)
      requires |due| <= 1 && forall e | e in due :: e.key == k
      ensures Of(due, j) == if j == k then due else []
    {
    }

    method RereadMute(k: Key, now: nat) returns (due: seq<Event>)
      requires k in active && k.ruleID in byID
      modifies `active
      ensures active == old(active)[k := old(active)[k].(muted := MutedAt(k, now))]
      ensures due == Due(k, old(active)[k], active[k], now)
      ensures |due| <= 1 && forall e | e in due :: e.key == k
    {
      due := [];
      var a := active[k];
      var muted := IsMuted(byID[k.ruleID], k.subject, now);
      if a.muted && !muted {
        due := [Event(now, k, a.state, a.preview, false)];
      }
      active := active[k := a.(muted := muted)];
    }

    /** Marks an active alert as seen, or takes that back; it stays active either way. */
    method Ack(key: Key, who: string, acked: bool, now: nat) returns (ok: bool)
      requires Sound()
      modifies `active, `trace
      ensures Sound() && (ok <==> AnyHolds(MemoOf(key)))
      ensures log == old(log) && states == old(states)
      ensures active ==
        if key !in old(active) then old(active)
        else old(active)[key := old(active)[key].(ackedAt := if acked then now else 0, ackedBy := if acked then who
          else "")]
      ensures LifeOf(key) == Acked(old(LifeOf(key)), now, who, acked)
        && trace(key) == old(trace)(key) + [Step.Ack(now, who, acked)]
      ensures forall k: Key | k != key :: LifeOf(k) == old(LifeOf(k)) && trace(k) == old(trace)(k)
    {
      hide Shelved, MemoOf, RingHoldsLog, RulesAgree, Of, Run, AlertTraffic.UnderRule, SameWatch,
           SubjectState.Value, SubjectState.Valid, SubjectState.Repr;
      assert Consistent(LifeOf(key));
      ok := key in active;
      if ok {
        var a := active[key];
        active := active[key := if acked then a.(ackedAt := now, ackedBy := who) else a.(ackedAt := 0, ackedBy := "")];
      }
      assert LifeOf(key) == Acked(old(LifeOf(key)), now, who, acked);
      hide LifeOf;
      ghost var was := trace;
      trace := (k: Key) => if k == key then was(k) + [Step.Ack(now, who, acked)] else was(k);
      forall k: Key ensures LifeOf(k) == Run(k, trace(k)) && Watched(k) {
        assert old(Watched(k));
        if k == key {
          StillWatched(k, was(k), Step.Ack(now, who, acked));
        }
      }
      TracedIsConsistent();
    }

    /** A step that is no message and no tick leaves open which rule watches the key. */
    lemma StillWatched(k: Key, was: seq<Step>, s: Step)
      requires Shelved() && LifeOf(k) == Next(Run(k, was), k, s) && trace(k) == was + [s] && !s.Hear? && !s.Check?
      ensures LifeOf(k) == Run(k, trace(k))
      ensures forall c: Rule :: s.Drop? || AlertTraffic.UnderRule(c, was) ==> AlertTraffic.UnderRule(c, trace(k))
    {
      hide AlertTraffic.UnderRule;
      OneMoreStep(k, was, s);
      forall c: Rule | s.Drop? || AlertTraffic.UnderRule(c, was) ensures AlertTraffic.UnderRule(c, trace(k)) {
        AlertTraffic.UnderRuleOfOneMore(c, was, s);
      }
    }

    /** At every moment a memory is what the messages heard since it started over make of it. */
    lemma MemoryFollowsTraffic(k: Key)
      requires Sound() && k in states && AlertTraffic.InTime(trace(k))
      ensures k.ruleID in byID
      ensures AlertTraffic.Follows(MemoOf(k), byID[k.ruleID], AlertTraffic.Arrivals(trace(k)),
        AlertTraffic.Clock(trace(k)))
    {
      hide AlertTraffic.UnderRule, AlertTraffic.InTime, AlertTraffic.Follows, Run, Shelved, MemoOf, LifeOf, Consistent;
      assert Watched(k);
      AlertTraffic.RunFollows(k, byID[k.ruleID], trace(k));
      MemoIsOfLife(k);
    }

    /** And an active alert shows and dates what those messages say. */
    lemma AlertsFollowTraffic(k: Key)
      requires Sound() && k in active && AlertTraffic.InTime(trace(k))
      ensures k.ruleID in byID
      ensures
        var A, c, a := AlertTraffic.Arrivals(trace(k)), byID[k.ruleID], active[k];
        var f, e := AlertTraffic.FiredBy(c, A), AlertShows.LastEnd(k, trace(k));
        && a.at == AlertShows.TimeOf(A, AlertShows.LastBegin(k, trace(k)))
        && (a.state.Stale? ==> a.preview == Text(AlertShows.Shown(c, A)))
        && (a.state.Firing? ==>
              && f.Some?
              && (a.preview == Text(A[f.value].m.preview) <==>
                  A[f.value].m.preview != "" || e.None? || AlertShows.SilentUntil(c, A, f.value + 1, e.value)))
    {
      hide AlertTraffic.UnderRule, AlertTraffic.InTime, Run, Shelved, MemoOf, Consistent, AlertTraffic.FiredBy,
           AlertTraffic.Arrivals, AlertShows.Shown, AlertShows.LastEnd, AlertShows.LastBegin, AlertShows.TimeOf;
      ActiveIsRemembered();
      assert Watched(k) && LifeOf(k) == Run(k, trace(k));
      var c := byID[k.ruleID];
      AlertShows.AlertIsOfLastBegin(k, c, trace(k));
      if active[k].state.Stale? {
        AlertShows.StaleShowsLastIff(k, c, trace(k));
      } else if active[k].state.Firing? {
        AlertShows.FiringShowsWhatFiredIff(k, c, trace(k));
      }
    }

    /** And the last thing that happened to a key was told as it should be. */
    lemma LastStepIsTold(k: Key)
      requires Sound() && trace(k) != []
      ensures
        var n := |trace(k)| - 1;
        AlertEvents.StepTold(Run(k, trace(k)[..n]), LifeOf(k), k, trace(k)[n])
    {
      hide AlertEvents.StepTold, Run, Shelved, MemoOf, Consistent;
      var n := |trace(k)| - 1;
      assert LifeOf(k) == Run(k, trace(k)) && trace(k)[..n + 1] == trace(k);
      AlertEvents.EveryStepIsTold(k, trace(k), n);
    }

    // ----- rules, maintenance windows, connections -----

    /** Checks every rule before anything is replaced. */
    method Compile(list: seq<Rule>) returns (ok: bool, cs: seq<Rule>)
      ensures ok <==> (forall r | r in list :: r.id != "" && Validate(r, compiles).Some?) && DistinctIds(list)
      ensures ok ==> |cs| == |list| && forall i | 0 <= i < |list| ::
        cs[i] == Validate(list[i], compiles).value && cs[i].id == list[i].id
    {
      cs := [];
      var ids: set<string> := {};
      for i := 0 to |list|
        invariant |cs| == i
        invariant forall j | 0 <= j < i ::
          Validate(list[j], compiles) == Some(cs[j]) && cs[j].id == list[j].id && list[j].id != ""
        invariant forall id :: id in ids <==> exists j :: 0 <= j < i && list[j].id == id
        invariant forall j, k | 0 <= j < k < i :: list[j].id != list[k].id
      {
        var r := Validate(list[i], compiles);
        if r.None? || r.value.id == "" || r.value.id in ids {
          assert list[i] in list;
          return false, [];
        }
        ids := ids + {r.value.id};
        cs := cs + [r.value];
      }
      ok := true;
    }

    /** Forgets the memory and the alert of every key to be dropped, without an event. */
    method DropWhere(drop: Key -> bool)
      requires Shelved()
      modifies `states, `active
      ensures Shelved()
      ensures forall k :: k in states <==> k in old(states) && !drop(k)
      ensures forall k: Key ::
        LifeOf(k) == if k in old(states) && drop(k) then Dropped(old(LifeOf(k))) else old(LifeOf(k))
    {
      hide Shelved, MemoOf, LifeOf, Dropped;
      var todo := states.Keys;
      while todo != {}
        invariant Shelved() && todo <= old(states).Keys
        invariant forall k :: k in states <==> k in old(states) && (k in todo || !drop(k))
        invariant forall k: Key ::
          LifeOf(k) == if k in old(states) && k !in todo && drop(k) then Dropped(old(LifeOf(k))) else old(LifeOf(k))
        decreases todo
      {
        var k :| k in todo;
        if drop(k) {
          DropState(k);
        }
        todo := todo - {k};
      }
    }

    method DropState(k: Key)
      requires Shelved()
      modifies `states, `active
      ensures Shelved() && states == old(states) - {k}
      ensures LifeOf(k) == Dropped(old(LifeOf(k)))
      ensures forall j: Key | j != k :: LifeOf(j) == old(LifeOf(j))
    {
      states := states - {k};
      active := active - {k};
    }

    /** Closing a connection drops everything about it. */
    method Forget(connID: string)
      requires Sound()
      modifies `states, `active, `trace
      ensures Sound()
      ensures forall k: Key :: (k in states <==> k in old(states) && k.connID != connID)
      ensures forall k: Key | k.connID == connID :: k !in active
      ensures forall k: Key | k.connID == connID ::
        LifeOf(k) == Dropped(old(LifeOf(k))) && trace(k) == old(trace)(k) + [Drop]
      ensures forall k: Key | k.connID != connID :: LifeOf(k) == old(LifeOf(k)) && trace(k) == old(trace)(k)
    {
      hide Shelved, MemoOf, LifeOf, RingHoldsLog, Of, Consistent, Run, Traced;
      ForgetKeys(connID);
      ActiveIsRemembered();
    }

    method ForgetKeys(connID: string)
      requires Sound()
      modifies `states, `active, `trace
      ensures Sound()
      ensures forall k: Key :: (k in states <==> k in old(states) && k.connID != connID)
      ensures forall k: Key | k.connID == connID ::
        LifeOf(k) == Dropped(old(LifeOf(k))) && trace(k) == old(trace)(k) + [Drop]
      ensures forall k: Key | k.connID != connID :: LifeOf(k) == old(LifeOf(k)) && trace(k) == old(trace)(k)
    {
      hide Shelved, MemoOf, LifeOf, RingHoldsLog, Of, Consistent, Run, AlertTraffic.UnderRule, SameWatch;
      ForgottenIsFresh();
      DropWhere((k: Key) => k.connID == connID);
      ghost var was := trace;
      trace := (k: Key) => if k.connID == connID then was(k) + [Drop] else was(k);
      forall k: Key ensures LifeOf(k) == Run(k, trace(k)) && Watched(k) {
        assert old(Watched(k));
        if k.connID == connID {
          StillWatched(k, was(k), Drop);
        }
      }
      TracedIsConsistent();
    }

    /** A key without a memory looks like one just dropped. */
    lemma ForgottenIsFresh()
      requires Sound()
      ensures forall k: Key | k !in states :: LifeOf(k) == Dropped(LifeOf(k))
    {
    }

    /** Whether a key's memory outlives a change of the rules. */
    ghost predicate Outlives(k: Key, was: map<string, Rule>, is': map<string, Rule>) {
      k.ruleID in is' && is'[k.ruleID].enabled && k.ruleID in was && SameWatch(is'[k.ruleID], was[k.ruleID])
    }

    /** Replaces the rules; a rule that is gone, disabled or watches something else starts over. */
    method SetRules(list: seq<Rule>, now: nat) returns (ok: bool)
      requires Sound()
      modifies `rules, `byID, `states, `active, `head, `count, `pending, `log, `trace, events
      ensures Sound()
      ensures ok <==> (forall r | r in list :: r.id != "" && Validate(r, compiles).Some?) && DistinctIds(list)
      ensures ok ==> |rules| == |list| && forall i | 0 <= i < |list| :: rules[i] == Validate(list[i], compiles).value
      ensures !ok ==> rules == old(rules) && trace == old(trace) && forall k: Key :: LifeOf(k) == old(LifeOf(k))
      ensures ok ==> forall k: Key | k in old(states) && Outlives(k, old(byID), byID) ::
        LifeOf(k) == Refreshed(old(LifeOf(k)), k, now, MutedAt(k, now))
          && trace(k) == old(trace)(k) + [Refresh(now, MutedAt(k, now))]
      ensures ok ==> forall k: Key | !(k in old(states) && Outlives(k, old(byID), byID)) ::
        LifeOf(k) == Dropped(old(LifeOf(k))) && trace(k) == old(trace)(k) + [Drop]
    {
      hide Shelved, MemoOf, LifeOf, RingHoldsLog, Of, Consistent, MutedAt, Refreshed, Dropped, Validate, ById, Traced,
           Outlives;
      var cs;
      ok, cs := Compile(list);
      if ok {
        ApplyRules(cs, now);
      }
    }

    method ApplyRules(cs: seq<Rule>, now: nat)
      requires Sound() && DistinctIds(cs)
      modifies `rules, `byID, `states, `active, `head, `count, `pending, `log, `trace, events
      ensures Sound() && rules == cs
      ensures forall k: Key | k in old(states) && Outlives(k, old(byID), byID) ::
        LifeOf(k) == Refreshed(old(LifeOf(k)), k, now, MutedAt(k, now))
          && trace(k) == old(trace)(k) + [Refresh(now, MutedAt(k, now))]
      ensures forall k: Key | !(k in old(states) && Outlives(k, old(byID), byID)) ::
        LifeOf(k) == Dropped(old(LifeOf(k))) && trace(k) == old(trace)(k) + [Drop]
    {
      hide Shelved, MemoOf, LifeOf, RingHoldsLog, Of, Consistent, MutedAt, Refreshed, Dropped, ById, Traced, Outlives;
      ReplaceRules(cs);
      ghost var kept := states.Keys;
      hide RulesAgree;
      RefreshMuted(now);
      assert states.Keys == kept;
    }

    method ReplaceRules(cs: seq<Rule>)
      requires Sound() && DistinctIds(cs)
      modifies `rules, `byID, `states, `active, `trace
      ensures Sound() && rules == cs
      ensures forall k :: k in states <==> k in old(states) && Outlives(k, old(byID), byID)
      ensures forall k: Key | k in states :: LifeOf(k) == old(LifeOf(k)) && trace(k) == old(trace)(k)
      ensures forall k: Key | k !in states :: LifeOf(k) == Dropped(old(LifeOf(k))) && trace(k) == old(trace)(k) + [Drop]
    {
      hide Shelved, MemoOf, LifeOf, RingHoldsLog, Of, Consistent, Dropped, ById, SameWatch, Run, AlertTraffic.UnderRule;
      ForgottenIsFresh();
      SwapRules(cs);
      ghost var was, kept := trace, states.Keys;
      trace := (k: Key) => if k in kept then was(k) else was(k) + [Drop];
      forall k: Key ensures LifeOf(k) == Run(k, trace(k)) && Watched(k) {
        assert old(Watched(k));
        if k in states {
          AlertTraffic.UnderSameWatch(old(byID)[k.ruleID], byID[k.ruleID], trace(k));
        } else {
          StillWatched(k, was(k), Drop);
        }
      }
      TracedIsConsistent();
    }

    method SwapRules(cs: seq<Rule>)
      requires Valid() && DistinctIds(cs)
      modifies `rules, `byID, `states, `active
      ensures Valid() && rules == cs
      ensures forall k :: k in states <==> k in old(states) && Outlives(k, old(byID), byID)
      ensures forall k: Key ::
        LifeOf(k) == if k in old(states) && !(k in states) then Dropped(old(LifeOf(k))) else old(LifeOf(k))
    {
      hide Shelved, MemoOf, LifeOf, RingHoldsLog, Of, Dropped, ById, SameWatch;
      var was := byID;
      rules := cs;
      byID := ById(cs);
      var is' := byID;
      DropWhere((k: Key) =>
        !(k.ruleID in is' && is'[k.ruleID].enabled && k.ruleID in was && SameWatch(is'[k.ruleID], was[k.ruleID])));
    }

    /** Replaces the maintenance windows; alerts they no longer hold back are announced. */
    method SetMaintenance(list: seq<Maintenance>, now: nat) returns (ok: bool)
      requires Sound()
      modifies `maintenance, `active, `head, `count, `pending, `log, `trace, events
      ensures Sound()
      ensures ok <==> forall m | m in list :: IsWindow(m)
      ensures maintenance == if ok then list else old(maintenance)
      ensures !ok ==> trace == old(trace) && forall k: Key :: LifeOf(k) == old(LifeOf(k))
      ensures ok ==> forall k: Key | k in states ::
        LifeOf(k) == Refreshed(old(LifeOf(k)), k, now, MutedAt(k, now))
          && trace(k) == old(trace)(k) + [Refresh(now, MutedAt(k, now))]
      ensures ok ==> forall k: Key | k !in states :: LifeOf(k) == old(LifeOf(k)) && trace(k) == old(trace)(k)
    {
      hide Shelved, MemoOf, LifeOf, RingHoldsLog, Of, Consistent, MutedAt, Refreshed, Traced;
      for i := 0 to |list|
        invariant forall j | 0 <= j < i :: IsWindow(list[j])
      {
        if !IsWindow(list[i]) {
          return false;
        }
      }
      ok := true;
      ReplaceMaintenance(list);
      RefreshMuted(now);
    }

    method ReplaceMaintenance(list: seq<Maintenance>)
      requires Sound()
      modifies `maintenance
      ensures Sound() && maintenance == list
      ensures forall k: Key :: LifeOf(k) == old(LifeOf(k))
    {
      hide Shelved, MemoOf, LifeOf, RingHoldsLog, RulesAgree, Consistent, Watched, Run;
      maintenance := list;
      assert forall k: Key :: LifeOf(k) == old(LifeOf(k));
    }
  }

  /** A planned window needs an id, an end after its start, and patterns that could be subjects. */
  predicate IsWindow(m: Maintenance) {
    m.id != "" && m.from < m.to && forall p | p in m.patterns :: p != "" && forall ch | ch in p :: ch !in " \t\n"
  }
}
