/**
 * Alert rules, and what one message or one tick does to one rule on one subject (alerts/alerts.go,
 * alerts/window.go).
 */
module AlertRules {
  import opened Wrappers
  import opened Window
  import Sorting
  import SubjectMatch

  // ----- rules, messages, alerts -----

  datatype Rule = Rule(
    id: string, name: string, pattern: string, expr: string, enabled: bool,
    staleAfter: int, staleAuto: bool,
    window: int, minCount: Option<int>, maxCount: Option<int>,
    field: string, agg: string, above: Option<real>, below: Option<real>,
    unchangedFor: int, mutedUntil: int)

  datatype Maintenance = Maintenance(id: string, from: int, to: int, patterns: seq<string>)

  /** How a field reads as text, and as a number when it is one. */
  datatype FieldValue = FieldValue(text: string, number: Option<real>)

  /** A message as the rules see it; `holds` are the expressions that are true of it. */
  datatype Message = Message(subject: string, data: string, preview: string, fields: map<string, FieldValue>,
    holds: set<string>)

  datatype State = Firing | Level | Rate | Stuck | Stale | Resolved

  /** What an alert or an event shows; the wording around the numbers is left out. */
  datatype Preview =
    | Text(s: string)
    | CountText(count: int, side: Side)
    | LevelText(v: real, side: Side)
    | StuckText(value: string, seconds: int)
  datatype Side = Within | Under | Over

  datatype Key = Key(ruleID: string, connID: string, subject: string)
  datatype Alert = Alert(state: State, since: int, preview: Preview, at: int, muted: bool, ackedAt: int,
    ackedBy: string)
  datatype Event = Event(time: int, key: Key, state: State, preview: Preview, muted: bool)

  const EVAL_EVERY := 1000
  const STALE_WINDOW := 16
  const STALE_MIN_GAPS := 8
  const STALE_FACTOR := 10
  const MAX_WINDOW := 24 * 3600
  const MISSING := "\0missing"

  predicate HasAggregate(c: Rule) { c.field != "" && (c.above.Some? || c.below.Some?) }
  predicate HasWindow(c: Rule) { c.window > 0 && (c.minCount.Some? || c.maxCount.Some? || HasAggregate(c)) }
  predicate NeedsField(c: Rule) { c.field != "" && (HasAggregate(c) || c.unchangedFor > 0) }
  predicate HasCondition(c: Rule) {
    c.expr != "" || c.staleAfter > 0 || c.staleAuto || HasWindow(c) || c.unchangedFor > 0
  }

  /** Everything that decides when a rule fires; the rest may change without starting over. */
  predicate SameWatch(a: Rule, b: Rule) {
    && a.pattern == b.pattern && a.expr == b.expr && a.field == b.field && a.agg == b.agg
    && a.staleAfter == b.staleAfter && a.staleAuto == b.staleAuto
    && a.window == b.window && a.unchangedFor == b.unchangedFor
    && a.minCount == b.minCount && a.maxCount == b.maxCount && a.above == b.above && a.below == b.below
  }

  /** A rule keeps its memory when nothing of it changes but its name, whether it is enabled, and its mute. */
  lemma KeepsWatchIff(a: Rule, b: Rule)
    requires a.id == b.id
    ensures SameWatch(a, b) <==> b == a.(name := b.name, enabled := b.enabled, mutedUntil := b.mutedUntil)
  {
  }

  /** What a rule has to be: named, for a pattern without blanks, with a condition that can be looked at. */
  ghost predicate MakesSense(r: Rule, compiles: string -> bool) {
    && r.name != "" && r.pattern != "" && (forall ch | ch in r.pattern :: ch != ' ' && ch != '\t' && ch != '\n')
    && (r.expr != "" ==> compiles(r.expr))
    && r.staleAfter >= 0 && 0 <= r.window <= MAX_WINDOW && r.unchangedFor >= 0
    && (r.minCount.Some? ==> r.minCount.value >= 0 && r.window > 0)
    && (r.maxCount.Some? ==> r.maxCount.value >= 0 && r.window > 0)
    && (r.above.Some? || r.below.Some? ==> r.window > 0 && r.field != "" && r.agg in {"", "avg", "min", "max"})
    && (|| r.expr != "" || r.staleAfter > 0 || r.staleAuto || r.unchangedFor > 0
        || r.minCount.Some? || r.maxCount.Some? || r.above.Some? || r.below.Some?)
  }

  /** Exactly those rules are accepted, as they are, but for an average where a threshold names no aggregate. */
  lemma AcceptedIffSensible(r: Rule, compiles: string -> bool)
    ensures Validate(r, compiles).Some? <==> MakesSense(r, compiles)
    ensures
      Validate(r, compiles).Some? ==>
      Validate(r, compiles).value == if (r.above.Some? || r.below.Some?) && r.agg == "" then r.(agg := "avg") else r
  {
  }

  /** The rule with its default aggregate filled in, or nothing when it makes no sense. */
  function Validate(r: Rule, compiles: string -> bool): Option<Rule> {
    if r.name == "" || r.pattern == "" || (exists ch | ch in r.pattern :: ch in " \t\n") then None
    else if !HasCondition(r) then None
    else if r.expr != "" && !compiles(r.expr) then None
    else if r.staleAfter < 0 then None
    else if r.window < 0 || r.window > MAX_WINDOW then None
    else if r.unchangedFor < 0 then None
    else if (r.minCount.Some? || r.maxCount.Some? || r.above.Some? || r.below.Some?) && r.window <= 0 then None
    else if (r.minCount.Some? && r.minCount.value < 0) || (r.maxCount.Some? && r.maxCount.value < 0) then None
    else if r.above.Some? || r.below.Some? then
      if r.field == "" then None
      else if r.agg in {"avg", "min", "max"} then Some(r)
      else if r.agg == "" then Some(r.(agg := "avg"))
      else None
    else Some(r)
  }

  ghost predicate Covers(m: Maintenance, subject: string, now: int) {
    && m.from <= now < m.to
    && (m.patterns == [] || exists p ::
          p in m.patterns && SubjectMatch.Matches(SubjectMatch.Tokens(p), SubjectMatch.Tokens(subject)))
  }

  /** Is a change of this rule on this subject kept out of the channels at this moment? */
  ghost predicate Muted(c: Rule, maintenance: seq<Maintenance>, subject: string, now: int) {
    c.mutedUntil > now || exists m :: m in maintenance && Covers(m, subject, now)
  }

  // ----- what the engine remembers per rule and subject -----

  type Gaps = g: seq<int> | |g| == STALE_WINDOW witness seq(STALE_WINDOW, _ => 0)

  datatype Memo = Memo(
    lastSeen: int, lastEval: int, preview: string, firing: bool, stale: bool,
    gaps: Gaps, gapsN: nat,
    firstSeen: int, seen: int, win: Option<Ring>, rate: bool, level: bool, stuck: bool,
    ratePreview: Preview, levelPreview: Preview, stuckPreview: Preview,
    lastValue: string, lastChange: int)

  function FreshMemo(): Memo {
    Memo(0, 0, "", false, false, seq(STALE_WINDOW, _ => 0), 0, 0, 0, None, false, false, false, Text(""), Text(""),
      Text(""), "", 0)
  }

  predicate Holds(m: Memo, s: State) {
    match s
    case Firing => m.firing
    case Level => m.level
    case Rate => m.rate
    case Stuck => m.stuck
    case Stale => m.stale
    case Resolved => false
  }

  predicate AnyHolds(m: Memo) { m.firing || m.level || m.rate || m.stuck || m.stale }

  /** The condition the active alert shows: the one that matters most of those that hold. */
  function Current(m: Memo): Option<(State, Preview)> {
    if m.firing then Some((Firing, Text(m.preview)))
    else if m.level then Some((Level, m.levelPreview))
    else if m.rate then Some((Rate, m.ratePreview))
    else if m.stuck then Some((Stuck, m.stuckPreview))
    else if m.stale then Some((Stale, Text(m.preview)))
    else None
  }

  /**
   * The pause a subject normally has between messages: the upper quartile of the last sixteen, 0
   * before there are eight.
   */
  function TypicalGap(m: Memo): int
  {
    var n := if m.gapsN > STALE_WINDOW then STALE_WINDOW else m.gapsN;
    if n < STALE_MIN_GAPS then 0 else Sorting.Sort(m.gaps[..n])[n * 3 / 4]
  }

  /** How long a silence may last, when the rule looks at silence and there is something to be late against. */
  function SilenceAllowed(c: Rule, m: Memo): Option<int>
  {
    if c.staleAfter <= 0 && !c.staleAuto then None
    else if !c.staleAuto then Some(c.staleAfter * 1000)
    else
      var learned := TypicalGap(m) * STALE_FACTOR;
      if learned == 0 then None
      else if learned > c.staleAfter * 1000 then Some(learned) else Some(c.staleAfter * 1000)
  }

  function RateVerdict(c: Rule, count: int): (bool, Preview) {
    if c.minCount.Some? && count < c.minCount.value then (true, CountText(count, Under))
    else if c.maxCount.Some? && count > c.maxCount.value then (true, CountText(count, Over))
    else (false, CountText(count, Within))
  }

  function LevelVerdict(c: Rule, t: Stats): (bool, Preview) {
    if t.n == 0 then (false, Text(""))
    else
      var v := if c.agg == "min" then t.min else if c.agg == "max" then t.max else t.sum / t.n as real;
      if c.above.Some? && v > c.above.value then (true, LevelText(v, Over))
      else if c.below.Some? && v < c.below.value then (true, LevelText(v, Under))
      else (false, LevelText(v, Within))
  }

  // ----- the life of one rule on one subject -----

  /** Its memory, its active alert, every event about it, and where in those the active alert began. */
  datatype Life = Life(memo: Memo, alert: Option<Alert>, log: seq<Event>, born: nat)

  function Changed(l: Life, k: Key, state: State, pv: Preview, now: nat, muted: bool): (r: Life)
    ensures r.memo == l.memo
  {
    var log := l.log + [Event(now, k, state, pv, muted)];
    if state.Resolved? then l.(alert := None, log := log)
    else
      l.(alert := Some(Alert(state, now, pv, l.memo.lastSeen, muted, 0, "")), log := log,
         born := if l.alert.None? then |l.log| else l.born)
  }

  /** One condition stopped holding: resolved when it was the last, otherwise the alert shows what is left. */
  function Cleared(l: Life, k: Key, pv: Preview, now: nat, muted: bool): (r: Life)
    ensures r.memo == l.memo
  {
    match Current(l.memo)
    case None => Changed(l, k, Resolved, pv, now, muted)
    case Some((state, left)) =>
      if l.alert.Some? then l.(alert := Some(l.alert.value.(state := state, preview := left))) else l
  }

  function Updated(l: Life, state: State, pv: Preview): (r: Life)
    ensures r.memo == l.memo
  {
    if l.alert.Some? && l.alert.value.state == state then l.(alert := Some(l.alert.value.(preview := pv))) else l
  }

  // a message, in the order the hot path looks at it

  function Noted(m: Memo, now: nat): Memo {
    if m.lastSeen > 0 && now > m.lastSeen
    then m.(gaps := m.gaps[m.gapsN % STALE_WINDOW := now - m.lastSeen], gapsN := m.gapsN + 1)
    else m
  }

  function Heard(m: Memo, now: nat): Memo {
    Noted(m, now).(lastSeen := now, seen := m.seen + 1, firstSeen := if m.firstSeen == 0 then now else m.firstSeen)
  }

  function SilenceEnded(l: Life, k: Key, m: Message, now: nat, muted: bool): Life {
    if l.memo.stale then Cleared(l.(memo := l.memo.(stale := false)), k, Text(m.preview), now, muted) else l
  }

  function FieldOf(c: Rule, m: Message): Option<FieldValue> {
    if NeedsField(c) && c.field in m.fields then Some(m.fields[c.field]) else None
  }

  function Sampled(m: Memo, c: Rule, msg: Message, now: nat): Memo
  {
    if !HasWindow(c) then m
    else
      var w := if m.win.None? then NewRing(c.window) else m.win.value;
      var f := FieldOf(c, msg);
      m.(win := Some(Added(w, Sample(now, if f.Some? then f.value.number else None))))
  }

  function ValueOf(c: Rule, m: Message): string {
    if c.field == "" then m.data
    else match FieldOf(c, m) case Some(f) => f.text case None => MISSING
  }

  function ValueSeen(l: Life, k: Key, c: Rule, m: Message, now: nat, muted: bool): Life {
    var val := ValueOf(c, m);
    if c.unchangedFor > 0 && (l.memo.lastChange == 0 || val != l.memo.lastValue) then
      var l1 := l.(memo := l.memo.(lastValue := val, lastChange := now));
      if l1.memo.stuck then Cleared(l1.(memo := l1.memo.(stuck := false)), k, Text(m.preview), now, muted) else l1
    else l
  }

  function Evaluated(l: Life, k: Key, c: Rule, m: Message, now: nat, muted: bool): Life {
    var hit := c.expr in m.holds;
    if hit && !l.memo.firing then
      Changed(l.(memo := l.memo.(firing := true, preview := m.preview)), k, Firing, Text(m.preview), now, muted)
    else if !hit && l.memo.firing then
      Cleared(l.(memo := l.memo.(firing := false)), k, Text(m.preview), now, muted)
    else l
  }

  function Judged(l: Life, k: Key, c: Rule, m: Message, now: nat, muted: bool): Life {
    if c.expr != "" && now - l.memo.lastEval >= EVAL_EVERY then
      Evaluated(l.(memo := l.memo.(lastEval := now)), k, c, m, now, muted)
    else if l.memo.preview == "" then l.(memo := l.memo.(preview := m.preview))
    else l
  }

  /** What the message says: its field, its value, its expression. */
  function Examined(l: Life, k: Key, c: Rule, m: Message, now: nat, muted: bool): Life {
    var l1 := l.(memo := Sampled(l.memo, c, m, now));
    Judged(ValueSeen(l1, k, c, m, now, muted), k, c, m, now, muted)
  }

  function Observed(l: Life, k: Key, c: Rule, m: Message, now: nat, muted: bool): Life {
    var l1 := SilenceEnded(l.(memo := Heard(l.memo, now)), k, m, now, muted);
    Examined(l1, k, c, m, now, muted)
  }

  // a tick, in the order its checks run

  function StaleChecked(l: Life, k: Key, c: Rule, now: nat, muted: bool): Life
  {
    var allowed := SilenceAllowed(c, l.memo);
    if allowed.Some? && !l.memo.stale && l.memo.lastSeen > 0 && now - l.memo.lastSeen > allowed.value then
      Changed(l.(memo := l.memo.(stale := true)), k, Stale, Text(l.memo.preview), now, muted)
    else l
  }

  /** Too few is only judged once the subject has been watched for a whole window. */
  predicate RateHit(c: Rule, m: Memo, count: int, now: nat) {
    RateVerdict(c, count).0
    && !(c.minCount.Some? && count < c.minCount.value && now - m.firstSeen < c.window * 1000)
  }

  function RateChecked(l: Life, k: Key, c: Rule, t: Stats, now: nat, muted: bool): Life {
    var hit, pv := RateHit(c, l.memo, t.count, now), RateVerdict(c, t.count).1;
    if c.minCount.None? && c.maxCount.None? then l
    else if hit && !l.memo.rate
      then Changed(l.(memo := l.memo.(rate := true, ratePreview := pv)), k, Rate, pv, now, muted)
    else if hit && pv != l.memo.ratePreview then Updated(l.(memo := l.memo.(ratePreview := pv)), Rate, pv)
    else if !hit && l.memo.rate then Cleared(l.(memo := l.memo.(rate := false)), k, pv, now, muted)
    else l
  }

  function LevelChecked(l: Life, k: Key, c: Rule, t: Stats, now: nat, muted: bool): Life {
    var (hit, pv) := LevelVerdict(c, t);
    if !HasAggregate(c) then l
    else if hit && !l.memo.level
      then Changed(l.(memo := l.memo.(level := true, levelPreview := pv)), k, Level, pv, now, muted)
    else if hit && pv != l.memo.levelPreview then Updated(l.(memo := l.memo.(levelPreview := pv)), Level, pv)
    else if !hit && l.memo.level then Cleared(l.(memo := l.memo.(level := false)), k, pv, now, muted)
    else l
  }

  function WindowChecked(l: Life, k: Key, c: Rule, now: nat, muted: bool): Life
  {
    if !HasWindow(c) || l.memo.win.None? then l
    else
      var t := Totals(l.memo.win.value, now, c.window * 1000);
      LevelChecked(RateChecked(l, k, c, t, now, muted), k, c, t, now, muted)
  }

  function StuckChecked(l: Life, k: Key, c: Rule, now: nat, muted: bool): Life {
    var m := l.memo;
    if c.unchangedFor <= 0 || m.stuck || m.seen < 2 || m.lastChange == 0 || now - m.lastChange <= c.unchangedFor * 1000
      then l
    else
      var pv := StuckText(if c.field != "" then m.lastValue else "payload", GoDiv(now - m.lastChange, 1000));
      Changed(l.(memo := m.(stuck := true, stuckPreview := pv)), k, Stuck, pv, now, muted)
  }

  function Checked(l: Life, k: Key, c: Rule, now: nat, muted: bool): Life
  {
    var l1 := StaleChecked(l, k, c, now, muted);
    var l2 := WindowChecked(l1, k, c, now, muted);
    StuckChecked(l2, k, c, now, muted)
  }

  /** The mute of an active alert is read again; one that comes out of it still true is announced now. */
  function Refreshed(l: Life, k: Key, now: nat, muted: bool): Life {
    if l.alert.None? then l
    else
      var a := l.alert.value;
      l.(alert := Some(a.(muted := muted)),
         log := l.log + (if a.muted && !muted then [Event(now, k, a.state, a.preview, false)] else []))
  }

  function Dropped(l: Life): Life { l.(memo := FreshMemo(), alert := None) }

  function Acked(l: Life, now: int, who: string, acked: bool): Life {
    if l.alert.None? then l
    else l.(alert := Some(if acked then l.alert.value.(ackedAt := now, ackedBy := who)
      else l.alert.value.(ackedAt := 0, ackedBy := "")))
  }
}
