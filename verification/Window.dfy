/** The sliding window of one subject under one rule: a ring of sixty buckets (alerts/window.go). */
module Window {
  import opened Wrappers

  const WIN_BUCKETS := 60

  /** What a bucket, or a whole window, says: messages, and the numbers among them. */
  datatype Stats = Stats(count: nat, n: nat, sum: real, min: real, max: real)
  const EMPTY := Stats(0, 0, 0.0, 0.0, 0.0)

  datatype Bucket = Bucket(start: int, stats: Stats)
  datatype RingData = RingData(size: int, b: seq<Bucket>)
  type Ring = w: RingData | w.size >= 1 && |w.b| == WIN_BUCKETS
    witness RingData(1, seq(WIN_BUCKETS, _ => Bucket(0, EMPTY)))
  datatype Sample = Sample(time: nat, value: Option<real>)

  // ----- the operations on values -----

  /** One more message, and its number when it has one. */
  function Plus(a: Stats, value: Option<real>): Stats {
    match value
    case None => a.(count := a.count + 1)
    case Some(v) =>
      Stats(a.count + 1, a.n + 1, a.sum + v,
            if a.n == 0 || v < a.min then v else a.min,
            if a.n == 0 || v > a.max then v else a.max)
  }

  /** What the totals loop does with one bucket. */
  function Merge(a: Stats, b: Stats): Stats {
    if b.n == 0 then a.(count := a.count + b.count)
    else Stats(a.count + b.count, a.n + b.n, a.sum + b.sum,
               if a.n == 0 || b.min < a.min then b.min else a.min,
               if a.n == 0 || b.max > a.max then b.max else a.max)
  }

  /** Integer division as Go does it: toward zero. */
  function GoDiv(a: int, b: int): int
    requires b > 0
  {
    if a >= 0 then a / b else -((-a) / b)
  }

  function NewRing(seconds: int): Ring
    requires seconds >= 0
  {
    var size := seconds * 1000 / WIN_BUCKETS;
    RingData(if size < 1 then 1 else size, seq(WIN_BUCKETS, _ => Bucket(0, EMPTY)))
  }

  function Added(w: Ring, s: Sample): (r: Ring)
    ensures r.size == w.size
  {
    var slot := s.time / w.size;
    var i := slot % WIN_BUCKETS;
    var current := if w.b[i].start != slot then Bucket(slot, EMPTY) else w.b[i];
    w.(b := w.b[i := current.(stats := Plus(current.stats, s.value))])
  }

  /** The first k buckets of the ring that lie between the two slots, merged. */
  function TotalsUpTo(w: Ring, first: int, last: int, k: nat): Stats
    requires k <= WIN_BUCKETS
  {
    if k == 0 then EMPTY
    else
      var b := w.b[k - 1];
      var before := TotalsUpTo(w, first, last, k - 1);
      if b.start < first || b.start > last || (b.stats.count == 0 && b.stats.n == 0) then before
      else Merge(before, b.stats)
  }

  function Totals(w: Ring, now: nat, windowMs: int): Stats
  {
    TotalsUpTo(w, GoDiv(now - windowMs, w.size), now / w.size, WIN_BUCKETS)
  }

  // ----- the ring in place -----

  class SlidingWindow {
    const size: int
    const b: array<Bucket>

    predicate Valid() { size >= 1 && b.Length == WIN_BUCKETS }

    ghost function Value(): Ring
      requires Valid()
      reads b
    {
      RingData(size, b[..])
    }

    constructor (seconds: int)
      requires seconds >= 0
      ensures Valid() && fresh(b) && Value() == NewRing(seconds)
    {
      var width := seconds * 1000 / WIN_BUCKETS;
      if width < 1 {
        width := 1;
      }
      size := width;
      b := new Bucket[WIN_BUCKETS](_ => Bucket(0, EMPTY));
    }

    /** The bucket of this moment, started over when it still holds an older slot. */
    method At(now: nat) returns (i: nat)
      requires Valid()
      modifies b
      ensures i == now / size % WIN_BUCKETS
      ensures b[..] == old(b[..])[i := if old(b[i]).start != now / size then Bucket(now / size, EMPTY) else old(b[i])]
    {
      var slot := now / size;
      i := slot % WIN_BUCKETS;
      if b[i].start != slot {
        b[i] := Bucket(slot, EMPTY);
      }
    }

    method Add(now: nat, value: Option<real>)
      requires Valid()
      modifies b
      ensures Value() == Added(old(Value()), Sample(now, value))
    {
      var i := At(now);
      var s := b[i].stats;
      s := s.(count := s.count + 1);
      if value.Some? {
        if s.n == 0 || value.value < s.min {
          s := s.(min := value.value);
        }
        if s.n == 0 || value.value > s.max {
          s := s.(max := value.value);
        }
        s := s.(sum := s.sum + value.value, n := s.n + 1);
      }
      b[i] := b[i].(stats := s);
    }

    method GetTotals(now: nat, windowMs: int) returns (t: Stats)
      requires Valid()
      ensures t == Totals(Value(), now, windowMs)
    {
      var first := GoDiv(now - windowMs, size);
      var slot := now / size;
      t := EMPTY;
      for i := 0 to b.Length
        invariant t == TotalsUpTo(Value(), first, slot, i)
      {
        var c := b[i];
        if c.start < first || c.start > slot || (c.stats.count == 0 && c.stats.n == 0) {
          continue;
        }
        t := t.(count := t.count + c.stats.count);
        if c.stats.n > 0 {
          if t.n == 0 || c.stats.min < t.min {
            t := t.(min := c.stats.min);
          }
          if t.n == 0 || c.stats.max > t.max {
            t := t.(max := c.stats.max);
          }
          t := t.(sum := t.sum + c.stats.sum, n := t.n + c.stats.n);
        }
      }
    }
  }

  // ----- what the totals mean -----

  /** The ring after these messages, oldest first. */
  function After(seconds: int, heard: seq<Sample>): (w: Ring)
    requires seconds >= 0
    ensures w.size == NewRing(seconds).size
  {
    if heard == [] then NewRing(seconds)
    else Added(After(seconds, heard[..|heard| - 1]), heard[|heard| - 1])
  }

  /** The messages of some slots, counted and added up one by one. */
  ghost function StatsOf(heard: seq<Sample>, size: int, slots: set<int>): (t: Stats)
    requires size >= 1
    ensures t.n == 0 ==> t.sum == 0.0
  {
    if heard == [] then EMPTY
    else
      var last := heard[|heard| - 1];
      var before := StatsOf(heard[..|heard| - 1], size, slots);
      if last.time / size in slots then Plus(before, last.value) else before
  }

  ghost predicate InOrder(heard: seq<Sample>) {
    forall i, j | 0 <= i < j < |heard| :: heard[i].time <= heard[j].time
  }

  ghost predicate HasSlot(heard: seq<Sample>, size: int, slot: int)
    requires size >= 1
  {
    exists s :: s in heard && s.time / size == slot
  }

  /** No message fell into a later slot of the same bucket. */
  ghost predicate Kept(heard: seq<Sample>, size: int, slot: int)
    requires size >= 1
  {
    forall s | s in heard && s.time / size % WIN_BUCKETS == slot % WIN_BUCKETS :: s.time / size <= slot
  }

  /** The slots the totals cover: at or after the window's start, and not overwritten by a later lap of the ring. */
  ghost function Counted(heard: seq<Sample>, size: int, first: int): (slots: set<int>)
    requires size >= 1
    ensures forall x :: x in slots <==> HasSlot(heard, size, x) && first <= x && Kept(heard, size, x)
  {
    var all := set s | s in heard :: s.time / size;
    set x | x in all && first <= x && Kept(heard, size, x)
  }

  /** Some message fell into bucket i. */
  ghost predicate Used(heard: seq<Sample>, size: int, i: int)
    requires size >= 1
  {
    exists s :: s in heard && s.time / size % WIN_BUCKETS == i
  }

  /** Each bucket holds exactly the messages of the latest slot that ever fell into it. */
  ghost predicate BucketTracks(b: Bucket, heard: seq<Sample>, size: int, i: int)
    requires size >= 1
  {
    if Used(heard, size, i) then
      && b.start % WIN_BUCKETS == i
      && HasSlot(heard, size, b.start) && Kept(heard, size, b.start)
      && b.stats == StatsOf(heard, size, {b.start})
    else
      b == Bucket(0, EMPTY)
  }

  ghost predicate Tracks(w: Ring, heard: seq<Sample>)
  {
    forall i | 0 <= i < WIN_BUCKETS :: BucketTracks(w.b[i], heard, w.size, i)
  }

  lemma {:induction false} OtherSlotsAreEmpty(heard: seq<Sample>, size: int, slots: set<int>)
    requires size >= 1
    requires forall s | s in heard :: s.time / size !in slots
    ensures StatsOf(heard, size, slots) == EMPTY
  {
    if heard != [] {
      assert heard[|heard| - 1] in heard;
      OtherSlotsAreEmpty(heard[..|heard| - 1], size, slots);
    }
  }

  lemma {:induction false} SomeSlotCounts(heard: seq<Sample>, size: int, slots: set<int>, s: Sample)
    requires size >= 1 && s in heard && s.time / size in slots
    ensures StatsOf(heard, size, slots).count > 0
  {
    if s in heard[..|heard| - 1] {
      SomeSlotCounts(heard[..|heard| - 1], size, slots, s);
    }
  }

  lemma PlusThenMerge(a: Stats, b: Stats, v: Option<real>)
    requires b.n == 0 ==> b.sum == 0.0
    ensures Merge(Plus(a, v), b) == Plus(Merge(a, b), v) == Merge(a, Plus(b, v))
  {
  }

  /** The totals of two disjoint sets of slots merge to the totals of both. */
  lemma {:induction false} MergeIsUnion(heard: seq<Sample>, size: int, a: set<int>, b: set<int>)
    requires size >= 1 && a !! b
    ensures StatsOf(heard, size, a + b) == Merge(StatsOf(heard, size, a), StatsOf(heard, size, b))
  {
    if heard != [] {
      var before, last := heard[..|heard| - 1], heard[|heard| - 1];
      MergeIsUnion(before, size, a, b);
      PlusThenMerge(StatsOf(before, size, a), StatsOf(before, size, b), last.value);
    }
  }

  lemma SlotsInOrder(heard: seq<Sample>, s: Sample, size: int)
    requires size >= 1 && InOrder(heard + [s])
    ensures forall x | x in heard :: x.time / size <= s.time / size
  {
    forall x | x in heard ensures x.time / size <= s.time / size {
      var i :| 0 <= i < |heard| && heard[i] == x;
      assert (heard + [s])[i] == x && (heard + [s])[|heard|] == s;
      DivisionIsMonotone(x.time, s.time, size);
    }
  }

  lemma DivisionIsMonotone(a: int, b: int, size: int)
    requires size >= 1 && a <= b
    ensures a / size <= b / size
  {
    var d := a / size - b / size;
    MultipleIsAtLeast(d, size);
    assert d * size == a / size * size - b / size * size;
  }

  lemma MultipleIsAtLeast(d: int, size: int)
    requires size >= 1
    ensures d >= 1 ==> d * size >= size
  {
  }

  /** A message no earlier than the ones before leaves every bucket true to its latest slot. */
  lemma AddKeepsTracking(w: Ring, heard: seq<Sample>, s: Sample)
    requires Tracks(w, heard) && InOrder(heard + [s])
    ensures s in heard + [s] && Tracks(Added(w, s), heard + [s])
  {
    var all := heard + [s];
    assert s in all;
    SlotsInOrder(heard, s, w.size);
    forall i | 0 <= i < WIN_BUCKETS ensures BucketTracks(Added(w, s).b[i], all, w.size, i) {
      assert BucketTracks(w.b[i], heard, w.size, i);
      if i == s.time / w.size % WIN_BUCKETS {
        AddToItsBucket(w.b[i], heard, s, w.size, i);
      } else {
        AddToAnotherBucket(w.b[i], heard, s, w.size, i);
      }
    }
  }

  lemma AddToItsBucket(b: Bucket, heard: seq<Sample>, s: Sample, size: int, i: int)
    requires size >= 1 && BucketTracks(b, heard, size, i) && i == s.time / size % WIN_BUCKETS
    requires forall x | x in heard :: x.time / size <= s.time / size
    ensures
      var slot := s.time / size;
      var current := if b.start != slot then Bucket(slot, EMPTY) else b;
      BucketTracks(current.(stats := Plus(current.stats, s.value)), heard + [s], size, i)
  {
    var all, slot := heard + [s], s.time / size;
    assert all[..|all| - 1] == heard && all[|all| - 1] == s && s in all;
    assert HasSlot(all, size, slot) && Kept(all, size, slot) && Used(all, size, i);
    if b.start != slot || !Used(heard, size, i) {
      assert Used(heard, size, i) ==> b.start < slot;
      forall x | x in heard ensures x.time / size !in {slot} {
      }
      OtherSlotsAreEmpty(heard, size, {slot});
    }
  }

  lemma AddToAnotherBucket(b: Bucket, heard: seq<Sample>, s: Sample, size: int, i: int)
    requires size >= 1 && BucketTracks(b, heard, size, i) && i != s.time / size % WIN_BUCKETS
    ensures BucketTracks(b, heard + [s], size, i)
  {
  }

  /** In a run of messages in order, every bucket is true to its latest slot. */
  lemma {:induction false} RingTracks(seconds: int, heard: seq<Sample>)
    requires seconds >= 0 && InOrder(heard)
    ensures Tracks(After(seconds, heard), heard)
  {
    if heard != [] {
      var before := heard[..|heard| - 1];
      assert heard == before + [heard[|heard| - 1]];
      RingTracks(seconds, before);
      AddKeepsTracking(After(seconds, before), before, heard[|heard| - 1]);
    }
  }

  lemma {:induction false} TotalsOfTracked(w: Ring, heard: seq<Sample>, first: int, last: int, k: nat)
    requires Tracks(w, heard) && k <= WIN_BUCKETS
    requires forall s | s in heard :: s.time / w.size <= last
    ensures TotalsUpTo(w, first, last, k) == StatsOf(heard, w.size, CountedBelow(heard, w.size, first, k))
  {
    hide StatsOf;
    if k == 0 {
      assert CountedBelow(heard, w.size, first, k) == {};
      OtherSlotsAreEmpty(heard, w.size, {});
    } else {
      TotalsOfTracked(w, heard, first, last, k - 1);
      TotalsOfBucket(w.b[k - 1], heard, w.size, first, last, k);
    }
  }

  lemma TotalsOfBucket(b: Bucket, heard: seq<Sample>, size: int, first: int, last: int, k: nat)
    requires size >= 1 && 1 <= k <= WIN_BUCKETS && BucketTracks(b, heard, size, k - 1)
    requires forall s | s in heard :: s.time / size <= last
    ensures
      var before := StatsOf(heard, size, CountedBelow(heard, size, first, k - 1));
      StatsOf(heard, size, CountedBelow(heard, size, first, k)) ==
        if b.start < first || b.start > last || (b.stats.count == 0 && b.stats.n == 0) then before
          else Merge(before, b.stats)
  {
    hide StatsOf;
    CountedOfBucket(b, heard, size, first, k);
    var below := CountedBelow(heard, size, first, k - 1);
    assert below + {} == below;
    if Used(heard, size, k - 1) {
      var s :| s in heard && s.time / size == b.start;
      SomeSlotCounts(heard, size, {b.start}, s);
      if first <= b.start {
        assert below !! {b.start};
        MergeIsUnion(heard, size, below, {b.start});
      }
    }
  }

  ghost function CountedBelow(heard: seq<Sample>, size: int, first: int, k: nat): set<int>
    requires size >= 1
  {
    set x | x in Counted(heard, size, first) && x % WIN_BUCKETS < k
  }

  lemma CountedOfBucket(b: Bucket, heard: seq<Sample>, size: int, first: int, k: nat)
    requires size >= 1 && 1 <= k <= WIN_BUCKETS && BucketTracks(b, heard, size, k - 1)
    ensures CountedBelow(heard, size, first, k) ==
      CountedBelow(heard, size, first, k - 1) + (if Used(heard, size, k - 1) && first <= b.start then {b.start} else {})
  {
    forall x | x in Counted(heard, size, first) && x % WIN_BUCKETS == k - 1
      ensures Used(heard, size, k - 1) && x == b.start
    {
      SlotUsesBucket(heard, size, x);
      LatestIsOne(heard, size, x, b.start);
    }
    hide Kept, HasSlot, Used, StatsOf;
  }

  lemma SlotUsesBucket(heard: seq<Sample>, size: int, x: int)
    requires size >= 1 && HasSlot(heard, size, x)
    ensures Used(heard, size, x % WIN_BUCKETS)
  {
    var s :| s in heard && s.time / size == x;
  }

  /** A bucket has one latest slot. */
  lemma LatestIsOne(heard: seq<Sample>, size: int, x: int, y: int)
    requires size >= 1 && HasSlot(heard, size, x) && HasSlot(heard, size, y) && Kept(heard, size, x)
      && Kept(heard, size, y)
    requires x % WIN_BUCKETS == y % WIN_BUCKETS
    ensures x == y
  {
  }

  // ----- what is counted and added up -----

  /** Which of the messages fell into these slots. */
  ghost function Picked(heard: seq<Sample>, size: int, slots: set<int>): set<nat>
    requires size >= 1
  {
    set i: nat | i < |heard| && heard[i].time / size in slots
  }

  /** Which of those carry a number. */
  ghost function Numbered(heard: seq<Sample>, picked: set<nat>): set<nat> {
    set i: nat | i < |heard| && i in picked && heard[i].value.Some?
  }

  /** The numbers of those, added up. */
  ghost function Total(heard: seq<Sample>, picked: set<nat>): real {
    if heard == [] then 0.0
    else
      var n := |heard| - 1;
      Total(heard[..n], picked) + if n in picked && heard[n].value.Some? then heard[n].value.value else 0.0
  }

  lemma {:induction false} TotalOfSame(heard: seq<Sample>, a: set<nat>, b: set<nat>)
    requires forall i: nat | i < |heard| :: i in a <==> i in b
    ensures Total(heard, a) == Total(heard, b)
  {
    if heard != [] {
      TotalOfSame(heard[..|heard| - 1], a, b);
    }
  }

  ghost predicate IsLeast(v: real, heard: seq<Sample>, picked: set<nat>) {
    && (exists i :: i in Numbered(heard, picked) && heard[i].value == Some(v))
    && (forall i | i in Numbered(heard, picked) :: heard[i].value.value >= v)
  }

  ghost predicate IsGreatest(v: real, heard: seq<Sample>, picked: set<nat>) {
    && (exists i :: i in Numbered(heard, picked) && heard[i].value == Some(v))
    && (forall i | i in Numbered(heard, picked) :: heard[i].value.value <= v)
  }

  /** Each of these messages is counted once, each number among them added once, and no other. */
  ghost predicate AddsUp(t: Stats, heard: seq<Sample>, picked: set<nat>) {
    && t.count == |picked| && t.n == |Numbered(heard, picked)| && t.sum == Total(heard, picked)
  }

  /** That, and the least and the greatest of those numbers. */
  ghost predicate IsOf(t: Stats, heard: seq<Sample>, picked: set<nat>) {
    && AddsUp(t, heard, picked)
    && (t.n > 0 ==> IsLeast(t.min, heard, picked) && IsGreatest(t.max, heard, picked))
  }

  lemma StatsAreOf(heard: seq<Sample>, size: int, slots: set<int>)
    requires size >= 1
    ensures IsOf(StatsOf(heard, size, slots), heard, Picked(heard, size, slots))
  {
    hide StatsOf;
    StatsAddUp(heard, size, slots);
    hide AddsUp;
    var t := StatsOf(heard, size, slots);
    if t.n > 0 {
      StatsAreExtremes(heard, size, slots);
      assert forall i | i in Numbered(heard, Picked(heard, size, slots)) :: heard[i] in heard;
      var lo :| lo in heard && lo.time / size in slots && lo.value == Some(t.min);
      var hi :| hi in heard && hi.time / size in slots && hi.value == Some(t.max);
      var i: nat :| i < |heard| && heard[i] == lo;
      var j: nat :| j < |heard| && heard[j] == hi;
      assert i in Numbered(heard, Picked(heard, size, slots)) && j in Numbered(heard, Picked(heard, size, slots));
    }
  }

  // How these move with one more message.

  lemma PickedStep(heard: seq<Sample>, size: int, slots: set<int>)
    requires size >= 1 && heard != []
    ensures
      var n := |heard| - 1;
      var picked, before := Picked(heard, size, slots), Picked(heard[..n], size, slots);
      && picked == before + (if heard[n].time / size in slots then {n} else {})
      && |picked| == |before| + (if heard[n].time / size in slots then 1 else 0)
  {
  }

  lemma NumberedStep(heard: seq<Sample>, picked: set<nat>, before: set<nat>)
    requires heard != [] && picked - {|heard| - 1} == before && |heard| - 1 !in before
    ensures
      var n := |heard| - 1;
      var isNew := n in picked && heard[n].value.Some?;
      && Numbered(heard, picked) == Numbered(heard[..n], before) + (if isNew then {n} else {})
      && |Numbered(heard, picked)| == |Numbered(heard[..n], before)| + (if isNew then 1 else 0)
  {
  }

  lemma TotalStep(heard: seq<Sample>, picked: set<nat>, before: set<nat>)
    requires heard != [] && picked - {|heard| - 1} == before
    ensures
      var n := |heard| - 1;
      Total(heard, picked) ==
      Total(heard[..n], before) + (if n in picked && heard[n].value.Some? then heard[n].value.value else 0.0)
  {
    TotalOfSame(heard[..|heard| - 1], before, picked);
  }

  lemma OthersPicked(heard: seq<Sample>, size: int, slots: set<int>)
    requires size >= 1 && heard != []
    ensures
      var n := |heard| - 1;
      var picked, before := Picked(heard, size, slots), Picked(heard[..n], size, slots);
      picked - {n} == before && n !in before && (n in picked <==> heard[n].time / size in slots)
  {
  }

  lemma AddsUpStep(heard: seq<Sample>, size: int, slots: set<int>, t: Stats)
    requires size >= 1 && heard != []
    requires AddsUp(t, heard[..|heard| - 1], Picked(heard[..|heard| - 1], size, slots))
    ensures
      var last := heard[|heard| - 1];
      AddsUp(if last.time / size in slots then Plus(t, last.value) else t, heard, Picked(heard, size, slots))
  {
    var n := |heard| - 1;
    var picked, before := Picked(heard, size, slots), Picked(heard[..n], size, slots);
    PickedStep(heard, size, slots);
    OthersPicked(heard, size, slots);
    hide Picked;
    NumberedStep(heard, picked, before);
    TotalStep(heard, picked, before);
    hide Numbered, Total;
  }

  lemma {:induction false} StatsAddUp(heard: seq<Sample>, size: int, slots: set<int>)
    requires size >= 1
    ensures AddsUp(StatsOf(heard, size, slots), heard, Picked(heard, size, slots))
  {
    if heard == [] {
      assert Picked(heard, size, slots) == {} && Numbered(heard, {}) == {};
    } else {
      hide AddsUp, Picked, Plus;
      StatsAddUp(heard[..|heard| - 1], size, slots);
      AddsUpStep(heard, size, slots, StatsOf(heard[..|heard| - 1], size, slots));
    }
  }

  // ----- the promise -----

  /**
   * For messages heard in order, the totals are those of whole slots: every
   * message in the counted slots counts once and its number, when it has one,
   * is added once, and no other; least and greatest are those of these numbers.
   */
  lemma TotalsAreExact(seconds: int, heard: seq<Sample>, now: nat, windowMs: int)
    requires seconds >= 0 && InOrder(heard)
    requires forall s | s in heard :: s.time <= now
    ensures
      var w := After(seconds, heard);
      var slots := Counted(heard, w.size, GoDiv(now - windowMs, w.size));
      && IsOf(Totals(w, now, windowMs), heard, Picked(heard, w.size, slots))
      && Totals(w, now, windowMs) == StatsOf(heard, w.size, slots)
  {
    hide StatsOf, IsOf;
    var size := NewRing(seconds).size;
    StatsAreOf(heard, size, Counted(heard, size, GoDiv(now - windowMs, size)));
    TotalsOfSlots(seconds, heard, now, windowMs);
  }

  lemma TotalsOfSlots(seconds: int, heard: seq<Sample>, now: nat, windowMs: int)
    requires seconds >= 0 && InOrder(heard)
    requires forall s | s in heard :: s.time <= now
    ensures var w := After(seconds, heard);
      Totals(w, now, windowMs) == StatsOf(heard, w.size, Counted(heard, w.size, GoDiv(now - windowMs, w.size)))
  {
    var w := After(seconds, heard);
    RingTracks(seconds, heard);
    forall s | s in heard ensures s.time / w.size <= now / w.size {
      DivisionIsMonotone(s.time, now, w.size);
    }
    var first := GoDiv(now - windowMs, w.size);
    TotalsOfTracked(w, heard, first, now / w.size, WIN_BUCKETS);
    assert CountedBelow(heard, w.size, first, WIN_BUCKETS) == Counted(heard, w.size, first);
  }

  /**
   * Which messages those are: everything of the last sixty slots is counted,
   * and so everything younger than 59 bucket widths, which is the window but
   * for a sixtieth and the rounding; nothing of a slot before the window's
   * start is, and so nothing as old as the window and one more width, which is
   * at most a sixtieth of it.
   */
  lemma CountedByAge(seconds: int, heard: seq<Sample>, now: nat, s: Sample)
    requires 1 <= seconds && InOrder(heard) && s in heard
    requires forall x | x in heard :: x.time <= now
    ensures var size, windowMs := NewRing(seconds).size, seconds * 1000;
      var counted := Counted(heard, size, GoDiv(now - windowMs, size));
      && (s.time / size > now / size - WIN_BUCKETS ==> s.time / size in counted)
      && (s.time / size < GoDiv(now - windowMs, size) ==> s.time / size !in counted)
      && (now - s.time <= 59 * size ==> s.time / size in counted)
      && (now - s.time >= windowMs + size ==> s.time / size !in counted)
      && (60 * (now - s.time) <= 59 * (windowMs - 59) ==> s.time / size in counted)
      && (60 * (now - s.time) >= 61 * windowMs ==> s.time / size !in counted)
  {
    var size, windowMs := NewRing(seconds).size, seconds * 1000;
    assert windowMs >= 60 * size > windowMs - 60;
    if now - s.time <= 59 * size {
      LastLap(now, s.time, size);
    }
    if s.time / size > now / size - WIN_BUCKETS {
      LastSlotsAreCounted(heard, size, now, windowMs, s);
    }
    if now - s.time >= windowMs + size {
      OldIsNotCounted(size, now, windowMs, s.time);
    }
  }

  lemma LastSlotsAreCounted(heard: seq<Sample>, size: int, now: nat, windowMs: int, s: Sample)
    requires size >= 1 && windowMs >= 60 * size && s in heard
    requires forall x | x in heard :: x.time <= now
    requires s.time / size > now / size - WIN_BUCKETS
    ensures s.time / size in Counted(heard, size, GoDiv(now - windowMs, size))
  {
    var slot := s.time / size;
    assert HasSlot(heard, size, slot);
    FirstSlotBounds(now, windowMs, size);
    NothingOnALaterLap(heard, size, now, slot);
  }

  lemma LastLap(now: nat, time: nat, size: int)
    requires size >= 1 && now - time <= 59 * size
    ensures now / size <= time / size + 59
  {
    DivisionIsMonotone(now - 59 * size, time, size);
    ShiftedDivision(now, -59, size);
  }

  lemma NothingOnALaterLap(heard: seq<Sample>, size: int, now: nat, slot: int)
    requires size >= 1 && now / size <= slot + 59
    requires forall x | x in heard :: x.time <= now
    ensures Kept(heard, size, slot)
  {
    forall x | x in heard && x.time / size % WIN_BUCKETS == slot % WIN_BUCKETS ensures x.time / size <= slot {
      DivisionIsMonotone(x.time, now, size);
      SameBucketIsALapAway(x.time / size, slot);
    }
  }

  lemma SameBucketIsALapAway(x: int, slot: int)
    requires x % WIN_BUCKETS == slot % WIN_BUCKETS && x <= slot + 59
    ensures x <= slot
  {
  }

  lemma OldIsNotCounted(size: int, now: int, windowMs: int, time: int)
    requires size >= 1 && time >= 0
    requires now - time >= windowMs + size
    ensures time / size < GoDiv(now - windowMs, size)
  {
  }

  lemma ShiftedDivision(a: int, k: int, size: int)
    requires size >= 1
    ensures (a + k * size) / size == a / size + k
  {
    var q := a / size + k;
    assert a + k * size == q * size + a % size;
    assert (a + k * size) - q * size == a % size;
    QuotientIsUnique(a + k * size, q, size);
  }

  lemma QuotientIsUnique(a: int, q: int, size: int)
    requires size >= 1 && 0 <= a - q * size < size
    ensures a / size == q
  {
    var d := a / size - q;
    MultipleIsAtLeast(d, size);
    MultipleIsAtLeast(-d, size);
    assert d * size == a / size * size - q * size;
  }

  lemma FirstSlotBounds(now: int, windowMs: int, size: int)
    requires size >= 1 && now >= 0 && windowMs >= 60 * size
    ensures GoDiv(now - windowMs, size) <= (if now / size - 60 >= 0 then now / size - 60 else 0)
  {
    if now >= windowMs {
      DivisionIsMonotone(now - windowMs, now - 60 * size, size);
      ShiftedDivision(now, -60, size);
    }
  }

  /** What minimum and maximum mean: bounds on every counted number, each reached by one of them. */
  lemma {:induction false} StatsAreExtremes(heard: seq<Sample>, size: int, slots: set<int>)
    requires size >= 1 && StatsOf(heard, size, slots).n > 0
    ensures var t := StatsOf(heard, size, slots);
      && (forall s | s in heard && s.time / size in slots && s.value.Some? :: t.min <= s.value.value <= t.max)
      && (exists s :: s in heard && s.time / size in slots && s.value == Some(t.min))
      && (exists s :: s in heard && s.time / size in slots && s.value == Some(t.max))
  {
    var before, last := heard[..|heard| - 1], heard[|heard| - 1];
    assert heard == before + [last] && last in heard;
    var t0 := StatsOf(before, size, slots);
    if t0.n > 0 {
      StatsAreExtremes(before, size, slots);
      var lo :| lo in before && lo.time / size in slots && lo.value == Some(t0.min);
      var hi :| hi in before && hi.time / size in slots && hi.value == Some(t0.max);
      assert lo in heard && hi in heard;
    } else {
      NoNumbers(before, size, slots);
    }
  }

  lemma {:induction false} NoNumbers(heard: seq<Sample>, size: int, slots: set<int>)
    requires size >= 1 && StatsOf(heard, size, slots).n == 0
    ensures forall s | s in heard && s.time / size in slots :: s.value.None?
  {
    if heard != [] {
      NoNumbers(heard[..|heard| - 1], size, slots);
    }
  }
}
