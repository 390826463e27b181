/** Reading a range of a stream with a consumer that may start over at any time (fetchRange in handler/streams.go). */
module FetchRange {
  import opened Wrappers

  datatype Message = Message(seqNo: nat, payload: string)

  /**
   * What one fetch brings: stored[first..last], possibly followed by an error.
   * The consumer is an adversary: what it delivers may depend on how often it
   * was asked and on what has been taken, and it may repeat what it gave before.
   */
  datatype Batch = Batch(first: nat, last: nat, failed: bool)
  type Consumer = (nat, nat) -> Batch

  ghost predicate Rising(stored: seq<Message>) {
    forall i, j | 0 <= i < j < |stored| :: stored[i].seqNo < stored[j].seqNo
  }

  /** How many stored messages come before a number. */
  function CountBefore(stored: seq<Message>, n: nat): (k: nat)
    ensures k <= |stored|
  {
    if stored == [] || stored[0].seqNo >= n then 0 else 1 + CountBefore(stored[1..], n)
  }

  lemma {:induction false} CountSplits(stored: seq<Message>, n: nat)
    requires Rising(stored)
    ensures forall i | 0 <= i < |stored| :: stored[i].seqNo < n <==> i < CountBefore(stored, n)
  {
    if stored != [] {
      if stored[0].seqNo < n {
        CountSplits(stored[1..], n);
        forall i | 0 <= i < |stored| ensures stored[i].seqNo < n <==> i < CountBefore(stored, n) {
          assert i > 0 ==> stored[1..][i - 1] == stored[i];
        }
      } else {
        forall i | 0 <= i < |stored| ensures stored[i].seqNo >= n {
          assert i > 0 ==> stored[0].seqNo < stored[i].seqNo;
        }
      }
    }
  }

  /**
   * Every batch is a run of stored messages, in order and without a gap, beginning at or before the
   * next one wanted.
   */
  ghost predicate Honest(c: Consumer, stored: seq<Message>, want: nat) {
    forall call, next ::
      var b := c(call, next);
      b.first <= b.last <= |stored| && b.last - b.first <= want && b.first <= CountBefore(stored, next)
  }

  /** One that also brings something new while the range has something new, and does not fail. */
  ghost predicate Progresses(c: Consumer, stored: seq<Message>, end: nat) {
    forall call, next ::
      var b := c(call, next);
      !b.failed && (CountBefore(stored, next) < CountBefore(stored, end + 1) ==> b.last > CountBefore(stored, next))
  }

  /** One that starts nowhere before the range and fills every batch as far as messages are stored. */
  ghost predicate FillsBatches(c: Consumer, stored: seq<Message>, start: nat, want: nat) {
    forall call, next ::
      var b := c(call, next);
      && !b.failed
      && CountBefore(stored, start) <= b.first <= b.last <= |stored|
      && (b.last == |stored| || b.last == b.first + want)
  }

  /** The stored messages of the range, in order. */
  function InRange(stored: seq<Message>, start: nat, end: nat): seq<Message>
    requires start <= end
  {
    var a, b := CountBefore(stored, start), CountBefore(stored, end + 1);
    if a <= b then stored[a..b] else []
  }

  /**
   * Why every fetch asks for the whole range and not for the rest of it: even
   * a consumer that starts over each time brings something new.
   */
  lemma WholeBatchesProgress(c: Consumer, stored: seq<Message>, start: nat, end: nat)
    requires start <= end && Rising(stored) && FillsBatches(c, stored, start, end - start + 1)
    ensures Progresses(c, stored, end)
  {
    AtMostWanted(stored, start, end);
  }

  /**
   * What was asked for, fetch by fetch: each brought something new and did not fail, so the next
   * asks for what follows.
   */
  ghost predicate Asked(c: Consumer, stored: seq<Message>, start: nat, asked: seq<nat>) {
    && (asked != [] ==> asked[0] == start)
    && forall i | 0 <= i < |asked| - 1 ::
         var b := c(i, asked[i]);
         !b.failed && CountBefore(stored, asked[i]) < b.last == CountBefore(stored, asked[i + 1])
  }

  /** The fetch before brought something new and did not fail, and the next asks for what follows it. */
  ghost predicate GoesOn(c: Consumer, stored: seq<Message>, start: nat, asked: seq<nat>, next: nat) {
    if asked == [] then next == start
    else
      var n := |asked| - 1;
      var b := c(n, asked[n]);
      !b.failed && CountBefore(stored, asked[n]) < b.last == CountBefore(stored, next)
  }

  lemma AskedOnceMore(c: Consumer, stored: seq<Message>, start: nat, asked: seq<nat>, next: nat)
    requires Asked(c, stored, start, asked) && GoesOn(c, stored, start, asked, next)
    ensures Asked(c, stored, start, asked + [next])
  {
  }

  lemma GoesOnAfter(c: Consumer, stored: seq<Message>, start: nat, asked: seq<nat>, next: nat, next': nat)
    requires !c(|asked|, next).failed && CountBefore(stored, next) < c(|asked|, next).last == CountBefore(stored, next')
    ensures GoesOn(c, stored, start, asked + [next], next')
  {
  }

  lemma LastDidNotFail(c: Consumer, stored: seq<Message>, start: nat, asked: seq<nat>, next: nat)
    requires asked != [] && GoesOn(c, stored, start, asked, next)
    ensures !c(|asked| - 1, asked[|asked| - 1]).failed
  {
  }

  lemma NothingAsked(c: Consumer, stored: seq<Message>, start: nat)
    ensures Asked(c, stored, start, []) && GoesOn(c, stored, start, [], start)
  {
  }

  lemma OneBatch(c: Consumer, stored: seq<Message>, want: nat, end: nat, call: nat, next: nat)
    requires Honest(c, stored, want)
    ensures
      var b := c(call, next);
      && b.first <= b.last <= |stored| && b.first <= CountBefore(stored, next)
      && (Progresses(c, stored, end) ==>
            !b.failed && (CountBefore(stored, next) < CountBefore(stored, end + 1) ==>
              b.last > CountBefore(stored, next)))
  {
  }

  lemma PartOfRange(stored: seq<Message>, start: nat, end: nat, out: seq<Message>)
    requires start <= end
    requires var a, b := CountBefore(stored, start), CountBefore(stored, end + 1);
      a + |out| <= b && out == stored[a..a + |out|]
    ensures out <= InRange(stored, start, end)
    ensures CountBefore(stored, start) + |out| == CountBefore(stored, end + 1) ==> out == InRange(stored, start, end)
  {
    assert InRange(stored, start, end)[..|out|] == out;
  }

  /**
   * The range, read batch by batch. Whatever the consumer replays, the result
   * is the beginning of what is stored in the range: no hole and no copy. It
   * is all of it when every fetch makes progress, and nothing if and only if
   * the last fetch failed without reaching past the end.
   */
  method FetchRange(c: Consumer, stored: seq<Message>, start: nat, end: nat)
    returns (r: Option<seq<Message>>, ghost asked: seq<nat>)
    requires start <= end && Rising(stored) && Honest(c, stored, end - start + 1)
    ensures r.Some? ==> r.value <= InRange(stored, start, end)
    ensures Progresses(c, stored, end) ==> r == Some(InRange(stored, start, end))
    ensures asked != [] && Asked(c, stored, start, asked)
    ensures
      var n := |asked| - 1;
      var b := c(n, asked[n]);
      r.None? <==> b.failed && b.last <= CountBefore(stored, end + 1)
  {
    hide Rising, CountBefore, Asked, GoesOn, Honest, Progresses, InRange;
    var want := end - start + 1;
    var out := [];
    var next := start;
    var call := 0;
    asked := [];
    NothingAsked(c, stored, start);
    ghost var a, b := CountBefore(stored, start), CountBefore(stored, end + 1);
    CountRises(stored, start, end + 1);
    AtMostWanted(stored, start, end);
    while |out| < want
      invariant start <= next && a + |out| <= b && out == stored[a..a + |out|]
      invariant CountBefore(stored, next) == a + |out|
      invariant |asked| == call && (call == 0 ==> out == [])
      invariant Asked(c, stored, start, asked) && GoesOn(c, stored, start, asked, next)
      decreases want - |out|
    {
      OneBatch(c, stored, want, end, call, next);
      AskedOnceMore(c, stored, start, asked, next);
      var batch := c(call, next);
      ghost var before, was := asked, next;
      asked := asked + [next];
      call := call + 1;
      var added, full;
      out, next, added, full := Take(stored, batch, out, next, a, end);
      PartOfRange(stored, start, end, out);
      if full {
        return Some(out), asked;
      }
      if batch.failed {
        return None, asked;
      }
      if added == 0 {
        return Some(out), asked;
      }
      GoesOnAfter(c, stored, start, before, was, next);
    }
    LastDidNotFail(c, stored, start, asked, next);
    PartOfRange(stored, start, end, out);
    r := Some(out);
  }

  /** Takes what is new of one batch; stops at the first message past the end. */
  method Take(stored: seq<Message>, batch: Batch, out0: seq<Message>, next0: nat, ghost a: nat, end: nat)
    returns (out: seq<Message>, next: nat, added: nat, full: bool)
    requires Rising(stored) && batch.first <= batch.last <= |stored|
    requires a + |out0| <= CountBefore(stored, end + 1) && out0 == stored[a..a + |out0|]
      && CountBefore(stored, next0) == a + |out0|
    requires batch.first <= CountBefore(stored, next0)
    ensures added == |out| - |out0| && next >= next0
    ensures a + |out| <= CountBefore(stored, end + 1) && out == stored[a..a + |out|]
      && CountBefore(stored, next) == a + |out|
    ensures full ==> a + |out| == CountBefore(stored, end + 1)
    ensures full <==> batch.last > CountBefore(stored, end + 1)
    ensures !full && batch.last > a + |out0| ==> a + |out| == batch.last
    ensures !full && batch.last <= a + |out0| ==> added == 0
  {
    hide Rising, CountBefore;
    out, next, added, full := out0, next0, 0, false;
    for i := batch.first to batch.last
      invariant added == |out| - |out0| && next >= next0
      invariant a + |out| <= CountBefore(stored, end + 1) && out == stored[a..a + |out|]
        && CountBefore(stored, next) == a + |out|
      invariant i <= a + |out|
      invariant i > a + |out0| ==> a + |out| == i
      invariant i <= a + |out0| ==> added == 0
    {
      var m := stored[i];
      CountSplits(stored, next);
      CountSplits(stored, end + 1);
      if m.seqNo > end {
        return out, next, added, true;
      }
      if m.seqNo < next {
        continue;
      }
      out := out + [m];
      next := m.seqNo + 1;
      CountAfter(stored, i);
      added := added + 1;
    }
  }

  lemma CountAfter(stored: seq<Message>, i: nat)
    requires Rising(stored) && i < |stored|
    ensures CountBefore(stored, stored[i].seqNo + 1) == i + 1
  {
    var n := stored[i].seqNo + 1;
    CountSplits(stored, n);
    assert i + 1 < |stored| ==> stored[i].seqNo < stored[i + 1].seqNo;
  }

  lemma CountRises(stored: seq<Message>, n: nat, m: nat)
    requires Rising(stored) && n <= m
    ensures CountBefore(stored, n) <= CountBefore(stored, m)
  {
  }

  /** A range cannot hold more messages than it has numbers. */
  lemma {:induction false} AtMostWanted(stored: seq<Message>, start: nat, end: nat)
    requires Rising(stored) && start <= end + 1
    ensures CountBefore(stored, end + 1) - CountBefore(stored, start) <= end + 1 - start
    decreases end + 1 - start
  {
    if start <= end {
      AtMostWanted(stored, start + 1, end);
      CountSplits(stored, start);
      CountSplits(stored, start + 1);
      var k := CountBefore(stored, start);
      assert k + 1 < |stored| ==> stored[k].seqNo < stored[k + 1].seqNo;
    }
  }
}
