/**
 * Paging a whole time range in for an export, one connection (exportRange.ts over the range pages
 * of handler/history.go).
 */
module ExportRange {
  import opened Paging
  import opened Sequences

  const EXPORT_MAX_MESSAGES := 200_000
  const PAGE := 5000

  /** The range's messages, newest first. */
  function Whole(disk: seq<Message>, from: nat, to: nat): seq<Message> {
    RangePage(disk, from, to, START, |disk|)
  }

  /** What the server answers: a page, and whether another may follow. */
  function Answer(disk: seq<Message>, from: nat, to: nat, c: Cursor, limit: nat): Page {
    var msgs := RangePage(disk, from, to, c, limit);
    Page(msgs, |msgs| == limit)
  }

  ghost predicate Bounds(disk: seq<Message>, from: nat, to: nat, a: nat, b: nat) {
    a <= b <= |disk| && forall i | 0 <= i < |disk| :: a <= i < b <==> from <= disk[i].ts <= to
  }

  /** The messages of a time range are consecutive. */
  lemma {:induction false} RangeIsConsecutive(disk: seq<Message>, mem: seq<Message>, from: nat, to: nat)
    returns (a: nat, b: nat)
    requires Kept(disk, mem)
    ensures Bounds(disk, from, to, a, b)
  {
    a := 0;
    while a < |disk| && disk[a].ts < from
      invariant a <= |disk| && forall i | 0 <= i < a :: disk[i].ts < from
    {
      a := a + 1;
    }
    b := a;
    while b < |disk| && disk[b].ts <= to
      invariant a <= b <= |disk| && forall i | a <= i < b :: disk[i].ts <= to
    {
      b := b + 1;
    }
    forall i | 0 <= i < |disk| ensures a <= i < b <==> from <= disk[i].ts <= to {
      assert a < i ==> Before(disk[a], CursorOf(disk[i]));
      assert b < |disk| && b < i ==> Before(disk[b], CursorOf(disk[i]));
    }
  }

  lemma WholeIsReversed(disk: seq<Message>, from: nat, to: nat, a: nat, b: nat)
    requires Bounds(disk, from, to, a, b)
    ensures Whole(disk, from, to) == Reverse(disk[a..b])
  {
    RangePageIsNewest(disk, from, to, START, |disk|, a, b);
    assert Max(a, b - |disk|) == a;
  }

  /** A page asked for with the cursor of the k-th message continues the list after it. */
  lemma PageContinues(disk: seq<Message>, mem: seq<Message>, from: nat, to: nat, k: nat, limit: nat)
    requires Kept(disk, mem) && 0 < k <= |Whole(disk, from, to)|
    ensures var whole := Whole(disk, from, to);
      RangePage(disk, from, to, CursorOf(whole[k - 1]), limit) ==
        whole[k..if k + limit < |whole| then k + limit else |whole|]
  {
    hide Kept, RangePage, Before, Reverse;
    var a, b := RangeIsConsecutive(disk, mem, from, to);
    WholeIsReversed(disk, from, to, a, b);
    var whole, p := Whole(disk, from, to), b - k;
    assert whole[k - 1] == disk[a..b][b - a - k];
    assert disk[a..b][b - a - k] == disk[p];
    MemoryIsTheEnd(disk, mem);
    forall i | 0 <= i < |disk| ensures a <= i < p <==> Selected(disk[i], from, to, CursorOf(disk[p])) {
      BeforeIsEarlier(disk, mem, i, p);
    }
    RangePageIsNewest(disk, from, to, CursorOf(disk[p]), limit, a, p);
    ReverseOfPart(disk, a, b, k, limit);
  }

  lemma ReverseOfPart(disk: seq<Message>, a: nat, b: nat, k: nat, limit: nat)
    requires a <= b <= |disk| && k <= b - a
    ensures var whole := Reverse(disk[a..b]);
      Reverse(disk[Max(a, b - k - limit)..b - k]) == whole[k..if k + limit < |whole| then k + limit else |whole|]
  {
    hide Reverse;
    var whole := Reverse(disk[a..b]);
    var page, rest := Reverse(disk[Max(a, b - k - limit)..b - k]),
      whole[k..if k + limit < |whole| then k + limit else |whole|];
    assert |page| == |rest|;
    forall i | 0 <= i < |page| ensures page[i] == rest[i] {
      assert page[i] == disk[b - k - 1 - i];
      assert whole[k + i] == disk[a..b][b - a - 1 - (k + i)] == disk[b - 1 - k - i];
    }
  }

  /**
   * Pages on from what the view has already shown. The export is the newest
   * part of the range, without a gap or a copy, and all of it unless it says
   * it was truncated at the ceiling.
   */
  method FetchWholeRange(disk: seq<Message>, ghost mem: seq<Message>, from: nat, to: nat, seed: seq<Message>,
                         seedMore: bool)
    returns (messages: seq<Message>, truncated: bool)
    requires Kept(disk, mem)
    requires seed <= Whole(disk, from, to) && (seedMore ==> seed != []) && (!seedMore ==> seed == Whole(disk, from, to))
    ensures messages <= Whole(disk, from, to)
    ensures !truncated ==> messages == Whole(disk, from, to)
    ensures truncated ==> |messages| >= EXPORT_MAX_MESSAGES
  {
    hide Kept, RangePage, Whole;
    ghost var whole := Whole(disk, from, to);
    messages := seed;
    var more := seedMore;
    var guard := 0;
    while more && |messages| < EXPORT_MAX_MESSAGES && guard < 1000
      invariant messages <= whole && (more ==> messages != []) && (!more ==> messages == whole)
      invariant more ==> |messages| >= PAGE * guard
      invariant guard <= 1000
      decreases 1000 - guard
    {
      guard := guard + 1;
      var cursor := CursorOf(messages[|messages| - 1]);
      PageContinues(disk, mem, from, to, |messages|, PAGE);
      var page := Answer(disk, from, to, cursor, PAGE);
      if |page.msgs| == 0 {
        assert messages == whole;
        break;
      }
      messages := messages + page.msgs;
      more := page.more;
    }
    truncated := more && |messages| >= EXPORT_MAX_MESSAGES;
  }
}
