/**
 * Reading one subject's history backwards, page by page, out of memory and on into the database
 * (handler/history.go).
 */
module Paging {
  import opened Sequences
  import opened Wrappers

  /** Sequence numbers start over with every run of a connection; the time does not. */
  datatype Message = Message(ts: nat, seqNo: nat, payload: string)

  /** A message already shown; (0, 0) where the reading begins. */
  datatype Cursor = Cursor(ts: nat, seqNo: nat)

  const START := Cursor(0, 0)

  function CursorOf(m: Message): Cursor { Cursor(m.ts, m.seqNo) }

  predicate Before(m: Message, c: Cursor) { m.ts < c.ts || (m.ts == c.ts && m.seqNo < c.seqNo) }

  // ----- the two stores -----

  /** The database has everything, in order of time and sequence; memory has the newest part of it. */
  ghost predicate Kept(disk: seq<Message>, mem: seq<Message>) {
    && (forall i, j | 0 <= i < j < |disk| ::
          disk[i].ts < disk[j].ts || (disk[i].ts == disk[j].ts && disk[i].seqNo < disk[j].seqNo))
    && (forall i | 0 <= i < |disk| :: disk[i].ts > 0 && disk[i].seqNo > 0)
    && |mem| <= |disk| && mem == disk[|disk| - |mem|..]
  }

  /** Numbered upwards, as the messages one run of a connection receives. */
  ghost predicate OneRun(mem: seq<Message>) {
    forall i, j | 0 <= i < j < |mem| :: mem[i].seqNo < mem[j].seqNo
  }

  /** The library's binary search for the first message numbered `before` or more. */
  function Search(mem: seq<Message>, before: nat, i: nat, j: nat): (e: nat)
    requires i <= j <= |mem|
    ensures i <= e <= j
    decreases j - i
  {
    if i == j then i
    else
      var h := (i + j) / 2;
      if mem[h].seqNo >= before then Search(mem, before, i, h) else Search(mem, before, h + 1, j)
  }

  function MemoryPage(mem: seq<Message>, limit: nat, before: nat): seq<Message> {
    var end := if before > 0 then Search(mem, before, 0, |mem|) else |mem|;
    mem[Max(0, end - limit)..end]
  }

  /** A row of a time range, before a cursor when there is one. */
  predicate Selected(m: Message, from: nat, to: nat, c: Cursor) {
    from <= m.ts <= to && (c.ts > 0 ==> Before(m, c))
  }

  /** The newest of those rows, newest first. */
  function RangePage(disk: seq<Message>, from: nat, to: nat, c: Cursor, limit: nat): seq<Message> {
    if disk == [] || limit == 0 then []
    else
      var last, rest := disk[|disk| - 1], disk[..|disk| - 1];
      if Selected(last, from, to, c) then [last] + RangePage(rest, from, to, c, limit - 1)
      else RangePage(rest, from, to, c, limit)
  }

  // ----- a page -----

  function OlderThan(msgs: seq<Message>, c: Cursor): seq<Message> {
    if c.ts == 0 || msgs == [] then msgs
    else (if Before(msgs[0], c) then [msgs[0]] else []) + OlderThan(msgs[1..], c)
  }

  datatype Page = Page(msgs: seq<Message>, more: bool)

  /** Continues a page in the database; the row read beyond the limit answers whether there is more. */
  function OlderOnDisk(db: Option<seq<Message>>, c: Cursor, limit: int, now: nat): Page {
    if db.None? || limit <= 0 then Page([], false)
    else
      var msgs := RangePage(db.value, 0, if c.ts == 0 then now else c.ts, c, limit + 1);
      if |msgs| > limit then Page(msgs[..limit], true) else Page(msgs, false)
  }

  function Get(mem: seq<Message>, db: Option<seq<Message>>, limit: nat, c: Cursor, now: nat): Page {
    var msgs := OlderThan(MemoryPage(mem, limit, c.seqNo), c);
    if |msgs| == limit then Page(msgs, true)
    else
      var edge := if |msgs| > 0 then CursorOf(msgs[0]) else c;
      var older := OlderOnDisk(db, edge, limit - |msgs|, now);
      Page(Reverse(older.msgs) + msgs, older.more)
  }

  // ----- what a page should be -----

  /** How many messages come before the cursor; all of them where the reading begins. */
  function Position(disk: seq<Message>, c: Cursor): (p: nat)
    ensures p <= |disk|
  {
    if c == START || disk == [] || Before(disk[|disk| - 1], c) then |disk| else Position(disk[..|disk| - 1], c)
  }

  /** The newest `limit` messages before the cursor, oldest first; more is said whenever there is more. */
  ghost predicate Exact(page: Page, disk: seq<Message>, limit: nat, c: Cursor) {
    var p := Position(disk, c);
    && page.msgs == disk[Max(0, p - limit)..p]
    && (p > limit ==> page.more)
    && (page.more ==> p >= limit)
  }

  ghost predicate IsCursor(disk: seq<Message>, c: Cursor) {
    c == START || exists i :: 0 <= i < |disk| && c == CursorOf(disk[i])
  }

  /** All there is to read: what the database holds, or without one what memory does. */
  function All(db: Option<seq<Message>>, mem: seq<Message>): seq<Message> { if db.Some? then db.value else mem }

  /** Memory is the newest part of it, and its clock does not run ahead. */
  ghost predicate Readable(db: Option<seq<Message>>, mem: seq<Message>, now: nat) {
    Kept(All(db, mem), mem) && forall i | 0 <= i < |All(db, mem)| :: All(db, mem)[i].ts <= now
  }

  function Found(mem: seq<Message>, i: nat): (e: nat)
    requires i < |mem|
    ensures e <= |mem|
  {
    Search(mem, mem[i].seqNo, 0, |mem|)
  }

  /**
   * The search for a message's number serves it: with a database behind
   * memory it must not end among the older messages, short of it; on its own
   * it must end right there, unless nothing is older.
   */
  ghost predicate SafeAt(onDisk: bool, mem: seq<Message>, i: nat)
    requires i < |mem|
  {
    var e := Found(mem, i);
    if onDisk then e == 0 || e >= i else i == 0 || e == i
  }

  ghost predicate SearchIsSafe(onDisk: bool, mem: seq<Message>) {
    forall i | 0 <= i < |mem| :: SafeAt(onDisk, mem, i)
  }

  /** The same for the one message a cursor stands at, when memory holds it. */
  ghost predicate SafeFor(db: Option<seq<Message>>, mem: seq<Message>, c: Cursor)
    requires |mem| <= |All(db, mem)|
  {
    var d, p := |All(db, mem)| - |mem|, Position(All(db, mem), c);
    d <= p < |All(db, mem)| ==> SafeAt(db.Some?, mem, p - d)
  }

  lemma {:induction false} PositionOfMessage(disk: seq<Message>, mem: seq<Message>, i: nat)
    requires Kept(disk, mem) && i < |disk|
    ensures Position(disk, CursorOf(disk[i])) == i
  {
    PositionIn(disk, disk, i);
  }

  lemma {:induction false} PositionIn(disk: seq<Message>, part: seq<Message>, i: nat)
    requires part <= disk && i < |disk| && i <= |part|
    requires forall i, j | 0 <= i < j < |disk| :: Before(disk[i], CursorOf(disk[j]))
    requires disk[i].ts > 0
    ensures Position(part, CursorOf(disk[i])) == i
  {
    if |part| > i {
      var last := |part| - 1;
      assert part[last] == disk[last];
      assert i < last ==> Before(disk[i], CursorOf(disk[last]));
      PositionIn(disk, part[..last], i);
    } else if i > 0 {
      assert Before(disk[i - 1], CursorOf(disk[i]));
    }
  }

  lemma {:induction false} RangePageIsNewest(disk: seq<Message>, from: nat, to: nat, c: Cursor, limit: nat, a: nat,
                                             p: nat)
    requires a <= p <= |disk|
    requires forall i | 0 <= i < |disk| :: a <= i < p <==> Selected(disk[i], from, to, c)
    ensures RangePage(disk, from, to, c, limit) == Reverse(disk[Max(a, p - limit)..p])
  {
    hide Selected, Reverse;
    if disk == [] || limit == 0 {
      assert disk[Max(a, p - limit)..p] == [];
      ReverseOfNothing();
    } else {
      var q := if p == |disk| then |disk| - 1 else p;
      var b := if a > q then q else a;
      var rest := disk[..|disk| - 1];
      WithoutLast(disk, rest, from, to, c, a, p, b, q);
      if a < p == |disk| {
        RangePageIsNewest(rest, from, to, c, limit - 1, b, q);
        ReverseOfSlice(disk, Max(a, p - limit));
      } else {
        RangePageIsNewest(rest, from, to, c, limit, b, q);
        if p < |disk| {
          SliceOfFront(disk, |disk| - 1, Max(a, p - limit), p);
        } else {
          assert rest[Max(b, q - limit)..q] == [] && disk[Max(a, p - limit)..p] == [];
        }
      }
    }
  }

  lemma SliceOfFront(s: seq<Message>, n: nat, i: nat, j: nat)
    requires i <= j <= n <= |s|
    ensures s[..n][i..j] == s[i..j]
  {
  }

  /** The selected rows are those from b to q when the last row is left out. */
  lemma WithoutLast(disk: seq<Message>, rest: seq<Message>, from: nat, to: nat, c: Cursor, a: nat, p: nat, b: nat,
                    q: nat)
    requires disk != [] && rest == disk[..|disk| - 1] && a <= p <= |disk|
    requires forall i | 0 <= i < |disk| :: a <= i < p <==> Selected(disk[i], from, to, c)
    requires q == (if p == |disk| then |disk| - 1 else p) && b == if a > q then q else a
    ensures forall i | 0 <= i < |rest| :: b <= i < q <==> Selected(rest[i], from, to, c)
  {
    hide Selected;
    forall i | 0 <= i < |rest| ensures b <= i < q <==> Selected(rest[i], from, to, c) {
      assert rest[i] == disk[i];
    }
  }

  lemma ReverseOfNothing()
    ensures Reverse<Message>([]) == []
  {
  }

  lemma ReverseOfSlice(disk: seq<Message>, m: nat)
    requires m < |disk|
    ensures var last := |disk| - 1;
      Reverse(disk[m..|disk|]) == [disk[last]] + Reverse(disk[..last][m..last])
  {
    hide Reverse;
    var last := |disk| - 1;
    var r, t := Reverse(disk[m..|disk|]), Reverse(disk[..last][m..last]);
    forall i | 0 <= i < |r| ensures r[i] == ([disk[last]] + t)[i] {
    }
  }

  lemma {:induction false} OlderThanAll(msgs: seq<Message>, c: Cursor, k: nat)
    requires c.ts > 0 && k <= |msgs|
    requires forall i | 0 <= i < k :: Before(msgs[i], c)
    requires forall i | k <= i < |msgs| :: !Before(msgs[i], c)
    ensures OlderThan(msgs, c) == msgs[..k]
  {
    if msgs != [] {
      if k == 0 {
        OlderThanAll(msgs[1..], c, 0);
      } else {
        OlderThanAll(msgs[1..], c, k - 1);
        assert msgs[..k] == [msgs[0]] + msgs[1..][..k - 1];
      }
    }
  }

  /** The part of a page that the database answers. */
  lemma DiskPart(disk: seq<Message>, mem: seq<Message>, c: Cursor, limit: int, now: nat, p: nat)
    requires Kept(disk, mem) && limit > 0
    requires forall i | 0 <= i < |disk| :: disk[i].ts <= now
    requires (c == START && p == |disk|) || (p < |disk| && c == CursorOf(disk[p]))
    ensures var older := OlderOnDisk(Some(disk), c, limit, now);
      older.msgs == Reverse(disk[Max(0, p - limit)..p]) && (older.more <==> p > limit)
  {
    var to := if c.ts == 0 then now else c.ts;
    forall i | 0 <= i < |disk| ensures i < p <==> Selected(disk[i], 0, to, c) {
      SelectedIsEarlier(disk, mem, c, now, p, i);
    }
    hide Kept, Selected, Reverse, RangePage;
    RangePageIsNewest(disk, 0, to, c, limit + 1, 0, p);
    FirstOfReversed(disk, p, limit);
  }

  lemma SelectedIsEarlier(disk: seq<Message>, mem: seq<Message>, c: Cursor, now: nat, p: nat, i: nat)
    requires Kept(disk, mem) && i < |disk| && disk[i].ts <= now
    requires (c == START && p == |disk|) || (p < |disk| && c == CursorOf(disk[p]))
    ensures i < p <==> Selected(disk[i], 0, if c.ts == 0 then now else c.ts, c)
  {
    hide Kept;
    MemoryIsTheEnd(disk, mem);
    if p < |disk| {
      BeforeIsEarlier(disk, mem, i, p);
    }
  }

  lemma FirstOfReversed(disk: seq<Message>, p: nat, limit: int)
    requires p <= |disk| && limit > 0
    ensures
      var msgs := Reverse(disk[Max(0, p - (limit + 1))..p]);
      if p > limit then |msgs| == limit + 1 && msgs[..limit] == Reverse(disk[p - limit..p])
      else msgs == Reverse(disk[..p]) && |msgs| == p
  {
    hide Reverse;
    if p > limit {
      var msgs, r := Reverse(disk[p - (limit + 1)..p]), Reverse(disk[p - limit..p]);
      forall k | 0 <= k < limit ensures msgs[..limit][k] == r[k] {
      }
    }
  }

  lemma ReverseTwice(s: seq<Message>)
    ensures Reverse(Reverse(s)) == s
  {
  }

  lemma BeforeIsEarlier(disk: seq<Message>, mem: seq<Message>, y: nat, i: nat)
    requires Kept(disk, mem) && i < |disk| && y < |disk|
    ensures Before(disk[y], CursorOf(disk[i])) <==> y < i
  {
  }

  lemma MemoryIsTheEnd(disk: seq<Message>, mem: seq<Message>)
    requires Kept(disk, mem)
    ensures |mem| <= |disk| && mem == disk[|disk| - |mem|..]
    ensures forall i | 0 <= i < |disk| :: disk[i].ts > 0
  {
  }

  lemma InMemory(disk: seq<Message>, mem: seq<Message>, i: nat)
    requires Kept(disk, mem) && i < |mem|
    ensures |mem| <= |disk| && mem[i] == disk[|disk| - |mem| + i] && mem[i].ts > 0 && mem[i].seqNo > 0
  {
    hide Before;
  }

  /** The part of a page that memory answers, cut at the cursor. */
  lemma MemoryPart(disk: seq<Message>, mem: seq<Message>, limit: nat, c: Cursor)
    requires Kept(disk, mem) && IsCursor(disk, c) && SafeFor(Some(disk), mem, c)
    ensures
      var msgs, p := OlderThan(MemoryPage(mem, limit, c.seqNo), c), Position(disk, c);
      |msgs| <= p && msgs == disk[p - |msgs|..p]
  {
    hide Kept, Before, OlderThan, Position, Search, SafeFor;
    MemoryIsTheEnd(disk, mem);
    PositionOfCursor(disk, mem, c);
    var p := Position(disk, c);
    if c == START {
      NoCut(MemoryPage(mem, limit, 0));
      var start := Max(0, |mem| - limit);
      assert mem[start..|mem|] == disk[|disk| - |mem| + start..];
    } else {
      var end := EndOfSearch(disk, mem, c, p);
      MemoryCut(disk, mem, p, Max(0, end - limit), end);
    }
  }

  lemma NoCut(msgs: seq<Message>)
    ensures OlderThan(msgs, START) == msgs
  {
  }

  lemma EndOfSearch(disk: seq<Message>, mem: seq<Message>, c: Cursor, p: nat) returns (end: nat)
    requires Kept(disk, mem) && SafeFor(Some(disk), mem, c) && p == Position(disk, c) && p < |disk|
      && c == CursorOf(disk[p])
    ensures c.seqNo > 0 && end == Search(mem, c.seqNo, 0, |mem|)
    ensures p >= |disk| - |mem| ==> end == 0 || end >= p - (|disk| - |mem|)
  {
    hide Search;
    end := Search(mem, c.seqNo, 0, |mem|);
    var d := |disk| - |mem|;
    assert p >= d ==> mem[p - d] == disk[p];
  }

  lemma MemoryCut(disk: seq<Message>, mem: seq<Message>, i: nat, start: nat, end: nat)
    requires Kept(disk, mem) && i < |disk| && start <= end <= |mem|
    requires i >= |disk| - |mem| ==> end == 0 || end >= i - (|disk| - |mem|)
    ensures var msgs := OlderThan(mem[start..end], CursorOf(disk[i]));
      |msgs| <= i && msgs == disk[i - |msgs|..i]
  {
    hide Kept, Before, OlderThan;
    MemoryIsTheEnd(disk, mem);
    var lo := |disk| - |mem| + start;
    assert mem[start..end] == disk[lo..lo + (end - start)];
    StretchCut(disk, mem, lo, lo + (end - start), i);
  }

  /** What of a stretch of the records lies before the i-th of them. */
  lemma StretchCut(disk: seq<Message>, mem: seq<Message>, lo: nat, hi: nat, i: nat)
    requires Kept(disk, mem) && lo <= hi <= |disk| && i < |disk|
    ensures
      OlderThan(disk[lo..hi], CursorOf(disk[i])) ==
      if i <= lo then [] else disk[lo..if hi <= i then hi else i]
  {
    hide Kept, Before, OlderThan;
    MemoryIsTheEnd(disk, mem);
    var page := disk[lo..hi];
    var k := if i <= lo then 0 else if hi <= i then hi - lo else i - lo;
    forall x | 0 <= x < |page| ensures Before(page[x], CursorOf(disk[i])) <==> x < k {
      BeforeIsEarlier(disk, mem, lo + x, i);
    }
    OlderThanAll(page, CursorOf(disk[i]), k);
  }

  /** Without a database a page is what memory answers, and more is said just when that is a full page. */
  lemma PageOfMemory(mem: seq<Message>, limit: nat, i: nat, now: nat)
    requires Kept(mem, mem) && i < |mem| && limit > 0
    ensures
      var e, page := Found(mem, i), Get(mem, None, limit, CursorOf(mem[i]), now);
      var s := Max(0, e - limit);
      && page.msgs == (if i <= s then [] else mem[s..if e <= i then e else i])
      && page.more == (|page.msgs| == limit)
  {
    hide Kept, Before, OlderThan, Search;
    MemoryIsTheEnd(mem, mem);
    var e := Found(mem, i);
    StretchCut(mem, mem, Max(0, e - limit), e, i);
    assert mem[i].seqNo > 0 by { NumbersArePositive(mem, mem, i); }
  }

  lemma NumbersArePositive(disk: seq<Message>, mem: seq<Message>, i: nat)
    requires Kept(disk, mem) && i < |disk|
    ensures disk[i].seqNo > 0
  {
  }

  lemma FirstPageOfMemory(mem: seq<Message>, limit: nat, now: nat)
    ensures Get(mem, None, limit, START, now) == Page(mem[Max(0, |mem| - limit)..], limit <= |mem|)
  {
    hide OlderThan;
    NoCut(MemoryPage(mem, limit, 0));
    assert Reverse<Message>([]) == [];
  }

  /** With a safe search every page is exact. */
  lemma PagesAreExact(db: Option<seq<Message>>, mem: seq<Message>, limit: nat, c: Cursor, now: nat)
    requires Readable(db, mem, now) && SearchIsSafe(db.Some?, mem) && IsCursor(All(db, mem), c) && limit > 0
    ensures Exact(Get(mem, db, limit, c, now), All(db, mem), limit, c)
  {
    hide Position, Get, Exact, SafeAt;
    MemoryIsTheEnd(All(db, mem), mem);
    PageIsExact(db, mem, limit, c, now);
  }

  lemma PageIsExact(db: Option<seq<Message>>, mem: seq<Message>, limit: nat, c: Cursor, now: nat)
    requires Readable(db, mem, now) && IsCursor(All(db, mem), c) && SafeFor(db, mem, c) && limit > 0
    ensures Exact(Get(mem, db, limit, c, now), All(db, mem), limit, c)
  {
    hide Kept, Get, Exact, SafeFor, IsCursor;
    if db.Some? {
      PageOfBoth(db.value, mem, limit, c, now);
    } else {
      PageOfMemoryIsExact(mem, limit, c, now);
    }
  }

  lemma PageOfMemoryIsExact(mem: seq<Message>, limit: nat, c: Cursor, now: nat)
    requires Kept(mem, mem) && IsCursor(mem, c) && SafeFor(None, mem, c) && limit > 0
    ensures Exact(Get(mem, None, limit, c, now), mem, limit, c)
  {
    hide Kept, Get, Before, Position, Search, IsCursor;
    PositionOfCursor(mem, mem, c);
    var p := Position(mem, c);
    if p < |mem| {
      PageOfMemory(mem, limit, p, now);
    } else {
      FirstPageOfMemory(mem, limit, now);
      assert mem[..|mem|] == mem;
    }
  }

  /** A page out of memory and database, put together from the two parts. */
  lemma PageOfBoth(disk: seq<Message>, mem: seq<Message>, limit: nat, c: Cursor, now: nat)
    requires Kept(disk, mem) && IsCursor(disk, c) && SafeFor(Some(disk), mem, c) && limit > 0
    requires forall i | 0 <= i < |disk| :: disk[i].ts <= now
    ensures Exact(Get(mem, Some(disk), limit, c, now), disk, limit, c)
  {
    hide Kept, Before, OlderThan, Position, Search, MemoryPage, OlderOnDisk, Reverse, SafeFor, IsCursor, Get, Exact;
    MemoryPart(disk, mem, limit, c);
    MemoryPageIsShort(mem, limit, c);
    PositionOfCursor(disk, mem, c);
    var msgs, p := OlderThan(MemoryPage(mem, limit, c.seqNo), c), Position(disk, c);
    RestOfPage(disk, mem, limit, c, now, msgs, p);
    PartsMakePage(disk, mem, limit, c, now, msgs, p);
  }

  lemma PartsMakePage(disk: seq<Message>, mem: seq<Message>, limit: nat, c: Cursor, now: nat, msgs: seq<Message>,
                      p: nat)
    requires msgs == OlderThan(MemoryPage(mem, limit, c.seqNo), c) && |msgs| <= limit && |msgs| <= p
      && p == Position(disk, c)
    requires
      var edge := if |msgs| > 0 then CursorOf(msgs[0]) else c;
      var older := OlderOnDisk(Some(disk), edge, limit - |msgs|, now);
      |msgs| < limit ==> Reverse(older.msgs) + msgs == disk[Max(0, p - limit)..p] && (older.more <==> p > limit)
    requires |msgs| == limit ==> msgs == disk[Max(0, p - limit)..p]
    ensures Exact(Get(mem, Some(disk), limit, c, now), disk, limit, c)
  {
    hide OlderThan, Position, MemoryPage, OlderOnDisk, Reverse;
  }

  lemma PositionOfCursor(disk: seq<Message>, mem: seq<Message>, c: Cursor)
    requires Kept(disk, mem) && IsCursor(disk, c)
    ensures var p := Position(disk, c); (c == START && p == |disk|) || (p < |disk| && c == CursorOf(disk[p]))
  {
    hide Kept, Before;
    if c != START {
      var i :| 0 <= i < |disk| && c == CursorOf(disk[i]);
      PositionOfMessage(disk, mem, i);
    }
  }

  lemma RestOfPage(disk: seq<Message>, mem: seq<Message>, limit: nat, c: Cursor, now: nat, msgs: seq<Message>, p: nat)
    requires Kept(disk, mem) && |msgs| <= limit && limit > 0
    requires forall i | 0 <= i < |disk| :: disk[i].ts <= now
    requires |msgs| <= p <= |disk| && msgs == disk[p - |msgs|..p]
    requires (c == START && p == |disk|) || (p < |disk| && c == CursorOf(disk[p]))
    ensures
      var edge := if |msgs| > 0 then CursorOf(msgs[0]) else c;
      var older := OlderOnDisk(Some(disk), edge, limit - |msgs|, now);
      |msgs| < limit ==> Reverse(older.msgs) + msgs == disk[Max(0, p - limit)..p] && (older.more <==> p > limit)
    ensures |msgs| == limit ==> msgs == disk[Max(0, p - limit)..p]
  {
    hide Kept, Before, OlderOnDisk, Reverse;
    if |msgs| < limit {
      var q := p - |msgs|;
      var edge := if |msgs| > 0 then CursorOf(msgs[0]) else c;
      assert |msgs| > 0 ==> msgs[0] == disk[q];
      DiskPart(disk, mem, edge, limit - |msgs|, now, q);
      var from := Max(0, p - limit);
      assert from == Max(0, q - (limit - |msgs|));
      hide Max;
      ReverseTwice(disk[from..q]);
      SlicesMeet(disk, from, q, p);
    }
  }

  lemma SlicesMeet(s: seq<Message>, i: nat, j: nat, k: nat)
    requires i <= j <= k <= |s|
    ensures s[i..j] + s[j..k] == s[i..k]
  {
  }

  lemma MemoryPageIsShort(mem: seq<Message>, limit: nat, c: Cursor)
    ensures |OlderThan(MemoryPage(mem, limit, c.seqNo), c)| <= limit
  {
    OlderThanIsShorter(MemoryPage(mem, limit, c.seqNo), c);
  }

  lemma {:induction false} OlderThanIsShorter(msgs: seq<Message>, c: Cursor)
    ensures |OlderThan(msgs, c)| <= |msgs|
  {
    if msgs != [] {
      OlderThanIsShorter(msgs[1..], c);
    }
  }

  /** What lies in memory before another message was recorded before it. */
  lemma EarlierInMemory(disk: seq<Message>, mem: seq<Message>, x: nat, i: nat)
    requires Kept(disk, mem) && x < i < |mem|
    ensures Before(mem[x], CursorOf(mem[i])) && mem[x] != mem[i]
  {
    hide Kept;
    InMemory(disk, mem, x);
    InMemory(disk, mem, i);
    BeforeIsEarlier(disk, mem, |disk| - |mem| + x, |disk| - |mem| + i);
  }

  /** Where the search ends short a page of one message is the message before its end. */
  lemma UnsafePageSkips(db: Option<seq<Message>>, mem: seq<Message>, i: nat, now: nat)
    requires Readable(db, mem, now) && i < |mem| && 0 < Found(mem, i) < i
    ensures Get(mem, db, 1, CursorOf(mem[i]), now) == Page([mem[Found(mem, i) - 1]], true)
  {
    hide Search, OlderThan, OlderOnDisk, Kept, Before, Reverse;
    var c, e := CursorOf(mem[i]), Found(mem, i);
    InMemory(All(db, mem), mem, i);
    EarlierInMemory(All(db, mem), mem, e - 1, i);
    var page := MemoryPage(mem, 1, c.seqNo);
    assert page == [mem[e - 1]];
    OlderThanAll(page, c, 1);
    assert page[..1] == page;
  }

  /** And only with a safe search is every page right: otherwise some page of one message is not. */
  lemma UnsafeSearchSkips(db: Option<seq<Message>>, mem: seq<Message>, now: nat) returns (c: Cursor)
    requires Readable(db, mem, now) && !SearchIsSafe(db.Some?, mem)
    ensures IsCursor(All(db, mem), c) && !Exact(Get(mem, db, 1, c, now), All(db, mem), 1, c)
  {
    hide Get, Before, Found, Kept;
    var all := All(db, mem);
    var i :| 0 <= i < |mem| && !SafeAt(db.Some?, mem, i);
    InMemory(all, mem, i);
    var p := |all| - |mem| + i;
    c := CursorOf(mem[i]);
    PositionOfMessage(all, mem, p);
    hide Position;
    if 0 < Found(mem, i) < i {
      var e := Found(mem, i);
      UnsafePageSkips(db, mem, i, now);
      InMemory(all, mem, i - 1);
      EarlierInMemory(all, mem, e - 1, i - 1);
      assert all[p - 1..p] == [mem[i - 1]];
    } else {
      PageOfMemory(mem, 1, i, now);
    }
  }

  /**
   * Exactly when the pages of a history are right: every page from every
   * cursor is exact if and only if the search through memory is safe.
   */
  lemma PagesAreExactIffSearchIsSafe(db: Option<seq<Message>>, mem: seq<Message>, now: nat)
    requires Readable(db, mem, now)
    ensures SearchIsSafe(db.Some?, mem) <==>
      forall c, limit: nat | IsCursor(All(db, mem), c) && limit > 0 ::
        Exact(Get(mem, db, limit, c, now), All(db, mem), limit, c)
  {
    hide Readable, SearchIsSafe, Exact, Get;
    if SearchIsSafe(db.Some?, mem) {
      forall c, limit: nat | IsCursor(All(db, mem), c) && limit > 0
        ensures Exact(Get(mem, db, limit, c, now), All(db, mem), limit, c)
      {
        PagesAreExact(db, mem, limit, c, now);
      }
    } else {
      var c := UnsafeSearchSkips(db, mem, now);
    }
  }

  /** Already before message i the numbers step from below its own number up to it or past it. */
  ghost predicate StepsPast(mem: seq<Message>, e: nat, i: nat)
    requires i < |mem|
  {
    0 < e < i && mem[e - 1].seqNo < mem[i].seqNo <= mem[e].seqNo
  }

  /** A search can only end short at such a step; where the numbers have none, it is safe. */
  lemma NoStepIsSafe(mem: seq<Message>)
    requires forall i, e: nat | 0 <= i < |mem| :: !StepsPast(mem, e, i)
    ensures SearchIsSafe(true, mem)
  {
    forall i | 0 <= i < |mem| ensures SafeAt(true, mem, i) {
      SearchEndsAtStep(mem, mem[i].seqNo, 0, |mem|);
      var e := Search(mem, mem[i].seqNo, 0, |mem|);
      assert !StepsPast(mem, e, i);
    }
  }

  ghost predicate BelowAt(mem: seq<Message>, before: nat, e: nat) { 0 < e <= |mem| ==> mem[e - 1].seqNo < before }

  ghost predicate NotBelowAt(mem: seq<Message>, before: nat, e: nat) { e < |mem| ==> before <= mem[e].seqNo }

  lemma {:induction false} SearchEndsAtStep(mem: seq<Message>, before: nat, i: nat, j: nat)
    requires i <= j <= |mem| && BelowAt(mem, before, i) && NotBelowAt(mem, before, j)
    ensures BelowAt(mem, before, Search(mem, before, i, j)) && NotBelowAt(mem, before, Search(mem, before, i, j))
    decreases j - i
  {
    if i < j {
      var h := (i + j) / 2;
      if mem[h].seqNo >= before {
        SearchEndsAtStep(mem, before, i, h);
      } else {
        SearchEndsAtStep(mem, before, h + 1, j);
      }
    }
  }

  /** The search halves its way past a step by luck: this memory is safe although its numbers step past. */
  lemma SafeByLuck()
    ensures exists mem: seq<Message> :: |mem| == 4 && SearchIsSafe(true, mem) && StepsPast(mem, 1, 3)
  {
    var mem := [Message(1, 1, ""), Message(2, 3, ""), Message(3, 1, ""), Message(4, 2, "")];
    assert Search(mem, 2, 3, 3) == 3 && Search(mem, 2, 3, 4) == 3;
    assert Search(mem, 3, 3, 4) == 4;
    assert Search(mem, 1, 0, 0) == 0 && Search(mem, 1, 0, 1) == 0 && Search(mem, 1, 0, 2) == 0;
    assert SafeAt(true, mem, 0) && SafeAt(true, mem, 1) && SafeAt(true, mem, 2) && SafeAt(true, mem, 3);
    assert StepsPast(mem, 1, 3);
  }

  /**
   * The messages of one run are safe: a live connection's memory, which is
   * emptied when the connection closes. An imported bundle keeps the numbers
   * of the runs it was recorded in, so its memory need not be.
   */
  lemma OneRunIsSafe(mem: seq<Message>)
    requires OneRun(mem)
    ensures SearchIsSafe(true, mem)
  {
    forall i, e: nat | 0 <= i < |mem| ensures !StepsPast(mem, e, i) {
      assert 0 < e < i ==> mem[e].seqNo < mem[i].seqNo;
    }
    NoStepIsSafe(mem);
  }

  /** Without a database nothing else will do: memory on its own is safe if and only if it holds one run. */
  lemma AloneIsSafeIffOneRun(mem: seq<Message>)
    ensures SearchIsSafe(false, mem) <==> OneRun(mem)
  {
    hide Search;
    forall i | 0 <= i < |mem|
      ensures BelowAt(mem, mem[i].seqNo, Found(mem, i)) && NotBelowAt(mem, mem[i].seqNo, Found(mem, i))
    {
      SearchEndsAtStep(mem, mem[i].seqNo, 0, |mem|);
    }
    if SearchIsSafe(false, mem) {
      forall i | 0 < i < |mem| ensures mem[i - 1].seqNo < mem[i].seqNo {
        assert SafeAt(false, mem, i);
      }
      RisingIsOneRun(mem);
    } else {
      var i :| 0 <= i < |mem| && !SafeAt(false, mem, i);
      var e := Found(mem, i);
    }
  }

  lemma {:induction false} RisingIsOneRun(mem: seq<Message>)
    requires forall i | 0 < i < |mem| :: mem[i - 1].seqNo < mem[i].seqNo
    ensures OneRun(mem)
  {
    if mem != [] {
      var n := |mem| - 1;
      RisingIsOneRun(mem[..n]);
      forall i, j | 0 <= i < j < |mem| ensures mem[i].seqNo < mem[j].seqNo {
        assert j < n ==> mem[..n][i] == mem[i] && mem[..n][j] == mem[j];
        assert i < n - 1 ==> mem[..n][i].seqNo < mem[..n][n - 1].seqNo;
      }
    }
  }

  // ----- the reading -----

  /** The last so many, or all. */
  function Newest(s: seq<Message>, n: nat): seq<Message> { s[Max(0, |s| - n)..] }

  /** So many, or all if there are fewer: the end of the list, in its order. */
  lemma NewestIsTheEnd(s: seq<Message>, n: nat)
    ensures
      var r := Newest(s, n);
      |r| == (if n < |s| then n else |s|) && forall i | 0 <= i < |r| :: r[i] == s[|s| - |r| + i]
  {
  }

  lemma {:induction false} OlderThanKeeps(msgs: seq<Message>, c: Cursor)
    requires c.ts > 0
    ensures forall m | m in OlderThan(msgs, c) :: m in msgs && Before(m, c)
  {
    if msgs != [] {
      OlderThanKeeps(msgs[1..], c);
    }
  }

  lemma {:induction false} RangePageKeeps(disk: seq<Message>, from: nat, to: nat, c: Cursor, limit: nat)
    ensures forall m | m in RangePage(disk, from, to, c, limit) :: m in disk && Selected(m, from, to, c)
  {
    hide Selected;
    if disk != [] && limit > 0 {
      RangePageKeeps(disk[..|disk| - 1], from, to, c, limit - 1);
      RangePageKeeps(disk[..|disk| - 1], from, to, c, limit);
    }
  }

  lemma DiskPageIsOlder(db: Option<seq<Message>>, edge: Cursor, limit: nat, now: nat)
    requires edge.ts > 0 && limit > 0
    ensures
      var page := OlderOnDisk(db, edge, limit, now);
      (page.more ==> page.msgs != []) && forall m | m in page.msgs :: db.Some? && m in db.value && Before(m, edge)
  {
    hide RangePage;
    if db.Some? {
      RangePageKeeps(db.value, 0, edge.ts, edge, limit + 1);
    }
  }

  lemma ReverseHolds(s: seq<Message>)
    ensures forall m :: m in Reverse(s) <==> m in s
  {
    hide Reverse;
    assert forall i | 0 <= i < |s| :: s[i] == Reverse(s)[|s| - 1 - i];
  }

  /** A page is what memory has of it, and in front of that what the database adds when it is not full. */
  lemma PageHolds(db: Option<seq<Message>>, mem: seq<Message>, limit: nat, c: Cursor, now: nat)
    requires c.ts > 0
    ensures
      var page, found := Get(mem, db, limit, c, now), OlderThan(MemoryPage(mem, limit, c.seqNo), c);
      && |found| <= limit && (forall m | m in found :: m in mem && Before(m, c))
      && (|found| == limit ==> page == Page(found, true))
      && (|found| < limit ==>
            var edge := if found != [] then CursorOf(found[0]) else c;
            var older := OlderOnDisk(db, edge, limit - |found|, now);
            && page.more == older.more && |page.msgs| == |older.msgs| + |found|
            && forall m :: m in page.msgs <==> m in older.msgs || m in found)
  {
    hide OlderThan, OlderOnDisk, Search, Reverse, Before;
    var found := OlderThan(MemoryPage(mem, limit, c.seqNo), c);
    OlderThanKeeps(MemoryPage(mem, limit, c.seqNo), c);
    MemoryPageIsShort(mem, limit, c);
    MemoryPageHolds(mem, limit, c.seqNo);
    hide MemoryPage;
    var edge := if found != [] then CursorOf(found[0]) else c;
    ReverseHolds(OlderOnDisk(db, edge, limit - |found|, now).msgs);
  }

  lemma MemoryPageHolds(mem: seq<Message>, limit: nat, before: nat)
    ensures forall m | m in MemoryPage(mem, limit, before) :: m in mem
  {
    hide Search;
  }

  lemma IsRecorded(disk: seq<Message>, mem: seq<Message>)
    requires Kept(disk, mem)
    ensures forall m | m in mem :: m in disk && m.ts > 0
  {
    hide Before;
  }

  /** Safe or not, a page holds only messages from before the cursor, and some if it says there are more. */
  lemma PageIsOlder(db: Option<seq<Message>>, mem: seq<Message>, limit: nat, c: Cursor, now: nat)
    requires Kept(All(db, mem), mem) && c.ts > 0 && limit > 0
    ensures
      var page := Get(mem, db, limit, c, now);
      (page.more ==> page.msgs != []) && forall m | m in page.msgs :: m in All(db, mem) && Before(m, c)
  {
    hide Get, OlderThan, OlderOnDisk, MemoryPage, Kept;
    PageHolds(db, mem, limit, c, now);
    IsRecorded(All(db, mem), mem);
    var found := OlderThan(MemoryPage(mem, limit, c.seqNo), c);
    if |found| < limit {
      var edge := if found != [] then CursorOf(found[0]) else c;
      assert found != [] ==> found[0] in found;
      DiskPageIsOlder(db, edge, limit - |found|, now);
    }
  }

  lemma PageIsBehind(db: Option<seq<Message>>, mem: seq<Message>, limit: nat, m: Message, now: nat)
    requires Kept(All(db, mem), mem) && m in All(db, mem) && limit > 0
    ensures
      var all, page := All(db, mem), Get(mem, db, limit, CursorOf(m), now);
      && (page.more ==> page.msgs != []) && (page.msgs != [] ==> Position(all, CursorOf(m)) > 0)
      && forall x | x in page.msgs :: x in all && Position(all, CursorOf(x)) < Position(all, CursorOf(m))
  {
    hide Before, Get, Position, Kept;
    var all := All(db, mem);
    MemoryIsTheEnd(all, mem);
    var i :| 0 <= i < |all| && all[i] == m;
    PositionOfMessage(all, mem, i);
    PageIsOlder(db, mem, limit, CursorOf(m), now);
    forall x | x in Get(mem, db, limit, CursorOf(m), now).msgs
      ensures x in all && Position(all, CursorOf(x)) < Position(all, CursorOf(m))
    {
      var y :| 0 <= y < |all| && all[y] == x;
      PositionOfMessage(all, mem, y);
      BeforeIsEarlier(all, mem, y, i);
    }
    var msgs := Get(mem, db, limit, CursorOf(m), now).msgs;
    assert msgs != [] ==> msgs[0] in msgs;
  }

  /** Page after page from the oldest message shown, until there is none or the view is full. */
  ghost function ReadOlder(db: Option<seq<Message>>, mem: seq<Message>, limit: nat, ceiling: nat, now: nat,
                           shown: seq<Message>, atOldest: bool): seq<Message>
    requires Readable(db, mem, now) && limit > 0 && (shown != [] ==> shown[0] in All(db, mem))
    decreases if shown == [] then 0 else Position(All(db, mem), CursorOf(shown[0])), !atOldest
  {
    if atOldest || shown == [] || |shown| >= ceiling then shown
    else
      var page := Get(mem, db, limit, CursorOf(shown[0]), now);
      PageIsBehind(db, mem, limit, shown[0], now);
      hide Kept, Get, Position, Before;
      ReadOlder(db, mem, limit, ceiling, now, Newest(page.msgs + shown, ceiling), !page.more)
  }

  /** The first page and what scrolling back adds to it. */
  ghost function Reading(db: Option<seq<Message>>, mem: seq<Message>, first: nat, limit: nat, ceiling: nat,
                         now: nat): seq<Message>
    requires Readable(db, mem, now) && first > 0 && limit > 0
  {
    FirstPage(db, mem, first, now);
    ReadOlder(db, mem, limit, ceiling, now, Get(mem, db, first, START, now).msgs, false)
  }

  /** The first page is always exact: there is no cursor to search for. */
  lemma FirstPage(db: Option<seq<Message>>, mem: seq<Message>, first: nat, now: nat)
    requires Readable(db, mem, now) && first > 0
    ensures Get(mem, db, first, START, now).msgs == Newest(All(db, mem), first)
  {
    hide Kept, Get, Before;
    var all := All(db, mem);
    MemoryIsTheEnd(all, mem);
    PositionOfStart(all);
    PageIsExact(db, mem, first, START, now);
    assert all[..|all|] == all;
  }

  lemma PositionOfStart(disk: seq<Message>)
    ensures IsCursor(disk, START) && Position(disk, START) == |disk|
  {
  }

  lemma PositionOfShown(disk: seq<Message>, mem: seq<Message>, p: nat)
    requires Kept(disk, mem) && p < |disk|
    ensures var c := CursorOf(disk[p]); IsCursor(disk, c) && Position(disk, c) == p
  {
    hide Kept, Before;
    PositionOfMessage(disk, mem, p);
  }

  /**
   * The page from the i-th message of memory serves a view that has room for
   * so many more: the search for it is safe, or without a database it ends
   * further on but leaves all that is older, or enough of it, in the page.
   */
  ghost predicate Serves(onDisk: bool, mem: seq<Message>, limit: nat, room: int, i: nat)
    requires i < |mem|
  {
    var e := Found(mem, i);
    SafeAt(onDisk, mem, i) || (!onDisk && e > i && (e <= limit || i - (e - limit) >= room))
  }

  /** One page of the reading. */
  lemma ReadOlderStep(db: Option<seq<Message>>, mem: seq<Message>, limit: nat, ceiling: nat, now: nat,
                      shown: seq<Message>)
    requires Readable(db, mem, now) && limit > 0 && shown != [] && shown[0] in All(db, mem) && |shown| < ceiling
    ensures
      var page := Get(mem, db, limit, CursorOf(shown[0]), now);
      var more := Newest(page.msgs + shown, ceiling);
      && more != [] && more[0] in All(db, mem)
      && ReadOlder(db, mem, limit, ceiling, now, shown, false) ==
            ReadOlder(db, mem, limit, ceiling, now, more, !page.more)
  {
    hide Kept, Get, Before, Position;
    PageIsBehind(db, mem, limit, shown[0], now);
  }

  /** One page of the reading from the p-th message, when it serves. */
  lemma PageOn(db: Option<seq<Message>>, mem: seq<Message>, limit: nat, ceiling: nat, now: nat, p: nat)
    returns (more: bool)
    requires Readable(db, mem, now) && limit > 0
    requires var all := All(db, mem);
      && p < |all| && |all| - p < ceiling && |mem| <= |all|
      && (p >= |all| - |mem| ==> Serves(db.Some?, mem, limit, ceiling - (|all| - p), p - (|all| - |mem|)))
    ensures
      var all := All(db, mem);
      var q := Max(Max(0, p - limit), |all| - ceiling);
      && ReadOlder(db, mem, limit, ceiling, now, all[p..], false) ==
            ReadOlder(db, mem, limit, ceiling, now, all[q..], !more)
      && (!more ==> q == 0 || |all| - q == ceiling) && (p == 0 ==> !more)
  {
    hide Kept, Get, ReadOlder, Serves, Newest;
    var all := All(db, mem);
    more := Get(mem, db, limit, CursorOf(all[p]), now).more;
    PageServes(db, mem, limit, ceiling, now, p);
    assert all[p..][0] == all[p];
    ReadOlderStep(db, mem, limit, ceiling, now, all[p..]);
  }

  lemma PageServes(db: Option<seq<Message>>, mem: seq<Message>, limit: nat, ceiling: nat, now: nat, p: nat)
    requires Readable(db, mem, now) && limit > 0
    requires var all := All(db, mem);
      && p < |all| && |all| - p < ceiling && |mem| <= |all|
      && (p >= |all| - |mem| ==> Serves(db.Some?, mem, limit, ceiling - (|all| - p), p - (|all| - |mem|)))
    ensures
      var all, page := All(db, mem), Get(mem, db, limit, CursorOf(All(db, mem)[p]), now);
      var q := Max(Max(0, p - limit), |all| - ceiling);
      && Newest(page.msgs + all[p..], ceiling) == all[q..]
      && (!page.more ==> q == 0 || |all| - q == ceiling) && (p == 0 ==> !page.more)
  {
    hide Kept, Get, Found, Newest, Max;
    var all := All(db, mem);
    if p < |all| - |mem| || SafeAt(db.Some?, mem, p - (|all| - |mem|)) {
      hide SafeAt, Serves;
      SafePageServes(db, mem, limit, ceiling, now, p);
    } else {
      LongSearchServes(mem, limit, ceiling, now, p);
    }
  }

  lemma SafePageServes(db: Option<seq<Message>>, mem: seq<Message>, limit: nat, ceiling: nat, now: nat, p: nat)
    requires Readable(db, mem, now) && limit > 0
    requires var all := All(db, mem);
      && p < |all| && |all| - p < ceiling && |mem| <= |all|
      && (p >= |all| - |mem| ==> SafeAt(db.Some?, mem, p - (|all| - |mem|)))
    ensures
      var all, page := All(db, mem), Get(mem, db, limit, CursorOf(All(db, mem)[p]), now);
      var q := Max(Max(0, p - limit), |all| - ceiling);
      && Newest(page.msgs + all[p..], ceiling) == all[q..]
      && (!page.more ==> q == 0 || |all| - q == ceiling) && (p == 0 ==> !page.more)
  {
    hide Kept, Get, Position, IsCursor, SafeAt;
    var all := All(db, mem);
    PositionOfShown(all, mem, p);
    PageIsExact(db, mem, limit, CursorOf(all[p]), now);
    assert Get(mem, db, limit, CursorOf(all[p]), now).msgs + all[p..] == all[Max(0, p - limit)..];
  }

  /** Without a database a search that ends further on can still leave enough in the page. */
  lemma LongSearchServes(mem: seq<Message>, limit: nat, ceiling: nat, now: nat, p: nat)
    requires Kept(mem, mem) && limit > 0 && p < |mem| && |mem| - p < ceiling
    requires var e := Found(mem, p); e > p && (e <= limit || p - (e - limit) >= ceiling - (|mem| - p))
    ensures
      var page := Get(mem, None, limit, CursorOf(mem[p]), now);
      var q := Max(Max(0, p - limit), |mem| - ceiling);
      && Newest(page.msgs + mem[p..], ceiling) == mem[q..]
      && (!page.more ==> q == 0 || |mem| - q == ceiling) && (p == 0 ==> !page.more)
  {
    hide Kept, Get, Found;
    PageOfMemory(mem, limit, p, now);
    var s := Max(0, Found(mem, p) - limit);
    assert Get(mem, None, limit, CursorOf(mem[p]), now).msgs + mem[p..] == mem[if s < p then s else p..];
  }

  /** Nothing is ever added but what lies before the oldest message shown. */
  lemma {:induction false} ReadingGoesBack(db: Option<seq<Message>>, mem: seq<Message>, limit: nat, ceiling: nat,
                                           now: nat,
                                           shown: seq<Message>, atOldest: bool, x: nat)
    requires Readable(db, mem, now) && limit > 0 && (shown != [] ==> shown[0] in All(db, mem))
    requires x < |All(db, mem)| && shown != [] && Position(All(db, mem), CursorOf(shown[0])) <= x
      && All(db, mem)[x] !in shown
    ensures All(db, mem)[x] !in ReadOlder(db, mem, limit, ceiling, now, shown, atOldest)
    decreases Position(All(db, mem), CursorOf(shown[0])), !atOldest
  {
    hide Kept, Get, Before, Position;
    if !atOldest && |shown| < ceiling {
      PageIsBehind(db, mem, limit, shown[0], now);
      var page := Get(mem, db, limit, CursorOf(shown[0]), now);
      PositionOfShown(All(db, mem), mem, x);
      ReadingGoesBack(db, mem, limit, ceiling, now, Newest(page.msgs + shown, ceiling), !page.more, x);
    }
  }

  /** Where the search ends short, no page has the message right before the cursor, and none is empty. */
  lemma ShortPageSkips(db: Option<seq<Message>>, mem: seq<Message>, limit: nat, i: nat, now: nat)
    requires Readable(db, mem, now) && i < |mem| && 0 < Found(mem, i) < i && limit > 0
    ensures
      var page := Get(mem, db, limit, CursorOf(mem[i]), now);
      page.msgs != [] && forall m | m in page.msgs :: m in All(db, mem) && Before(m, CursorOf(mem[i - 1]))
  {
    hide Kept, Get, OlderThan, OlderOnDisk, MemoryPage, Found;
    var c := CursorOf(mem[i]);
    var found := OlderThan(MemoryPage(mem, limit, c.seqNo), c);
    ShortPart(db, mem, limit, i);
    PageHolds(db, mem, limit, c, now);
    IsRecorded(All(db, mem), mem);
    if |found| < limit {
      assert found[0] in found;
      DiskPageIsOlder(db, CursorOf(found[0]), limit - |found|, now);
    }
  }

  lemma ShortPart(db: Option<seq<Message>>, mem: seq<Message>, limit: nat, i: nat)
    requires Kept(All(db, mem), mem) && i < |mem| && 0 < Found(mem, i) < i && limit > 0
    ensures
      var found := OlderThan(MemoryPage(mem, limit, mem[i].seqNo), CursorOf(mem[i]));
      found != [] && mem[i].ts > 0 && forall m | m in found :: m in mem && Before(m, CursorOf(mem[i - 1]))
  {
    hide Kept, Found, OlderThan, Before;
    var e := Found(mem, i);
    var s := Max(0, e - limit);
    InMemory(All(db, mem), mem, i);
    assert MemoryPage(mem, limit, mem[i].seqNo) == mem[s..e] by { PageOfSearch(mem, limit, i); }
    hide MemoryPage;
    forall k | 0 <= k < e - s
      ensures mem[s..e][k] in mem && Before(mem[s..e][k], CursorOf(mem[i]))
        && Before(mem[s..e][k], CursorOf(mem[i - 1]))
    {
      EarlierInMemory(All(db, mem), mem, s + k, i);
      EarlierInMemory(All(db, mem), mem, s + k, i - 1);
    }
    OlderThanAll(mem[s..e], CursorOf(mem[i]), e - s);
    assert mem[s..e][..e - s] == mem[s..e];
  }

  lemma PageOfSearch(mem: seq<Message>, limit: nat, i: nat)
    requires i < |mem| && mem[i].seqNo > 0
    ensures MemoryPage(mem, limit, mem[i].seqNo) == mem[Max(0, Found(mem, i) - limit)..Found(mem, i)]
  {
    hide Search;
  }

  /**
   * The first message of a page that skips lies before the one skipped, which is not in the page
   * nor after the cursor.
   */
  lemma SkippedIsBehind(db: Option<seq<Message>>, mem: seq<Message>, p: nat, msgs: seq<Message>)
    requires Kept(All(db, mem), mem) && 0 < p < |All(db, mem)|
    requires forall m | m in msgs :: m in All(db, mem) && Before(m, CursorOf(All(db, mem)[p - 1]))
    ensures
      var all := All(db, mem);
      && Position(all, CursorOf(all[p - 1])) == p - 1 && all[p - 1] !in msgs && all[p - 1] !in all[p..]
      && forall m | m in msgs :: Position(all, CursorOf(m)) < p - 1
  {
    hide Kept, Before, Position;
    var all := All(db, mem);
    PositionOfShown(all, mem, p - 1);
    forall m | m in msgs ensures Position(all, CursorOf(m)) < p - 1 {
      var y :| 0 <= y < |all| && all[y] == m;
      BeforeIsEarlier(all, mem, y, p - 1);
      PositionOfShown(all, mem, y);
    }
    forall m | m in all[p..] ensures m != all[p - 1] {
      var y :| p <= y < |all| && all[y] == m;
      PositionOfShown(all, mem, y);
    }
  }

  lemma SkippedIsNeverShown(db: Option<seq<Message>>, mem: seq<Message>, limit: nat, ceiling: nat, now: nat, p: nat)
    requires Readable(db, mem, now) && limit > 0 && 0 < p < |All(db, mem)| && |All(db, mem)| - p < ceiling
    requires
      var page := Get(mem, db, limit, CursorOf(All(db, mem)[p]), now);
      page.msgs != [] && forall m | m in page.msgs :: m in All(db, mem) && Before(m, CursorOf(All(db, mem)[p - 1]))
    ensures All(db, mem)[p - 1] !in ReadOlder(db, mem, limit, ceiling, now, All(db, mem)[p..], false)
  {
    hide Kept, Get, Before, Position, ReadOlder, Newest;
    var all := All(db, mem);
    var shown := all[p..];
    assert shown[0] == all[p];
    var page := Get(mem, db, limit, CursorOf(all[p]), now);
    SkippedIsBehind(db, mem, p, page.msgs);
    EndOfTwo(page.msgs, shown, ceiling);
    ReadOlderStep(db, mem, limit, ceiling, now, shown);
    ReadingGoesBack(db, mem, limit, ceiling, now, Newest(page.msgs + shown, ceiling), !page.more, p - 1);
  }

  /** Reading on from a cursor whose search ends short, the message right before it is never shown. */
  lemma ShortSearchLoses(db: Option<seq<Message>>, mem: seq<Message>, limit: nat, ceiling: nat, now: nat, i: nat)
    requires Readable(db, mem, now) && i < |mem| && 0 < Found(mem, i) < i && limit > 0
    requires |mem| <= |All(db, mem)| && |mem| - i < ceiling
    ensures
      var all := All(db, mem);
      mem[i - 1] !in ReadOlder(db, mem, limit, ceiling, now, all[|all| - |mem| + i..], false)
  {
    hide Kept, Get, Before, Found, ReadOlder;
    var all := All(db, mem);
    InMemory(all, mem, i);
    InMemory(all, mem, i - 1);
    var p := |all| - |mem| + i;
    ShortPageSkips(db, mem, limit, i, now);
    SkippedIsNeverShown(db, mem, limit, ceiling, now, p);
  }

  lemma EndOfTwo(a: seq<Message>, b: seq<Message>, n: nat)
    requires a != [] && |b| < n
    ensures Newest(a + b, n) != [] && Newest(a + b, n)[0] in a && forall m | m in Newest(a + b, n) :: m in a || m in b
  {
  }

  /** Where a page does not serve, what has been read in the end is not all it should be. */
  lemma UnservedLoses(db: Option<seq<Message>>, mem: seq<Message>, limit: nat, ceiling: nat, now: nat, i: nat)
    requires Readable(db, mem, now) && i < |mem| && limit > 0 && |mem| <= |All(db, mem)| && |mem| - i < ceiling
    requires !Serves(db.Some?, mem, limit, ceiling - (|mem| - i), i)
    ensures
      var all := All(db, mem);
      ReadOlder(db, mem, limit, ceiling, now, all[|all| - |mem| + i..], false) != Newest(all, ceiling)
  {
    hide Kept, Get, Before, Position, Search, ReadOlder, Newest;
    var all := All(db, mem);
    InMemory(all, mem, i);
    var p, e := |all| - |mem| + i, Found(mem, i);
    if 0 < e < i {
      ShortSearchLoses(db, mem, limit, ceiling, now, i);
      InMemory(all, mem, i - 1);
      NewestHolds(all, ceiling, p - 1);
    } else {
      AloneEndsEarly(mem, limit, ceiling, now, i);
    }
  }

  /** Without a database a search that ends elsewhere gives a page that is not full and leaves something out. */
  lemma AlonePageFallsShort(mem: seq<Message>, limit: nat, ceiling: nat, now: nat, i: nat)
    requires Kept(mem, mem) && 0 < i < |mem| && limit > 0 && |mem| - i < ceiling
    requires
      var e := Found(mem, i);
      e == 0 || (e > i && e > limit && i - (e - limit) < ceiling - (|mem| - i))
    ensures
      var page := Get(mem, None, limit, CursorOf(mem[i]), now);
      !page.more && |page.msgs| < i && |page.msgs| + |mem| - i < ceiling
  {
    hide Kept, Get, Found;
    PageOfMemory(mem, limit, i, now);
  }

  /** There the reading ends. */
  lemma AloneEndsEarly(mem: seq<Message>, limit: nat, ceiling: nat, now: nat, i: nat)
    requires Readable(None, mem, now) && 0 < i < |mem| && limit > 0 && |mem| - i < ceiling
    requires
      var e := Found(mem, i);
      e == 0 || (e > i && e > limit && i - (e - limit) < ceiling - (|mem| - i))
    ensures ReadOlder(None, mem, limit, ceiling, now, mem[i..], false) != Newest(mem, ceiling)
  {
    hide Kept, Get, Found, ReadOlder;
    AlonePageFallsShort(mem, limit, ceiling, now, i);
    var page := Get(mem, None, limit, CursorOf(mem[i]), now);
    var all := page.msgs + mem[i..];
    assert |Newest(mem, ceiling)| > |all|;
    hide Newest;
    assert mem[i..][0] == mem[i];
    ReadOlderStep(None, mem, limit, ceiling, now, mem[i..]);
    NewestOfFew(all, ceiling);
    ReadToTheEnd(None, mem, limit, ceiling, now, all);
  }

  lemma NewestOfFew(s: seq<Message>, n: nat)
    requires |s| <= n
    ensures Newest(s, n) == s
  {
  }

  lemma NewestHolds(s: seq<Message>, n: nat, x: nat)
    requires x < |s| <= x + n
    ensures s[x] in Newest(s, n)
  {
    assert Newest(s, n)[x - Max(0, |s| - n)] == s[x];
  }

  lemma NewestIs(s: seq<Message>, n: nat, p: nat)
    requires p <= |s| && (|s| - p == n || (p == 0 && |s| <= n))
    ensures Newest(s, n) == s[p..]
  {
  }

  lemma ReadToTheEnd(db: Option<seq<Message>>, mem: seq<Message>, limit: nat, ceiling: nat, now: nat,
                     shown: seq<Message>)
    requires Readable(db, mem, now) && limit > 0 && (shown != [] ==> shown[0] in All(db, mem))
    ensures ReadOlder(db, mem, limit, ceiling, now, shown, true) == shown
  {
  }

  /** Going back so many at a time from the p-th message, the q-th is where a page begins. */
  ghost predicate Visited(q: nat, p: int, limit: nat)
    requires limit > 0
    decreases p - q
  {
    q == p || (q < p && Visited(q, p - limit, limit))
  }

  /** Every page the reading asks for from the p-th message on serves. */
  ghost predicate AllServe(db: Option<seq<Message>>, mem: seq<Message>, limit: nat, ceiling: nat, p: int)
    requires limit > 0
  {
    var all := All(db, mem);
    forall q: nat | Visited(q, p, limit) && |all| - |mem| <= q < |all| && |all| - q < ceiling ::
      Serves(db.Some?, mem, limit, ceiling - (|all| - q), q - (|all| - |mem|))
  }

  lemma AllServeFrom(db: Option<seq<Message>>, mem: seq<Message>, limit: nat, ceiling: nat, p: nat)
    requires limit > 0 && |mem| <= |All(db, mem)| && p < |All(db, mem)| && |All(db, mem)| - p < ceiling
    requires p >= |All(db, mem)| - |mem| ==>
      Serves(db.Some?, mem, limit, ceiling - (|All(db, mem)| - p), p - (|All(db, mem)| - |mem|))
    ensures
      var q := Max(Max(0, p - limit), |All(db, mem)| - ceiling);
      AllServe(db, mem, limit, ceiling, p) <==> AllServe(db, mem, limit, ceiling, q)
  {
    hide Serves;
    var all := All(db, mem);
    var q := Max(Max(0, p - limit), |all| - ceiling);
    if q == p - limit {
      assert forall x: nat :: Visited(x, p, limit) <==> x == p || Visited(x, q, limit);
    } else {
      NoneLeft(db, mem, limit, ceiling, q);
      forall x: nat | Visited(x, p, limit) && |all| - x < ceiling ensures x == p {
        if x != p {
          VisitedIsBefore(x, p - limit, limit);
        }
      }
    }
  }

  lemma {:induction false} VisitedIsBefore(q: nat, p: int, limit: nat)
    requires limit > 0 && Visited(q, p, limit)
    ensures q <= p
    decreases p - q
  {
  }

  lemma NoneLeft(db: Option<seq<Message>>, mem: seq<Message>, limit: nat, ceiling: nat, q: nat)
    requires limit > 0 && |mem| <= |All(db, mem)| && (q == 0 || |All(db, mem)| - q >= ceiling)
    ensures AllServe(db, mem, limit, ceiling, q)
  {
    hide Search;
    var all := All(db, mem);
    forall x: nat | Visited(x, q, limit) && |all| - |mem| <= x < |all| && |all| - x < ceiling
      ensures Serves(db.Some?, mem, limit, ceiling - (|all| - x), x - (|all| - |mem|))
    {
      VisitedIsBefore(x, q, limit);
    }
  }

  /** From a part that is right, reading on ends right if and only if every page it asks for serves. */
  lemma {:induction false} ReadingOnIff(db: Option<seq<Message>>, mem: seq<Message>, limit: nat, ceiling: nat, now: nat,
                                        p: nat, atOldest: bool)
    requires Readable(db, mem, now) && limit > 0 && p < |All(db, mem)| && |All(db, mem)| - p <= ceiling
    requires atOldest ==> p == 0 || |All(db, mem)| - p == ceiling
    ensures
      ReadOlder(db, mem, limit, ceiling, now, All(db, mem)[p..], atOldest) == Newest(All(db, mem), ceiling) <==>
      AllServe(db, mem, limit, ceiling, p)
    decreases p, !atOldest
  {
    hide Readable, Kept, Serves, AllServe, Newest, ReadOlder;
    var all := All(db, mem);
    MemoryIsPart(db, mem, now);
    var d := |all| - |mem|;
    if atOldest || |all| - p == ceiling {
      ReadingStops(db, mem, limit, ceiling, now, p, atOldest);
      NoneLeft(db, mem, limit, ceiling, p);
    } else if p >= d && !Serves(db.Some?, mem, limit, ceiling - (|all| - p), p - d) {
      UnservedLoses(db, mem, limit, ceiling, now, p - d);
      NotAllServe(db, mem, limit, ceiling, p);
    } else {
      var more := PageOn(db, mem, limit, ceiling, now, p);
      AllServeFrom(db, mem, limit, ceiling, p);
      ReadingOnIff(db, mem, limit, ceiling, now, Max(Max(0, p - limit), |all| - ceiling), !more);
    }
  }

  lemma MemoryIsPart(db: Option<seq<Message>>, mem: seq<Message>, now: nat)
    requires Readable(db, mem, now)
    ensures |mem| <= |All(db, mem)|
  {
  }

  lemma ReadingStops(db: Option<seq<Message>>, mem: seq<Message>, limit: nat, ceiling: nat, now: nat, p: nat,
                     atOldest: bool)
    requires Readable(db, mem, now) && limit > 0 && p < |All(db, mem)|
    requires |All(db, mem)| - p == ceiling || (atOldest && p == 0 && |All(db, mem)| <= ceiling)
    ensures ReadOlder(db, mem, limit, ceiling, now, All(db, mem)[p..], atOldest) == Newest(All(db, mem), ceiling)
  {
    NewestIs(All(db, mem), ceiling, p);
    hide Newest, Kept;
  }

  lemma NotAllServe(db: Option<seq<Message>>, mem: seq<Message>, limit: nat, ceiling: nat, p: nat)
    requires limit > 0 && |mem| <= |All(db, mem)| && |All(db, mem)| - |mem| <= p < |All(db, mem)|
      && |All(db, mem)| - p < ceiling
    requires !Serves(db.Some?, mem, limit, ceiling - (|All(db, mem)| - p), p - (|All(db, mem)| - |mem|))
    ensures !AllServe(db, mem, limit, ceiling, p)
  {
    hide Serves;
    assert Visited(p, p, limit);
  }

  /**
   * For given page sizes: scrolling back shows everything the view can hold
   * if and only if every page it asks for from a message in memory serves.
   */
  lemma ReadingIsCompleteIff(db: Option<seq<Message>>, mem: seq<Message>, first: nat, limit: nat, ceiling: nat,
                             now: nat)
    requires Readable(db, mem, now) && 0 < first <= ceiling && limit > 0
    ensures
      Reading(db, mem, first, limit, ceiling, now) == Newest(All(db, mem), ceiling) <==>
      AllServe(db, mem, limit, ceiling, Max(0, |All(db, mem)| - first))
  {
    hide Kept, Get, AllServe;
    FirstPage(db, mem, first, now);
    var all := All(db, mem);
    MemoryIsTheEnd(all, mem);
    if all == [] {
      NoneLeft(db, mem, limit, ceiling, 0);
    } else {
      ReadingOnIff(db, mem, limit, ceiling, now, Max(0, |all| - first), false);
    }
  }

  /** With a safe memory the reading has shown the newest messages the view can hold, each once and in order. */
  lemma SafeReadingIsComplete(db: Option<seq<Message>>, mem: seq<Message>, first: nat, limit: nat, ceiling: nat,
                              now: nat)
    requires Readable(db, mem, now) && SearchIsSafe(db.Some?, mem) && 0 < first <= ceiling && limit > 0
    ensures Reading(db, mem, first, limit, ceiling, now) == Newest(All(db, mem), ceiling)
  {
    hide Kept, Get, SafeAt, Reading;
    MemoryIsTheEnd(All(db, mem), mem);
    ReadingIsCompleteIff(db, mem, first, limit, ceiling, now);
  }

  lemma {:induction false} OneByOneVisitsAll(q: nat, p: nat)
    requires q <= p
    ensures Visited(q, p, 1)
    decreases p
  {
    if q < p {
      OneByOneVisitsAll(q, p - 1);
    }
  }

  /** With an unsafe memory, reading one message at a time does not end with everything. */
  lemma UnsafeReadingLoses(db: Option<seq<Message>>, mem: seq<Message>, now: nat)
    requires Readable(db, mem, now) && !SearchIsSafe(db.Some?, mem)
    ensures Reading(db, mem, 1, 1, |All(db, mem)| + 1, now) != Newest(All(db, mem), |All(db, mem)| + 1)
  {
    hide Kept, Get, Reading, Search;
    var all := All(db, mem);
    var ceiling := |all| + 1;
    MemoryIsTheEnd(all, mem);
    var i :| 0 <= i < |mem| && !SafeAt(db.Some?, mem, i);
    var q := |all| - |mem| + i;
    OneByOneVisitsAll(q, |all| - 1);
    assert !Serves(db.Some?, mem, 1, ceiling - (|all| - q), i);
    ReadingIsCompleteIff(db, mem, 1, 1, ceiling, now);
  }

  /**
   * For everything there is to read and every memory of its newest messages:
   * scrolling back shows everything the view can hold, whatever the sizes of
   * the pages, if and only if the search through memory is safe.
   */
  lemma ReadsEverythingIffSafe(db: Option<seq<Message>>, mem: seq<Message>, now: nat)
    requires Readable(db, mem, now)
    ensures
      SearchIsSafe(db.Some?, mem) <==>
      forall first: nat, limit: nat, ceiling: nat | 0 < first <= ceiling && limit > 0 ::
        Reading(db, mem, first, limit, ceiling, now) == Newest(All(db, mem), ceiling)
  {
    hide Readable, SearchIsSafe;
    if SearchIsSafe(db.Some?, mem) {
      forall first: nat, limit: nat, ceiling: nat | 0 < first <= ceiling && limit > 0
        ensures Reading(db, mem, first, limit, ceiling, now) == Newest(All(db, mem), ceiling)
      {
        SafeReadingIsComplete(db, mem, first, limit, ceiling, now);
      }
    } else {
      UnsafeReadingLoses(db, mem, now);
    }
  }

  const TWO_RUNS := [Message(1, 1, ""), Message(2, 2, ""), Message(3, 3, ""), Message(4, 1, ""), Message(5, 2, "")]

  lemma TwoRunsAreSearchedShort()
    ensures Readable(Some(TWO_RUNS), TWO_RUNS, 5) && Found(TWO_RUNS, 4) == 1
  {
    hide Search;
    assert TWO_RUNS[0..] == TWO_RUNS;
    SearchGoesLeft(TWO_RUNS, 2, 2);
    SearchOfOne(TWO_RUNS, 2);
    SearchGoesLeft(TWO_RUNS, 2, 5);
  }

  lemma SearchOfOne(mem: seq<Message>, before: nat)
    requires mem != [] && mem[0].seqNo < before
    ensures Search(mem, before, 0, 1) == 1
  {
  }

  lemma SearchGoesLeft(mem: seq<Message>, before: nat, j: nat)
    requires 0 < j <= |mem| && mem[j / 2].seqNo >= before
    ensures Search(mem, before, 0, j) == Search(mem, before, 0, j / 2)
  {
  }

  /** Two runs in memory: of five messages the reading shows the last and the first. */
  lemma TwoRunsInMemorySkip()
    ensures
      && Readable(Some(TWO_RUNS), TWO_RUNS, 5)
      && Reading(Some(TWO_RUNS), TWO_RUNS, 1, 1, 10, 5) == [TWO_RUNS[0], TWO_RUNS[4]]
  {
    hide Get, Before, Kept, Search, Position;
    var mem := TWO_RUNS;
    var db := Some(mem);
    TwoRunsAreSearchedShort();
    FirstPage(db, mem, 1, 5);
    assert Newest(mem, 1) == [mem[4]];
    UnsafePageSkips(db, mem, 4, 5);
    PageIsBehind(db, mem, 1, mem[4], 5);
    var all := [mem[0], mem[4]];
    assert Newest([mem[0]] + [mem[4]], 10) == all;
    PageIsBehind(db, mem, 1, mem[0], 5);
    PositionOfShown(mem, mem, 0);
    var page := Get(mem, db, 1, CursorOf(mem[0]), 5);
    assert page.msgs == [];
    assert [] + all == all && Newest(all, 10) == all;
    assert ReadOlder(db, mem, 1, 10, 5, all, false) == all;
    assert ReadOlder(db, mem, 1, 10, 5, [mem[4]], false) == ReadOlder(db, mem, 1, 10, 5, all, false);
  }

  // The sizes the browser reads with.

  const FIRST_PAGE := 1000
  const OLDER_PAGE := 500
  const MAX_LOADED := 10_000

  /** Two runs, of 800 and of 1200 messages. */
  function TwoLongRuns(): (mem: seq<Message>)
    ensures |mem| == 2000 && forall i | 0 <= i < 2000 ::
      mem[i] == Message(i + 1, if i < 800 then i + 1 else i - 799, "")
  {
    seq(2000, i requires 0 <= i < 2000 => Message(i + 1, if i < 800 then i + 1 else i - 799, ""))
  }

  /** Message 1000, where the second page begins, is number 201 of its run: the search ends in the run before. */
  lemma LongRunsAreSearchedShort()
    ensures 0 < Found(TwoLongRuns(), 1000) < 1000
  {
    hide TwoLongRuns, Search;
    var mem := TwoLongRuns();
    assert mem[1000].seqNo == 201 && mem[500].seqNo == 501 && mem[0].seqNo == 1;
    SearchGoesLeft(mem, 201, 2000);
    SearchGoesLeft(mem, 201, 1000);
    SearchEndsAtStep(mem, 201, 0, 500);
  }

  /** At the browser's own sizes such a reading ends without the message before the second page. */
  lemma BrowserLosesBetweenRuns()
    ensures
      var mem := TwoLongRuns();
      && Readable(Some(mem), mem, 2000)
      && mem[999] !in Reading(Some(mem), mem, FIRST_PAGE, OLDER_PAGE, MAX_LOADED, 2000)
  {
    hide TwoLongRuns, Get, Search, ReadOlder;
    var mem := TwoLongRuns();
    assert mem[0..] == mem;
    LongRunsAreSearchedShort();
    FirstPage(Some(mem), mem, FIRST_PAGE, 2000);
    ShortSearchLoses(Some(mem), mem, OLDER_PAGE, MAX_LOADED, 2000, 1000);
  }

  // ----- the program -----

  method SearchMemory(mem: seq<Message>, before: nat) returns (end: nat)
    ensures end == Search(mem, before, 0, |mem|)
  {
    var i, j := 0, |mem|;
    while i < j
      invariant 0 <= i <= j <= |mem|
      invariant Search(mem, before, 0, |mem|) == Search(mem, before, i, j)
    {
      var h := (i + j) / 2;
      if !(mem[h].seqNo >= before) {
        i := h + 1;
      } else {
        j := h;
      }
    }
    return i;
  }

  method Subject(mem: seq<Message>, limit: nat, before: nat) returns (out: seq<Message>)
    ensures out == MemoryPage(mem, limit, before)
  {
    var end := |mem|;
    if before > 0 {
      end := SearchMemory(mem, before);
    }
    var start := Max(0, end - limit);
    out := [];
    for i := start to end
      invariant out == mem[start..i]
    {
      out := out + [mem[i]];
    }
  }

  method CutAtCursor(msgs: seq<Message>, c: Cursor) returns (out: seq<Message>)
    ensures out == OlderThan(msgs, c)
  {
    if c.ts == 0 {
      return msgs;
    }
    out := [];
    for i := 0 to |msgs|
      invariant out + OlderThan(msgs[i..], c) == OlderThan(msgs, c)
    {
      assert msgs[i..][1..] == msgs[i + 1..];
      if Before(msgs[i], c) {
        out := out + [msgs[i]];
      }
    }
  }

  method Reversed(msgs: seq<Message>) returns (out: array<Message>)
    ensures fresh(out) && out[..] == Reverse(msgs)
  {
    out := new Message[|msgs|](_ => Message(0, 0, ""));
    for i := 0 to |msgs|
      invariant forall k | 0 <= k < i :: out[|msgs| - 1 - k] == msgs[k]
    {
      out[|msgs| - 1 - i] := msgs[i];
    }
  }

  method GetPage(mem: seq<Message>, db: Option<seq<Message>>, limit: nat, c: Cursor, now: nat) returns (page: Page)
    ensures page == Get(mem, db, limit, c, now)
  {
    var found := Subject(mem, limit, c.seqNo);
    var msgs := CutAtCursor(found, c);
    var more := |msgs| == limit;
    if !more {
      var edge := c;
      if |msgs| > 0 {
        edge := CursorOf(msgs[0]);
      }
      var older := OlderOnDisk(db, edge, limit - |msgs|, now);
      more := older.more;
      var front := Reversed(older.msgs);
      msgs := front[..] + msgs;
    }
    page := Page(msgs, more);
  }

  /**
   * The view's way back: a first page, then page after page from the oldest
   * message shown until there is no more or the view is full. It ends for
   * every memory; with a safe one it has then shown the newest messages, each
   * exactly once and in order, across the edge of memory and across runs.
   */
  method ReadAll(mem: seq<Message>, db: Option<seq<Message>>, first: nat, limit: nat, ceiling: nat, now: nat)
    returns (shown: seq<Message>)
    requires Readable(db, mem, now) && 0 < first <= ceiling && limit > 0
    ensures shown == Reading(db, mem, first, limit, ceiling, now)
    ensures SearchIsSafe(db.Some?, mem) ==> shown == Newest(All(db, mem), ceiling)
  {
    hide Kept, Get, Before, Position, SearchIsSafe;
    FirstPage(db, mem, first, now);
    var page := GetPage(mem, db, first, START, now);
    shown := page.msgs;
    var atOldest := false;
    while !atOldest && |shown| > 0 && |shown| < ceiling
      invariant shown != [] ==> shown[0] in All(db, mem)
      invariant ReadOlder(db, mem, limit, ceiling, now, shown, atOldest) == Reading(db, mem, first, limit, ceiling, now)
      decreases if shown == [] then 0 else Position(All(db, mem), CursorOf(shown[0])), !atOldest
    {
      PageIsBehind(db, mem, limit, shown[0], now);
      page := GetPage(mem, db, limit, CursorOf(shown[0]), now);
      shown := page.msgs + shown;
      if |shown| > ceiling {
        shown := shown[|shown| - ceiling..];
      }
      atOldest := !page.more;
    }
    if SearchIsSafe(db.Some?, mem) {
      SafeReadingIsComplete(db, mem, first, limit, ceiling, now);
    }
  }
}
