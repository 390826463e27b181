/** The newest messages of a connection over all its subjects (history/dump.go), by merging one cursor per subject. */
module Dump {
  import opened Sequences
  import opened Sorting

  datatype Message = Message(ts: int, seqNo: nat, subject: string, payload: string)
  datatype Key = Key(ts: int, seqNo: nat)

  function KeyOf(m: Message): Key { Key(m.ts, m.seqNo) }

  predicate Above(a: Key, b: Key) { a.ts > b.ts || (a.ts == b.ts && a.seqNo > b.seqNo) }

  /** The order of the cursor heap: later first, and among equal times the higher sequence number. */
  predicate Newer(a: Message, b: Message) { Above(KeyOf(a), KeyOf(b)) }

  ghost predicate OldestFirst(s: seq<Message>) {
    forall i, j | 0 <= i < j < |s| :: !Newer(s[i], s[j])
  }

  ghost predicate NewestFirst(s: seq<Message>) {
    forall i, j | 0 <= i < j < |s| :: !Newer(s[j], s[i])
  }

  function Flat(buffers: seq<seq<Message>>): seq<Message> {
    if buffers == [] then [] else buffers[0] + Flat(buffers[1..])
  }

  /** Walks one buffer from its newest message to its oldest. */
  datatype Cursor = Cursor(buf: seq<Message>, i: nat) {
    function Cur(): Message
      requires i < |buf|
    {
      buf[i]
    }
  }

  ghost predicate Ready(h: seq<Cursor>) {
    forall k | 0 <= k < |h| :: h[k].i < |h[k].buf| && OldestFirst(h[k].buf)
  }

  /** What the cursors have not passed yet. */
  function Left(h: seq<Cursor>): seq<Message>
    requires forall k | 0 <= k < |h| :: h[k].i < |h[k].buf|
  {
    if h == [] then [] else h[0].buf[..h[0].i + 1] + Left(h[1..])
  }

  /** out is the beginning of everything in newest-first order, rest is what comes after it. */
  ghost predicate Newest(out: seq<Message>, rest: seq<Message>, all: seq<Message>) {
    && multiset(out) + multiset(rest) == multiset(all)
    && NewestFirst(out)
    && forall m, o | m in rest && o in out :: !Newer(m, o)
  }

  method Dump(buffers: seq<seq<Message>>, limit: int) returns (out: seq<Message>, ghost rest: seq<Message>)
    requires forall k | 0 <= k < |buffers| :: OldestFirst(buffers[k])
    ensures Newest(out, rest, Flat(buffers))
    ensures forall i, j | 0 <= i < j < |out| ::
      out[i].ts > out[j].ts || (out[i].ts == out[j].ts && out[i].seqNo >= out[j].seqNo)
    ensures forall m, o | m in rest && o in out :: o.ts > m.ts || (o.ts == m.ts && o.seqNo >= m.seqNo)
    ensures |out| == if limit <= 0 then 0 else if limit < |Flat(buffers)| then limit else |Flat(buffers)|
  {
    hide Left, OldestFirst, NewestFirst, Flat;
    out, rest := [], Flat(buffers);
    if limit <= 0 {
      NothingTaken(buffers);
      return;
    }
    var h := Cursors(buffers);
    while |h| > 0 && |out| < limit
      invariant Ready(h) && Newest(out, Left(h), Flat(buffers)) && |out| <= limit
      decreases limit - |out|
    {
      var k := Front(h);
      var c := h[k];
      StepSplits(h, k);
      Append(out, Left(h), Left(Moved(h, k)), c.Cur(), Flat(buffers));
      out := out + [c.Cur()];
      h := Moved(h, k);
    }
    rest := Left(h);
    NoneLeft(h);
    SameSize(out + rest, Flat(buffers));
    NewestByTime(out, rest, Flat(buffers));
  }

  /** By time, and at one time by number. */
  lemma NewestByTime(out: seq<Message>, rest: seq<Message>, all: seq<Message>)
    requires Newest(out, rest, all)
    ensures forall i, j | 0 <= i < j < |out| ::
      out[i].ts > out[j].ts || (out[i].ts == out[j].ts && out[i].seqNo >= out[j].seqNo)
    ensures forall m, o | m in rest && o in out :: o.ts > m.ts || (o.ts == m.ts && o.seqNo >= m.seqNo)
  {
    assert forall i, j | 0 <= i < j < |out| :: !Newer(out[j], out[i]);
    assert forall m, o | m in rest && o in out :: !Newer(m, o);
  }

  /** A cursor at the newest message of every buffer that has one. */
  method Cursors(buffers: seq<seq<Message>>) returns (h: seq<Cursor>)
    requires forall k | 0 <= k < |buffers| :: OldestFirst(buffers[k])
    ensures Ready(h) && Newest([], Left(h), Flat(buffers))
  {
    hide Left, Flat, OldestFirst, NewestFirst;
    h := [];
    NothingYet();
    assert buffers[..0] == [];
    for i := 0 to |buffers|
      invariant Ready(h) && multiset(Left(h)) == multiset(Flat(buffers[..i]))
    {
      var b := buffers[i];
      FlatGrows(buffers[..i], b);
      assert buffers[..i + 1] == buffers[..i] + [b];
      if |b| > 0 {
        var c := Cursor(b, |b| - 1);
        LeftGrows(h, c);
        h := h + [c];
      }
    }
    assert buffers[..|buffers|] == buffers;
    NothingTaken(buffers);
  }

  /** The root of the heap: a cursor none is before. Which of several equal ones it is stays open. */
  method Front(h: seq<Cursor>) returns (k: nat)
    requires h != [] && Ready(h)
    ensures k < |h| && IsFront(h, k)
  {
    SomeIsFront(h);
    k :| k < |h| && IsFront(h, k);
  }

  predicate IsFront(h: seq<Cursor>, k: nat)
    requires k < |h| && forall k | 0 <= k < |h| :: h[k].i < |h[k].buf|
  {
    forall j | 0 <= j < |h| :: !Newer(h[j].Cur(), h[k].Cur())
  }

  lemma {:induction false} SomeIsFront(h: seq<Cursor>)
    requires h != [] && forall k | 0 <= k < |h| :: h[k].i < |h[k].buf|
    ensures exists k: nat | k < |h| :: IsFront(h, k)
  {
    var n := |h| - 1;
    if n == 0 {
      assert IsFront(h, 0);
    } else {
      var front := h[..n];
      SomeIsFront(front);
      var k: nat :| k < n && IsFront(front, k);
      var best := if Newer(h[n].Cur(), h[k].Cur()) then n else k;
      assert IsFront(h, best) by {
        assert forall j | 0 <= j < n :: !Newer(front[j].Cur(), front[k].Cur());
      }
    }
  }

  /** The cursors after the one at k moved: one message back, or gone when it was at its last. */
  function Moved(h: seq<Cursor>, k: nat): seq<Cursor>
    requires k < |h|
  {
    if h[k].i > 0 then h[k := h[k].(i := h[k].i - 1)] else h[..k] + h[k + 1..]
  }

  lemma {:induction false} LeftOfTwo(a: seq<Cursor>, b: seq<Cursor>)
    requires forall k | 0 <= k < |a| :: a[k].i < |a[k].buf|
    requires forall k | 0 <= k < |b| :: b[k].i < |b[k].buf|
    ensures Left(a + b) == Left(a) + Left(b)
  {
    if a == [] {
      assert a + b == b;
    } else {
      LeftOfTwo(a[1..], b);
      assert (a + b)[1..] == a[1..] + b;
    }
  }

  lemma LeftOfOne(c: Cursor)
    requires c.i < |c.buf|
    ensures Left([c]) == c.buf[..c.i + 1]
  {
  }

  lemma LeftGrows(h: seq<Cursor>, c: Cursor)
    requires Ready(h) && c.i == |c.buf| - 1
    ensures multiset(Left(h + [c])) == multiset(Left(h)) + multiset(c.buf)
  {
    LeftOfTwo(h, [c]);
    LeftOfOne(c);
    assert c.buf[..c.i + 1] == c.buf;
  }

  lemma {:induction false} FlatGrows(buffers: seq<seq<Message>>, b: seq<Message>)
    ensures Flat(buffers + [b]) == Flat(buffers) + b
  {
    if buffers == [] {
      assert Flat([b]) == b + Flat([]) == b;
    } else {
      FlatGrows(buffers[1..], b);
      assert (buffers + [b])[1..] == buffers[1..] + [b];
    }
  }

  /** Left of the cursors, split at one of them. */
  lemma {:induction false} LeftSplits(h: seq<Cursor>, k: nat)
    requires k < |h| && forall j | 0 <= j < |h| :: h[j].i < |h[j].buf|
    ensures Left(h) == Left(h[..k]) + h[k].buf[..h[k].i + 1] + Left(h[k + 1..])
  {
    assert h == h[..k] + ([h[k]] + h[k + 1..]);
    LeftOfTwo(h[..k], [h[k]] + h[k + 1..]);
    LeftOfTwo([h[k]], h[k + 1..]);
    LeftOfOne(h[k]);
  }

  lemma {:induction false} StepSplits(h: seq<Cursor>, k: nat)
    requires Ready(h) && k < |h| && IsFront(h, k)
    ensures Ready(Moved(h, k))
    ensures multiset(Left(h)) == multiset(Left(Moved(h, k))) + multiset{h[k].Cur()}
    ensures forall m | m in Left(h) :: !Newer(m, h[k].Cur())
  {
    hide OldestFirst, Left, Newer;
    var c, moved := h[k], Moved(h, k);
    LeftSplits(h, k);
    assert c.buf[..c.i + 1] == c.buf[..c.i] + [c.Cur()];
    if c.i > 0 {
      LeftSplits(moved, k);
      assert moved[..k] == h[..k] && moved[k + 1..] == h[k + 1..];
    } else {
      LeftOfTwo(h[..k], h[k + 1..]);
    }
    forall m | m in Left(h) ensures !Newer(m, c.Cur()) {
      LeftIsBelowFront(h, m, c.Cur());
    }
  }

  lemma {:induction false} LeftIsBelowFront(h: seq<Cursor>, m: Message, front: Message)
    requires Ready(h) && m in Left(h) && forall j | 0 <= j < |h| :: !Newer(h[j].Cur(), front)
    ensures !Newer(m, front)
  {
    if m in h[0].buf[..h[0].i + 1] {
      assert !Newer(m, h[0].Cur());
    } else {
      assert forall j | 0 <= j < |h[1..]| :: h[1..][j] == h[j + 1];
      LeftIsBelowFront(h[1..], m, front);
    }
  }

  lemma Append(out: seq<Message>, left: seq<Message>, left': seq<Message>, m: Message, all: seq<Message>)
    requires Newest(out, left, all) && multiset(left) == multiset(left') + multiset{m}
    requires forall x | x in left :: !Newer(x, m)
    ensures Newest(out + [m], left', all)
  {
    hide Newer;
    assert m in multiset(left);
    forall x | x in left' ensures x in left {
      assert x in multiset(left');
      assert x in multiset(left);
    }
  }

  lemma NothingYet()
    ensures Left([]) == [] == Flat([])
  {
  }

  lemma NothingTaken(buffers: seq<seq<Message>>)
    ensures Newest([], Flat(buffers), Flat(buffers))
  {
  }

  lemma NoneLeft(h: seq<Cursor>)
    requires forall k | 0 <= k < |h| :: h[k].i < |h[k].buf|
    ensures Left(h) == [] <==> h == []
  {
  }

  lemma SameSize(a: seq<Message>, b: seq<Message>)
    requires multiset(a) == multiset(b)
    ensures |a| == |b|
  {
    assert |multiset(a)| == |a| && |multiset(b)| == |b|;
  }

  // The result against a sort of everything.

  function Keys(s: seq<Message>): (r: seq<Key>)
    ensures |r| == |s|
  {
    seq(|s|, i requires 0 <= i < |s| => KeyOf(s[i]))
  }

  lemma Tail<T>(s: seq<T>, x: T, t: seq<T>, u: seq<T>)
    requires s == t + [x] + u
    ensures multiset(s) == multiset{x} + multiset(t + u)
  {
  }

  lemma FirstAndRest<T>(s: seq<T>)
    requires s != []
    ensures multiset(s) == multiset{s[0]} + multiset(s[1..])
  {
    assert s == [s[0]] + s[1..];
  }

  lemma Cancel<T>(x: T, a: multiset<T>, rest: multiset<T>, b: multiset<T>)
    requires multiset{x} + a + rest == multiset{x} + b
    ensures a + rest == b
  {
    assert a + rest == multiset{x} + a + rest - multiset{x};
    assert b == multiset{x} + b - multiset{x};
  }

  lemma {:induction false} SameKeys(a: seq<Message>, b: seq<Message>)
    requires multiset(a) == multiset(b)
    ensures multiset(Keys(a)) == multiset(Keys(b))
  {
    hide Keys;
    SameSize(a, b);
    if a == [] {
      assert b == [];
    } else {
      assert a[0] in multiset(b);
      var j :| 0 <= j < |b| && b[j] == a[0];
      var first, last := b[..j], b[j + 1..];
      assert b == first + [a[0]] + last;
      FirstAndRest(a);
      Tail(b, a[0], first, last);
      Cancel(a[0], multiset(a[1..]), multiset{}, multiset(first + last));
      SameKeys(a[1..], first + last);
      KeysFirst(a);
      KeysWithout(first, a[0], last);
    }
  }

  lemma KeysFirst(s: seq<Message>)
    requires s != []
    ensures multiset(Keys(s)) == multiset{KeyOf(s[0])} + multiset(Keys(s[1..]))
  {
    assert Keys(s) == [KeyOf(s[0])] + Keys(s[1..]);
  }

  lemma KeysWithout(first: seq<Message>, m: Message, last: seq<Message>)
    ensures multiset(Keys(first + [m] + last)) == multiset{KeyOf(m)} + multiset(Keys(first + last))
  {
    KeysOfTwo(first, last);
    KeysOfTwo(first, [m]);
    KeysOfTwo(first + [m], last);
    assert Keys([m]) == [KeyOf(m)];
    Tail(Keys(first + [m] + last), KeyOf(m), Keys(first), Keys(last));
  }

  lemma KeysOfTwo(a: seq<Message>, b: seq<Message>)
    ensures Keys(a + b) == Keys(a) + Keys(b)
  {
  }

  ghost predicate Falling(s: seq<Key>) {
    forall i, j | 0 <= i < j < |s| :: !Above(s[j], s[i])
  }

  /** The n highest of some keys, in falling order, are the first n of all of them in falling order. */
  lemma {:induction false} HighestIsPrefix(a: seq<Key>, rest: seq<Key>, b: seq<Key>)
    requires Falling(a) && Falling(b) && multiset(a) + multiset(rest) == multiset(b)
    requires forall x, y | x in rest && y in a :: !Above(x, y)
    ensures a <= b
  {
    if a != [] {
      FirstsAgree(a, rest, b);
      RestBalances(a, rest, b);
      HighestIsPrefix(a[1..], rest, b[1..]);
    }
  }

  lemma FirstsAgree(a: seq<Key>, rest: seq<Key>, b: seq<Key>)
    requires a != [] && Falling(a) && Falling(b) && multiset(a) + multiset(rest) == multiset(b)
    requires forall x, y | x in rest && y in a :: !Above(x, y)
    ensures b != [] && a[0] == b[0]
  {
    hide Above;
    assert a[0] in multiset(a) && a[0] in multiset(b) && a[0] in b;
    assert b[0] in multiset(b) && (b[0] in multiset(a) || b[0] in multiset(rest));
    FirstIsHighest(a, b[0], rest);
    FirstIsHighest(b, a[0], []);
    NeitherIsAbove(a[0], b[0]);
  }

  lemma RestBalances(a: seq<Key>, rest: seq<Key>, b: seq<Key>)
    requires a != [] && b != [] && a[0] == b[0] && multiset(a) + multiset(rest) == multiset(b)
    ensures multiset(a[1..]) + multiset(rest) == multiset(b[1..])
  {
    FirstAndRest(a);
    FirstAndRest(b);
    Cancel(a[0], multiset(a[1..]), multiset(rest), multiset(b[1..]));
  }

  lemma NeitherIsAbove(x: Key, y: Key)
    ensures !Above(x, y) && !Above(y, x) ==> x == y
  {
  }

  lemma FirstIsHighest(a: seq<Key>, x: Key, rest: seq<Key>)
    requires a != [] && Falling(a) && (x in a || x in rest)
    requires forall x, y | x in rest && y in a :: !Above(x, y)
    ensures !Above(x, a[0])
  {
  }

  /** Merging the cursors is sorting everything, newest first, and taking the beginning. */
  lemma DumpIsSortAndTake(out: seq<Message>, rest: seq<Message>, all: seq<Message>, sorted: seq<Message>)
    requires Newest(out, rest, all) && NewestFirst(sorted) && multiset(sorted) == multiset(all)
    ensures |out| <= |sorted| && Keys(out) == Keys(sorted)[..|out|]
  {
    assert multiset(out + rest) == multiset(sorted);
    SameKeys(out + rest, sorted);
    KeysOfTwo(out, rest);
    forall x, y | x in Keys(rest) && y in Keys(out) ensures !Above(x, y) {
      var i, j :| 0 <= i < |rest| && 0 <= j < |out| && Keys(rest)[i] == x && Keys(out)[j] == y;
      assert !Newer(rest[i], out[j]);
    }
    HighestIsPrefix(Keys(out), Keys(rest), Keys(sorted));
  }

  // Oldest first, for a bundle: the library's stable sort.

  predicate Older(a: Message, b: Message) { Newer(b, a) }

  function Oldest(s: seq<Message>): (r: seq<Message>)
    ensures |r| == |s| && multiset(r) == multiset(s)
  {
    SortIn(s, Older)
  }

  /** Nothing is lost or doubled, no message stands before an older one, and messages of one key keep their order. */
  lemma OldestIsStableSort(s: seq<Message>, m: Message)
    ensures OldestFirst(Oldest(s)) && multiset(Oldest(s)) == multiset(s)
    ensures forall i, j | 0 <= i < j < |s| :: var a, b := Oldest(s)[i], Oldest(s)[j];
      a.ts < b.ts || (a.ts == b.ts && a.seqNo <= b.seqNo)
    ensures EqualTo(Oldest(s), m, Older) == EqualTo(s, m, Older)
  {
    assert IsOrder(Older);
    SortInSorts(s, Older);
    SortIsStable(s, m, Older);
    assert forall a, b :: Older(a, b) <==> Newer(b, a);
  }

  lemma {:induction false} ReverseKeeps(s: seq<Message>)
    ensures multiset(Reverse(s)) == multiset(s)
  {
    if s != [] {
      ReverseKeeps(s[1..]);
      FirstAndRest(s);
    }
  }

  lemma ReverseTurns(s: seq<Message>)
    requires OldestFirst(s)
    ensures NewestFirst(Reverse(s))
  {
    hide Reverse, Newer;
  }

  /** The dump against the library's sort of everything the buffers hold. */
  lemma DumpIsNewestOfSort(out: seq<Message>, rest: seq<Message>, all: seq<Message>)
    requires Newest(out, rest, all)
    ensures |out| <= |all| && Keys(out) == Keys(Reverse(Oldest(all)))[..|out|]
  {
    OldestIsStableSort(all, Message(0, 0, "", ""));
    ReverseKeeps(Oldest(all));
    ReverseTurns(Oldest(all));
    SameSize(all, Oldest(all));
    DumpIsSortAndTake(out, rest, all, Reverse(Oldest(all)));
  }

  lemma KeysTurn(s: seq<Message>, t: seq<Message>)
    requires Keys(Reverse(s)) == Keys(t)
    ensures Keys(s) == Keys(Reverse(t))
  {
    hide Reverse;
    assert |s| == |Keys(Reverse(s))| == |t|;
    forall i | 0 <= i < |s| ensures Keys(s)[i] == Keys(Reverse(t))[i] {
      assert Keys(Reverse(s))[|s| - 1 - i] == Keys(t)[|s| - 1 - i];
    }
  }

  /**
   * What a bundle stores: sorting a dump oldest first turns it around, as far
   * as times and sequence numbers tell, so reading it replays the arrival.
   */
  lemma BundleIsDumpReversed(out: seq<Message>)
    requires NewestFirst(out)
    ensures Keys(Oldest(out)) == Keys(Reverse(out))
  {
    hide Newer, Older, Oldest, Reverse;
    OldestIsStableSort(out, Message(0, 0, "", ""));
    ReverseKeeps(Oldest(out));
    ReverseTurns(Oldest(out));
    assert Newest(out, [], out);
    DumpIsSortAndTake(out, [], out, Reverse(Oldest(out)));
    KeysTurn(Oldest(out), out);
  }
}
