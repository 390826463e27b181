/** The libraries' sorts (sort.Slice, sort.SliceStable, Array.sort): a stable sort by a comparison. */
module Sorting {

  /** A comparison that never says both ways, and whose "not before" carries on. */
  ghost predicate IsOrder<T(!new)>(before: (T, T) -> bool) {
    && (forall a, b :: before(a, b) ==> !before(b, a))
    && (forall a, b, c :: !before(b, a) && !before(c, b) ==> !before(c, a))
  }

  ghost predicate InOrder<T>(s: seq<T>, before: (T, T) -> bool) {
    forall i, j | 0 <= i < j < |s| :: !before(s[j], s[i])
  }

  /** x before the first element that does not come before it, so equal elements keep their order. */
  function Insert<T>(x: T, s: seq<T>, before: (T, T) -> bool): (r: seq<T>)
    ensures |r| == |s| + 1 && multiset(r) == multiset(s) + multiset{x}
  {
    if s == [] || !before(s[0], x) then [x] + s
    else
      assert s == [s[0]] + s[1..];
      [s[0]] + Insert(x, s[1..], before)
  }

  function SortIn<T>(s: seq<T>, before: (T, T) -> bool): (r: seq<T>)
    ensures |r| == |s| && multiset(r) == multiset(s)
  {
    if s == [] then []
    else
      assert s == [s[0]] + s[1..];
      Insert(s[0], SortIn(s[1..], before), before)
  }

  lemma {:induction false} SortInSorts<T(!new)>(s: seq<T>, before: (T, T) -> bool)
    requires IsOrder(before)
    ensures InOrder(SortIn(s, before), before)
  {
    if s != [] {
      SortInSorts(s[1..], before);
      InsertSorts(s[0], SortIn(s[1..], before), before);
    }
  }

  lemma {:induction false} InsertSorts<T(!new)>(x: T, s: seq<T>, before: (T, T) -> bool)
    requires IsOrder(before) && InOrder(s, before)
    ensures InOrder(Insert(x, s, before), before)
  {
    if !(s == [] || !before(s[0], x)) {
      InsertSorts(x, s[1..], before);
      var r := Insert(x, s[1..], before);
      forall i | 0 <= i < |r| ensures !before(r[i], s[0]) {
        assert r[i] in multiset(r);
        assert r[i] == x || r[i] in s[1..];
      }
    }
  }

  /** The elements neither before nor after x. */
  function EqualTo<T>(s: seq<T>, x: T, before: (T, T) -> bool): seq<T> {
    if s == [] then []
    else (if !before(s[0], x) && !before(x, s[0]) then [s[0]] else []) + EqualTo(s[1..], x, before)
  }

  /** The sort is stable: equal elements stay in the order they came in. */
  lemma {:induction false} SortIsStable<T(!new)>(s: seq<T>, x: T, before: (T, T) -> bool)
    requires IsOrder(before)
    ensures EqualTo(SortIn(s, before), x, before) == EqualTo(s, x, before)
  {
    if s != [] {
      SortIsStable(s[1..], x, before);
      InsertKeepsOrder(s[0], SortIn(s[1..], before), x, before);
    }
  }

  lemma {:induction false} InsertKeepsOrder<T(!new)>(y: T, s: seq<T>, x: T, before: (T, T) -> bool)
    requires IsOrder(before)
    ensures EqualTo(Insert(y, s, before), x, before) == EqualTo([y] + s, x, before)
  {
    hide IsOrder, EqualTo;
    if s != [] && before(s[0], y) {
      var first, more := s[0], s[1..];
      assert s == [first] + more;
      InsertKeepsOrder(y, more, x, before);
      NotBothEqual(first, y, x, before);
      EqualToOneMore(first, Insert(y, more, before), x, before);
      EqualToOneMore(y, more, x, before);
      EqualToOneMore(first, more, x, before);
      EqualToOneMore(y, s, x, before);
    }
  }

  lemma EqualToOneMore<T>(y: T, s: seq<T>, x: T, before: (T, T) -> bool)
    ensures
      EqualTo([y] + s, x, before) ==
      (if !before(y, x) && !before(x, y) then [y] else []) + EqualTo(s, x, before)
  {
    assert ([y] + s)[1..] == s;
  }

  lemma NotBothEqual<T(!new)>(a: T, b: T, x: T, before: (T, T) -> bool)
    requires IsOrder(before) && before(a, b)
    ensures before(a, x) || before(x, b)
  {
  }

  // ----- by a number taken from each element -----

  ghost predicate SortedBy<T>(s: seq<T>, key: T -> int) {
    forall i, j | 0 <= i < j < |s| :: key(s[i]) <= key(s[j])
  }

  function Below<T>(key: T -> int): (T, T) -> bool {
    (a: T, b: T) => key(a) < key(b)
  }

  function SortBy<T(!new)>(s: seq<T>, key: T -> int): (r: seq<T>)
    ensures |r| == |s|
    ensures SortedBy(r, key)
    ensures multiset(r) == multiset(s)
  {
    SortInSorts(s, Below(key));
    SortIn(s, Below(key))
  }

  function Sort(s: seq<int>): (r: seq<int>)
    ensures |r| == |s| && multiset(r) == multiset(s)
    ensures forall i, j | 0 <= i < j < |r| :: r[i] <= r[j]
  {
    var r := SortBy(s, Identity);
    assert forall i, j | 0 <= i < j < |r| :: Identity(r[i]) <= Identity(r[j]);
    r
  }

  function Identity(x: int): int { x }

  // ----- what a place in the order means -----

  function AtMost(s: seq<int>, g: int): nat {
    if s == [] then 0 else (if s[0] <= g then 1 else 0) + AtMost(s[1..], g)
  }

  function AtLeast(s: seq<int>, g: int): nat {
    if s == [] then 0 else (if s[0] >= g then 1 else 0) + AtLeast(s[1..], g)
  }

  lemma {:induction false} CountsOfLast(s: seq<int>, x: int, g: int)
    ensures AtMost(s + [x], g) == AtMost(s, g) + if x <= g then 1 else 0
    ensures AtLeast(s + [x], g) == AtLeast(s, g) + if x >= g then 1 else 0
  {
    if s == [] {
      assert s + [x] == [x] && [x][1..] == [];
    } else {
      assert (s + [x])[1..] == s[1..] + [x];
      CountsOfLast(s[1..], x, g);
    }
  }

  lemma {:induction false} AtMostIsShort(s: seq<int>, g: int)
    ensures AtMost(s, g) <= |s|
  {
    if s != [] {
      AtMostIsShort(s[1..], g);
    }
  }

  /** The places of the numbers up to g, and from g on. */
  ghost function UpTo(s: seq<int>, g: int): set<nat> { set i: nat | i < |s| && s[i] <= g }

  ghost function From(s: seq<int>, g: int): set<nat> { set i: nat | i < |s| && s[i] >= g }

  lemma UpToStep(s: seq<int>, g: int)
    requires s != []
    ensures |UpTo(s, g)| == |UpTo(s[..|s| - 1], g)| + if s[|s| - 1] <= g then 1 else 0
  {
    var n := |s| - 1;
    assert UpTo(s, g) == UpTo(s[..n], g) + if s[n] <= g then {n} else {};
  }

  lemma FromStep(s: seq<int>, g: int)
    requires s != []
    ensures |From(s, g)| == |From(s[..|s| - 1], g)| + if s[|s| - 1] >= g then 1 else 0
  {
    var n := |s| - 1;
    assert From(s, g) == From(s[..n], g) + if s[n] >= g then {n} else {};
  }

  lemma {:induction false} AtMostCounts(s: seq<int>, g: int)
    ensures AtMost(s, g) == |UpTo(s, g)|
  {
    if s == [] {
      assert UpTo(s, g) == {};
    } else {
      hide UpTo, AtMost;
      var n := |s| - 1;
      assert s == s[..n] + [s[n]];
      CountsOfLast(s[..n], s[n], g);
      AtMostCounts(s[..n], g);
      UpToStep(s, g);
    }
  }

  lemma {:induction false} AtLeastCounts(s: seq<int>, g: int)
    ensures AtLeast(s, g) == |From(s, g)|
  {
    if s == [] {
      assert From(s, g) == {};
    } else {
      hide From, AtLeast;
      var n := |s| - 1;
      assert s == s[..n] + [s[n]];
      CountsOfLast(s[..n], s[n], g);
      AtLeastCounts(s[..n], g);
      FromStep(s, g);
    }
  }

  lemma {:induction false} InsertCounts(x: int, s: seq<int>, before: (int, int) -> bool, g: int)
    ensures AtMost(Insert(x, s, before), g) == AtMost([x] + s, g)
    ensures AtLeast(Insert(x, s, before), g) == AtLeast([x] + s, g)
  {
    assert ([x] + s)[1..] == s;
    if !(s == [] || !before(s[0], x)) {
      InsertCounts(x, s[1..], before, g);
      assert ([x] + s[1..])[1..] == s[1..];
      assert Insert(x, s, before)[1..] == Insert(x, s[1..], before);
    }
  }

  lemma {:induction false} SortCounts(s: seq<int>, before: (int, int) -> bool, g: int)
    ensures AtMost(SortIn(s, before), g) == AtMost(s, g) && AtLeast(SortIn(s, before), g) == AtLeast(s, g)
  {
    if s != [] {
      SortCounts(s[1..], before, g);
      InsertCounts(s[0], SortIn(s[1..], before), before, g);
      assert ([s[0]] + SortIn(s[1..], before))[1..] == SortIn(s[1..], before);
    }
  }

  lemma {:induction false} SortedCounts(s: seq<int>, k: nat)
    requires k < |s| && forall i, j | 0 <= i < j < |s| :: s[i] <= s[j]
    ensures AtMost(s, s[k]) > k && AtLeast(s, s[k]) >= |s| - k
  {
    if k > 0 {
      SortedCounts(s[1..], k - 1);
    } else {
      AllAtLeast(s, s[0]);
    }
  }

  lemma {:induction false} AllAtLeast(s: seq<int>, g: int)
    requires forall i | 0 <= i < |s| :: s[i] >= g
    ensures AtLeast(s, g) == |s|
  {
    if s != [] {
      AllAtLeast(s[1..], g);
    }
  }

  /** The k-th of the sorted numbers: more than k of them are no larger, all but k no smaller. */
  lemma KthOfSorted(s: seq<int>, k: nat)
    requires k < |s|
    ensures var g := Sort(s)[k]; g in s && AtMost(s, g) > k && AtLeast(s, g) >= |s| - k
  {
    var r := Sort(s);
    SortedCounts(r, k);
    SortCounts(s, Below(Identity), r[k]);
    assert r[k] in multiset(r);
  }

  /** Sorting forgets the order: it depends on the contents only. */
  lemma SortOfSame(a: seq<int>, b: seq<int>)
    requires multiset(a) == multiset(b)
    ensures Sort(a) == Sort(b)
  {
    SortedIsUnique(Sort(a), Sort(b));
  }

  lemma {:induction false} SortedIsUnique(a: seq<int>, b: seq<int>)
    requires multiset(a) == multiset(b)
    requires forall i, j | 0 <= i < j < |a| :: a[i] <= a[j]
    requires forall i, j | 0 <= i < j < |b| :: b[i] <= b[j]
    ensures a == b
  {
    assert |multiset(a)| == |a| && |multiset(b)| == |b|;
    if a != [] {
      assert a[0] in multiset(b) && b[0] in multiset(a);
      assert a[0] == b[0];
      WithoutFirst(a);
      WithoutFirst(b);
      SortedIsUnique(a[1..], b[1..]);
    }
  }

  lemma WithoutFirst(s: seq<int>)
    requires s != []
    ensures multiset(s[1..]) == multiset(s) - multiset{s[0]}
  {
    assert s == [s[0]] + s[1..];
  }
}
