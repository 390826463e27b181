/** Pairing the first and the second message of a step by a shared value (stepLatency.ts). */
module StepLatency {
  import opened Wrappers
  import Sorting

  /** A message as the pairing sees it: the value it carries at the field, if any, and its time. */
  datatype Message = Message(value: Option<string>, ts: int)
  datatype StepPair = StepPair(value: string, from: int, to: int, deltaMs: int)
  datatype Latency = Latency(pairs: seq<StepPair>, unfinished: int, orphans: int, min: int, p50: int, p95: int,
    p99: int, max: int)

  function Time(m: Message): int { m.ts }

  // ----- matchings -----

  /** Second messages of E, by index, each with a first message of its own: same value, not later. */
  ghost predicate IsMatching(E: seq<Message>, from: seq<Message>, M: map<nat, nat>) {
    && (forall j | j in M ::
          j < |E| && M[j] < |from| && E[j].value.Some? && from[M[j]].value == E[j].value && from[M[j]].ts <= E[j].ts)
    && (forall j, k | j in M && k in M && M[j] == M[k] :: j == k)
  }

  ghost predicate IsStart(from: seq<Message>, v: string, t: int) {
    exists i :: 0 <= i < |from| && from[i] == Message(Some(v), t)
  }

  ghost predicate Usable(m: Message) { m.value.Some? && m.value.value != "" }

  /** The second message j has the start at time t. */
  ghost predicate Has(E: seq<Message>, chosen: map<nat, int>, v: string, t: int, j: nat) {
    j in chosen && j < |E| && E[j].value == Some(v) && chosen[j] == t
  }

  /**
   * The greedy pairing of the first n second messages: each has the newest
   * start before it that was not spoken for, the pairs of one value are nested
   * or disjoint, and nothing was left over for the orphans.
   */
  ghost predicate Greedy(E: seq<Message>, from: seq<Message>, chosen: map<nat, int>, n: nat) {
    && n <= |E|
    && (forall j | j in chosen ::
          j < n && Usable(E[j]) && IsStart(from, E[j].value.value, chosen[j]) && chosen[j] <= E[j].ts)
    && (forall j, k | j in chosen && k in chosen && j < k && E[j].value == E[k].value ::
          chosen[k] < chosen[j] || chosen[k] > E[j].ts)
    && (forall j, t | j in chosen && IsStart(from, E[j].value.value, t) && chosen[j] < t <= E[j].ts ::
          exists k: nat :: k < j && Has(E, chosen, E[j].value.value, t, k))
    && (forall j, t | 0 <= j < n && j !in chosen && Usable(E[j]) && IsStart(from, E[j].value.value, t)
          && t <= E[j].ts ::
          exists k: nat :: k < j && Has(E, chosen, E[j].value.value, t, k))
  }

  ghost predicate InOrder(E: seq<Message>) { forall j, k | 0 <= j < k < |E| :: E[j].ts <= E[k].ts }

  /** A start that an orphan could still have had: a second one at the same time, or one of the empty value. */
  ghost predicate PassedOver(E: seq<Message>, from: seq<Message>, chosen: map<nat, int>, j: nat, i: nat, i': nat) {
    && j < |E| && j !in chosen && i < |from| && i' < |from|
    && E[j].value.Some? && from[i].value == from[i'].value == E[j].value
    && from[i].ts == from[i'].ts <= E[j].ts
    && (i != i' || E[j].value == Some(""))
  }

  ghost predicate Wasteful(E: seq<Message>, from: seq<Message>, chosen: map<nat, int>) {
    exists j: nat, i: nat, i': nat :: PassedOver(E, from, chosen, j, i, i')
  }

  ghost predicate IsMaximum(E: seq<Message>, from: seq<Message>, chosen: map<nat, int>) {
    forall M | IsMatching(E, from, M) :: |M| <= |chosen|
  }

  ghost predicate OrphanFrom(E: seq<Message>, chosen: map<nat, int>, j: nat, o: nat) {
    j <= o < |E| && o !in chosen && E[o].value == E[j].value
  }

  /** The greedy pair that holds its start, when an orphan of the value follows that pair. */
  ghost predicate ByStart(E: seq<Message>, from: seq<Message>, chosen: map<nat, int>, M: map<nat, nat>, j: nat, k: nat,
                          o: nat) {
    j in M && M[j] < |from| && j < |E| && OrphanFrom(E, chosen, j, o) && k < o && k in chosen
      && chosen[k] == from[M[j]].ts
  }

  /** Its own greedy pair, when no orphan of the value follows. */
  ghost predicate ByEnd(E: seq<Message>, chosen: map<nat, int>, j: nat, k: nat) {
    j < |E| && k == j && forall o: nat :: !OrphanFrom(E, chosen, j, o)
  }

  /** Sends a pair of any matching to a greedy pair of the same value. */
  ghost predicate SentTo(E: seq<Message>, from: seq<Message>, chosen: map<nat, int>, M: map<nat, nat>, j: nat, k: nat) {
    && k in chosen && k < |E| && j < |E| && E[k].value == E[j].value
    && ((exists o: nat :: ByStart(E, from, chosen, M, j, k, o)) || ByEnd(E, chosen, j, k))
  }

  lemma Counterpart(E: seq<Message>, from: seq<Message>, chosen: map<nat, int>, M: map<nat, nat>, j: nat)
    returns (k: nat)
    requires InOrder(E) && Greedy(E, from, chosen, |E|) && !Wasteful(E, from, chosen)
    requires IsMatching(E, from, M) && j in M
    ensures SentTo(E, from, chosen, M, j, k)
  {
    var i := M[j];
    if o: nat :| OrphanFrom(E, chosen, j, o) {
      assert E[j].ts <= E[o].ts;
      assert E[o].value != Some("") by {
        assert !PassedOver(E, from, chosen, o, i, i);
      }
      assert IsStart(from, E[o].value.value, from[i].ts);
      k :| 0 <= k < o && Has(E, chosen, E[o].value.value, from[i].ts, k);
      assert ByStart(E, from, chosen, M, j, k, o);
    } else {
      k := j;
      assert !OrphanFrom(E, chosen, j, j);
      assert ByEnd(E, chosen, j, k);
    }
  }

  lemma CounterpartsDiffer(E: seq<Message>, from: seq<Message>, chosen: map<nat, int>, M: map<nat, nat>, j: nat,
                           j': nat, k: nat)
    requires InOrder(E) && !Wasteful(E, from, chosen) && IsMatching(E, from, M) && j in M && j' in M
    requires SentTo(E, from, chosen, M, j, k) && SentTo(E, from, chosen, M, j', k)
    ensures j == j'
  {
    hide InOrder, Wasteful, IsMatching;
    if o: nat :| ByStart(E, from, chosen, M, j, k, o) {
      NotItsOwn(E, from, chosen, M, j, j', k, o);
      SameStart(E, from, chosen, M, j, j', k, o);
    } else if o: nat :| ByStart(E, from, chosen, M, j', k, o) {
      NotItsOwn(E, from, chosen, M, j', j, k, o);
    }
  }

  /** A pair sent to by its start is followed by an orphan, so no pair of the value is sent to it as its own. */
  lemma NotItsOwn(E: seq<Message>, from: seq<Message>, chosen: map<nat, int>, M: map<nat, nat>, j: nat, j': nat, k: nat,
                  o: nat)
    requires ByStart(E, from, chosen, M, j, k, o) && j' < |E| && E[j'].value == E[j].value
    ensures !ByEnd(E, chosen, j', k)
  {
    if k == j' {
      assert OrphanFrom(E, chosen, j', o);
    }
  }

  lemma SameStart(E: seq<Message>, from: seq<Message>, chosen: map<nat, int>, M: map<nat, nat>, j: nat, j': nat, k: nat,
                  o: nat)
    requires InOrder(E) && !Wasteful(E, from, chosen) && IsMatching(E, from, M) && j in M && j' in M
    requires ByStart(E, from, chosen, M, j, k, o) && E[j].value == E[j'].value && from[M[j']].ts == chosen[k]
    ensures j == j'
  {
    assert E[j].ts <= E[o].ts;
    assert !PassedOver(E, from, chosen, o, M[j], M[j']);
  }

  lemma {:induction false} InjectionIsSmaller(A: set<nat>, B: set<nat>, f: map<nat, nat>)
    requires f.Keys == A && (forall x | x in A :: f[x] in B)
    requires forall x, y | x in A && y in A && f[x] == f[y] :: x == y
    ensures |A| <= |B|
  {
    if x :| x in A {
      var rest := map y | y in A - {x} :: f[y];
      InjectionIsSmaller(A - {x}, B - {f[x]}, rest);
    } else {
      assert A == {};
    }
  }

  /** Where nothing is passed over, no matching pairs more messages than the greedy one. */
  lemma GreedyIsMaximum(E: seq<Message>, from: seq<Message>, chosen: map<nat, int>)
    requires InOrder(E) && Greedy(E, from, chosen, |E|) && !Wasteful(E, from, chosen)
    ensures IsMaximum(E, from, chosen)
  {
    hide InOrder, Greedy, Wasteful, IsMatching;
    forall M | IsMatching(E, from, M) ensures |M| <= |chosen| {
      MatchingIsNoLarger(E, from, chosen, M);
    }
  }

  lemma MatchingIsNoLarger(E: seq<Message>, from: seq<Message>, chosen: map<nat, int>, M: map<nat, nat>)
    requires InOrder(E) && Greedy(E, from, chosen, |E|) && !Wasteful(E, from, chosen) && IsMatching(E, from, M)
    ensures |M| <= |chosen|
  {
    hide InOrder, Greedy, Wasteful, IsMatching, SentTo;
    var f: map<nat, nat> := map[];
    var todo := M.Keys;
    while todo != {}
      invariant todo <= M.Keys && f.Keys == M.Keys - todo
      invariant forall j | j in f :: SentTo(E, from, chosen, M, j, f[j])
      decreases todo
    {
      var j :| j in todo;
      var k := Counterpart(E, from, chosen, M, j);
      f := f[j := k];
      todo := todo - {j};
    }
    forall j, j' | j in f && j' in f && f[j] == f[j'] ensures j == j' {
      CounterpartsDiffer(E, from, chosen, M, j, j', f[j]);
    }
    forall j | j in f ensures f[j] in chosen {
      SentToIsChosen(E, from, chosen, M, j, f[j]);
    }
    InjectionIsSmaller(M.Keys, chosen.Keys, f);
  }

  lemma SentToIsChosen(E: seq<Message>, from: seq<Message>, chosen: map<nat, int>, M: map<nat, nat>, j: nat, k: nat)
    requires SentTo(E, from, chosen, M, j, k)
    ensures k in chosen
  {
  }

  /** The greedy pairing as a matching by index. */
  lemma AsMatching(E: seq<Message>, from: seq<Message>, chosen: map<nat, int>) returns (M: map<nat, nat>)
    requires Greedy(E, from, chosen, |E|)
    ensures M.Keys == chosen.Keys
    ensures forall k | k in M :: M[k] < |from| && k < |E| && from[M[k]] == Message(E[k].value, chosen[k])
  {
    M := map[];
    var todo := chosen.Keys;
    while todo != {}
      invariant todo <= chosen.Keys && M.Keys == chosen.Keys - todo
      invariant forall k | k in M :: M[k] < |from| && k < |E| && from[M[k]] == Message(E[k].value, chosen[k])
      decreases todo
    {
      var k :| k in todo;
      assert IsStart(from, E[k].value.value, chosen[k]);
      var s :| 0 <= s < |from| && from[s] == Message(Some(E[k].value.value), chosen[k]);
      M := M[k := s];
      todo := todo - {k};
    }
  }

  lemma GreedyPairsDiffer(E: seq<Message>, from: seq<Message>, chosen: map<nat, int>, j: nat, k: nat)
    requires Greedy(E, from, chosen, |E|) && j in chosen && k in chosen && E[j].value == E[k].value
      && chosen[j] == chosen[k]
    ensures j == k
  {
  }

  /** Where one is passed over, a larger matching exists. */
  lemma WastefulIsNotMaximum(E: seq<Message>, from: seq<Message>, chosen: map<nat, int>)
    requires Greedy(E, from, chosen, |E|) && Wasteful(E, from, chosen)
    ensures !IsMaximum(E, from, chosen)
  {
    hide Greedy;
    var j: nat, i: nat, i': nat :| PassedOver(E, from, chosen, j, i, i');
    var M := AsMatching(E, from, chosen);
    var unused := if exists k :: k in M && M[k] == i then i' else i;
    forall k | k in M ensures M[k] != unused {
      ChosenIsUsable(E, from, chosen, k);
      if k0 :| k0 in M && M[k0] == i {
        if M[k] == i' {
          GreedyPairsDiffer(E, from, chosen, k, k0);
          assert false;
        }
      }
    }
    var more := M[j := unused];
    assert more.Keys == chosen.Keys + {j};
    OneMorePair(E, from, chosen, M, j, unused);
  }

  lemma ChosenIsUsable(E: seq<Message>, from: seq<Message>, chosen: map<nat, int>, k: nat)
    requires Greedy(E, from, chosen, |E|) && k in chosen
    ensures k < |E| && Usable(E[k]) && E[k].value.Some? && chosen[k] <= E[k].ts
  {
  }

  lemma OneMorePair(E: seq<Message>, from: seq<Message>, chosen: map<nat, int>, M: map<nat, nat>, j: nat, unused: nat)
    requires Greedy(E, from, chosen, |E|) && M.Keys == chosen.Keys && j < |E| && j !in M && unused < |from|
    requires forall k | k in M ::
      M[k] < |from| && k < |E| && from[M[k]] == Message(E[k].value, chosen[k]) && M[k] != unused
    requires E[j].value.Some? && from[unused].value == E[j].value && from[unused].ts <= E[j].ts
    ensures !IsMaximum(E, from, chosen)
  {
    hide Greedy, IsMatching, Usable;
    forall k | k in M ensures E[k].value.Some? && from[M[k]].ts <= E[k].ts {
      ChosenIsUsable(E, from, chosen, k);
    }
    forall k, k' | k in M && k' in M && M[k] == M[k'] ensures k == k' {
      GreedyPairsDiffer(E, from, chosen, k, k');
    }
    MatchingOfMore(E, from, M, j, unused);
    LargerThan(E, from, chosen, M, M[j := unused], j);
  }

  lemma LargerThan(E: seq<Message>, from: seq<Message>, chosen: map<nat, int>, M: map<nat, nat>, more: map<nat, nat>,
                   j: nat)
    requires IsMatching(E, from, more) && M.Keys == chosen.Keys && j !in M && more.Keys == M.Keys + {j}
    ensures !IsMaximum(E, from, chosen)
  {
    hide IsMatching;
    assert |more.Keys| == |chosen.Keys| + 1;
    assert |more| == |chosen| + 1;
  }

  lemma MatchingOfMore(E: seq<Message>, from: seq<Message>, M: map<nat, nat>, j: nat, unused: nat)
    requires j < |E| && j !in M && unused < |from| && E[j].value.Some? && from[unused].value == E[j].value
      && from[unused].ts <= E[j].ts
    requires forall k | k in M ::
      M[k] < |from| && k < |E| && E[k].value.Some? && from[M[k]].value == E[k].value && from[M[k]].ts <= E[k].ts
    requires forall k | k in M :: M[k] != unused
    requires forall k, k' | k in M && k' in M && M[k] == M[k'] :: k == k'
    ensures IsMatching(E, from, M[j := unused])
  {
  }

  /** The greedy pairing is a largest one exactly when no orphan was passed over. */
  lemma MaximumIffNothingPassedOver(E: seq<Message>, from: seq<Message>, chosen: map<nat, int>)
    requires InOrder(E) && Greedy(E, from, chosen, |E|)
    ensures IsMaximum(E, from, chosen) <==> !Wasteful(E, from, chosen)
  {
    if Wasteful(E, from, chosen) {
      WastefulIsNotMaximum(E, from, chosen);
    } else {
      GreedyIsMaximum(E, from, chosen);
    }
  }

  /** What a caller can see beforehand: no two starts of one value at one time, no empty value. */
  ghost predicate DistinctStarts(from: seq<Message>) {
    forall i, j | 0 <= i < j < |from| && from[i].value.Some? && from[i].value == from[j].value ::
      from[i].ts != from[j].ts
  }

  ghost predicate NoEmptyValue(from: seq<Message>) { forall m | m in from :: m.value != Some("") }

  lemma DistinctStartsAreEnough(E: seq<Message>, from: seq<Message>, chosen: map<nat, int>)
    requires DistinctStarts(from) && NoEmptyValue(from)
    ensures !Wasteful(E, from, chosen)
  {
  }

  // ----- one step of the pairing -----

  lemma OrphanStep(E: seq<Message>, from: seq<Message>, chosen: map<nat, int>, n: nat)
    requires Greedy(E, from, chosen, n) && n < |E|
    requires Usable(E[n]) ==> forall t | IsStart(from, E[n].value.value, t) && t <= E[n].ts ::
      exists k: nat :: k < n && Has(E, chosen, E[n].value.value, t, k)
    ensures Greedy(E, from, chosen, n + 1)
  {
  }

  lemma HasStays(E: seq<Message>, chosen: map<nat, int>, more: map<nat, int>, n: nat, v: string, u: int, j: nat)
    requires n !in chosen && n in more && more == chosen[n := more[n]] && exists k: nat ::
      k < j && Has(E, chosen, v, u, k)
    ensures exists k: nat :: k < j && Has(E, more, v, u, k)
  {
    var k: nat :| k < j && Has(E, chosen, v, u, k);
    assert Has(E, more, v, u, k);
  }

  lemma PairStep(E: seq<Message>, from: seq<Message>, chosen: map<nat, int>, n: nat, t: int)
    requires InOrder(E) && Greedy(E, from, chosen, n) && n < |E| && Usable(E[n])
    requires IsStart(from, E[n].value.value, t) && t <= E[n].ts
    requires forall k: nat :: !Has(E, chosen, E[n].value.value, t, k)
    requires forall u | IsStart(from, E[n].value.value, u) && t < u <= E[n].ts :: exists k: nat ::
      k < n && Has(E, chosen, E[n].value.value, u, k)
    ensures Greedy(E, from, chosen[n := t], n + 1)
  {
    hide InOrder, IsStart, Has;
    var more := chosen[n := t];
    forall j, u | j in more && IsStart(from, E[j].value.value, u) && more[j] < u <= E[j].ts
      ensures exists k: nat :: k < j && Has(E, more, E[j].value.value, u, k)
    {
      HasStays(E, chosen, more, n, E[j].value.value, u, j);
    }
    forall j, u | 0 <= j < n + 1 && j !in more && Usable(E[j]) && IsStart(from, E[j].value.value, u) && u <= E[j].ts
      ensures exists k: nat :: k < j && Has(E, more, E[j].value.value, u, k)
    {
      HasStays(E, chosen, more, n, E[j].value.value, u, j);
    }
    forall j | j in chosen && E[j].value == E[n].value ensures t < chosen[j] || t > E[j].ts {
      NestedOrDisjoint(E, from, chosen, n, t, j);
    }
  }

  lemma NestedOrDisjoint(E: seq<Message>, from: seq<Message>, chosen: map<nat, int>, n: nat, t: int, j: nat)
    requires Greedy(E, from, chosen, n) && n < |E| && Usable(E[n]) && IsStart(from, E[n].value.value, t)
    requires forall k: nat :: !Has(E, chosen, E[n].value.value, t, k)
    requires j in chosen && E[j].value == E[n].value
    ensures t < chosen[j] || t > E[j].ts
  {
    assert !Has(E, chosen, E[n].value.value, t, j);
  }

  // ----- when the greedy pairing can be relied on -----

  ghost predicate Taken(E: seq<Message>, chosen: map<nat, int>, v: string, t: int, n: nat) {
    exists k: nat :: k < n && Has(E, chosen, v, t, k)
  }

  lemma NewestFree(E: seq<Message>, from: seq<Message>, chosen: map<nat, int>, v: string, ts: int, n: nat)
    returns (best: Option<int>)
    ensures best.Some? ==> IsStart(from, v, best.value) && best.value <= ts && !Taken(E, chosen, v, best.value, n)
    ensures forall t | IsStart(from, v, t) && t <= ts && !Taken(E, chosen, v, t, n) :: best.Some? && t <= best.value
  {
    hide Taken;
    best := None;
    var i := 0;
    while i < |from|
      invariant i <= |from|
      invariant best.Some? ==> IsStart(from, v, best.value) && best.value <= ts && !Taken(E, chosen, v, best.value, n)
      invariant forall j | 0 <= j < i && from[j].value == Some(v) && from[j].ts <= ts
        && !Taken(E, chosen, v, from[j].ts, n) ::
        best.Some? && from[j].ts <= best.value
    {
      var t := from[i].ts;
      if from[i].value == Some(v) && t <= ts && !Taken(E, chosen, v, t, n) && (best.None? || t > best.value) {
        assert from[i] == Message(Some(v), t);
        best := Some(t);
      }
      i := i + 1;
    }
  }

  /** The pairing the program makes exists for any second messages. */
  lemma {:induction false} GreedyExists(E: seq<Message>, from: seq<Message>, n: nat) returns (chosen: map<nat, int>)
    requires InOrder(E) && n <= |E|
    ensures Greedy(E, from, chosen, n)
    decreases n
  {
    if n == 0 {
      chosen := map[];
    } else {
      chosen := GreedyExists(E, from, n - 1);
      var best: Option<int> := None;
      if Usable(E[n - 1]) {
        best := NewestFree(E, from, chosen, E[n - 1].value.value, E[n - 1].ts, n - 1);
      }
      if best.Some? {
        PairStep(E, from, chosen, n - 1, best.value);
        chosen := chosen[n - 1 := best.value];
      } else {
        OrphanStep(E, from, chosen, n - 1);
      }
    }
  }

  ghost function Upto(n: nat): (s: set<nat>)
    ensures |s| == n && forall x: nat :: x in s <==> x < n
  {
    if n == 0 then {} else Upto(n - 1) + {n - 1}
  }

  /** Of two starts of one value at one time only one is ever used. */
  lemma TwinsAreUsedOnce(E: seq<Message>, from: seq<Message>, chosen: map<nat, int>, i: nat, i': nat)
    requires i < i' < |from| && from[i] == from[i'] && Greedy(E, from, chosen, |E|)
    requires forall j | 0 <= j < |E| :: E[j].value == from[i].value
    ensures |chosen| < |from|
  {
    hide Greedy;
    var M := AsMatching(E, from, chosen);
    forall j, k | j in M && k in M && from[M[j]] == from[M[k]] ensures j == k {
      GreedyPairsDiffer(E, from, chosen, j, k);
    }
    var unused := if exists k :: k in M && M[k] == i then i' else i;
    forall k | k in M ensures M[k] in Upto(|from|) - {unused} {
      if k0 :| k0 in M && M[k0] == i {
        assert M[k] == i' ==> k == k0;
      }
    }
    InjectionIsSmaller(M.Keys, Upto(|from|) - {unused}, M);
    assert |M.Keys| == |chosen.Keys|;
  }

  /** So when as many second messages ask for them, one is left an orphan although a start is left for it. */
  lemma TwinIsPassedOver(E: seq<Message>, from: seq<Message>, chosen: map<nat, int>, i: nat, i': nat)
    requires i < i' < |from| && from[i] == from[i'] && from[i].value.Some? && Greedy(E, from, chosen, |E|)
    requires |E| == |from| && forall j | 0 <= j < |E| :: E[j].value == from[i].value && E[j].ts >= from[i].ts
    ensures Wasteful(E, from, chosen)
  {
    hide Greedy;
    TwinsAreUsedOnce(E, from, chosen, i, i');
    assert !(Upto(|E|) <= chosen.Keys) by {
      if Upto(|E|) <= chosen.Keys {
        SubsetIsSmaller(Upto(|E|), chosen.Keys);
      }
    }
    var j :| j in Upto(|E|) && j !in chosen;
    assert PassedOver(E, from, chosen, j, i, i');
  }

  lemma SubsetIsSmaller(a: set<nat>, b: set<nat>)
    requires a <= b
    ensures |a| <= |b|
  {
    InjectionIsSmaller(a, b, map x | x in a :: x);
  }

  ghost function Latest(from: seq<Message>): (t: int)
    ensures forall i | 0 <= i < |from| :: from[i].ts <= t
  {
    if from == [] then 0
    else
      var t := Latest(from[1..]);
      assert forall i | 0 < i < |from| :: from[i] == from[1..][i - 1];
      if from[0].ts > t then from[0].ts else t
  }

  lemma SomeEndsAreWasted(from: seq<Message>) returns (E: seq<Message>, chosen: map<nat, int>)
    requires !(DistinctStarts(from) && NoEmptyValue(from))
    ensures InOrder(E) && Greedy(E, from, chosen, |E|) && Wasteful(E, from, chosen)
  {
    if m :| m in from && m.value == Some("") {
      E := [m];
      chosen := GreedyExists(E, from, 1);
      var i: nat :| i < |from| && from[i] == m;
      assert PassedOver(E, from, chosen, 0, i, i);
    } else {
      var i: nat, i': nat :| i < i' < |from| && from[i].value.Some? && from[i].value == from[i'].value
        && from[i].ts == from[i'].ts;
      var end := Message(from[i].value, Latest(from));
      E := seq(|from|, _ => end);
      chosen := GreedyExists(E, from, |E|);
      TwinIsPassedOver(E, from, chosen, i, i');
    }
  }

  /**
   * Known before any second message is seen: the greedy pairing is a largest
   * one whatever comes second, exactly when no value starts twice at one time
   * and none is empty.
   */
  lemma AlwaysMaximumIff(from: seq<Message>)
    ensures
      (forall E, chosen | InOrder(E) && Greedy(E, from, chosen, |E|) :: IsMaximum(E, from, chosen)) <==>
      DistinctStarts(from) && NoEmptyValue(from)
  {
    hide Greedy, IsMaximum;
    if DistinctStarts(from) && NoEmptyValue(from) {
      forall E, chosen | InOrder(E) && Greedy(E, from, chosen, |E|) ensures IsMaximum(E, from, chosen) {
        DistinctStartsAreEnough(E, from, chosen);
        GreedyIsMaximum(E, from, chosen);
      }
    } else {
      var E, chosen := SomeEndsAreWasted(from);
      WastefulIsNotMaximum(E, from, chosen);
    }
  }

  // ----- the program -----

  /** The times at which a value starts, in the order the messages came. */
  function TimesOf(from: seq<Message>, v: string): seq<int> {
    if from == [] then []
    else TimesOf(from[..|from| - 1], v) + (if from[|from| - 1].value == Some(v) then [from[|from| - 1].ts] else [])
  }

  lemma {:induction false} TimesAreStarts(from: seq<Message>, v: string, t: int)
    ensures t in TimesOf(from, v) <==> IsStart(from, v, t)
  {
    if from != [] {
      var before, last := from[..|from| - 1], from[|from| - 1];
      TimesAreStarts(before, v, t);
      if IsStart(from, v, t) {
        var i :| 0 <= i < |from| && from[i] == Message(Some(v), t);
        assert i < |before| ==> before[i] == from[i];
      }
      if IsStart(before, v, t) {
        var i :| 0 <= i < |before| && before[i] == Message(Some(v), t);
        assert from[i] == before[i];
      }
      if last == Message(Some(v), t) {
        assert from[|from| - 1] == Message(Some(v), t);
      }
    }
  }

  method GroupStarts(from: seq<Message>) returns (starts: map<string, seq<int>>)
    ensures forall v :: v in starts <==> TimesOf(from, v) != []
    ensures forall v | v in starts :: starts[v] == Sorting.Sort(TimesOf(from, v))
  {
    var lists: map<string, seq<int>> := map[];
    for i := 0 to |from|
      invariant forall v :: v in lists <==> TimesOf(from[..i], v) != []
      invariant forall v | v in lists :: lists[v] == TimesOf(from[..i], v)
    {
      assert from[..i + 1][..i] == from[..i];
      if from[i].value.Some? {
        var v := from[i].value.value;
        var list := if v in lists then lists[v] else [];
        lists := lists[v := list + [from[i].ts]];
      }
    }
    assert from[..|from|] == from;
    starts := map v | v in lists :: Sorting.Sort(lists[v]);
  }

  /** The newest time at or before ts that is not spoken for. */
  method FindStart(list: seq<int>, used: set<int>, ts: int) returns (best: Option<int>)
    requires forall i, j | 0 <= i < j < |list| :: list[i] <= list[j]
    ensures best.Some? ==> best.value in list && best.value <= ts && best.value !in used
    ensures forall t | t in list && t <= ts && t !in used :: best.Some? && t <= best.value
  {
    best := None;
    for i := 0 to |list|
      invariant best.Some? ==> best.value in list && best.value <= ts && best.value !in used
      invariant best.Some? ==> exists k :: 0 <= k < i && list[k] == best.value
      invariant forall k | 0 <= k < i && list[k] <= ts && list[k] !in used :: best.Some? && list[k] <= best.value
    {
      if list[i] > ts {
        break;
      }
      if list[i] !in used {
        best := Some(list[i]);
      }
    }
  }

  /** The pairs in the order they were made. */
  function PairsOf(E: seq<Message>, chosen: map<nat, int>, n: nat): (pairs: seq<StepPair>)
    requires n <= |E|
    ensures |pairs| <= n
  {
    if n == 0 then []
    else
      var m := E[n - 1];
      PairsOf(E, chosen, n - 1) +
      (if n - 1 in chosen && m.value.Some? then [StepPair(m.value.value, chosen[n - 1], m.ts, m.ts - chosen[n - 1])]
        else [])
  }

  lemma {:induction false} PairsOfUnchanged(E: seq<Message>, chosen: map<nat, int>, n: nat, k: nat, t: int)
    requires n <= k && n <= |E|
    ensures PairsOf(E, chosen[k := t], n) == PairsOf(E, chosen, n)
  {
    if n > 0 {
      PairsOfUnchanged(E, chosen, n - 1, k, t);
    }
  }

  /** The pair of the second message j: its value, its start, its own time, and what lies between. */
  ghost predicate IsPair(p: StepPair, E: seq<Message>, chosen: map<nat, int>, j: nat) {
    j in chosen && j < |E| && Some(p.value) == E[j].value && p.from == chosen[j] && p.to == E[j].ts
      && p.deltaMs == p.to - p.from
  }

  lemma {:induction false} PairsAre(E: seq<Message>, chosen: map<nat, int>, n: nat)
    requires n <= |E|
    ensures forall p | p in PairsOf(E, chosen, n) :: exists j :: j in chosen && IsPair(p, E, chosen, j)
  {
    if n > 0 {
      PairsAre(E, chosen, n - 1);
      if n - 1 in chosen && E[n - 1].value.Some? {
        var p := StepPair(E[n - 1].value.value, chosen[n - 1], E[n - 1].ts, E[n - 1].ts - chosen[n - 1]);
        assert IsPair(p, E, chosen, n - 1);
      }
    }
  }

  lemma {:induction false} SameGaps(a: seq<StepPair>, b: seq<StepPair>)
    requires multiset(a) == multiset(b)
    ensures multiset(Deltas(a)) == multiset(Deltas(b))
  {
    if a == [] {
      assert |multiset(b)| == |b|;
    } else {
      assert a[0] in multiset(b);
      var j :| 0 <= j < |b| && b[j] == a[0];
      var rest := b[..j] + b[j + 1..];
      assert a == [a[0]] + a[1..] && b == b[..j] + [b[j]] + b[j + 1..];
      WithoutOne(a, b, j);
      SameGaps(a[1..], rest);
      DeltasOfTwo([a[0]], a[1..]);
      DeltasOfTwo(b[..j] + [b[j]], b[j + 1..]);
      DeltasOfTwo(b[..j], [b[j]]);
      DeltasOfTwo(b[..j], b[j + 1..]);
    }
  }

  lemma WithoutOne(a: seq<StepPair>, b: seq<StepPair>, j: nat)
    requires a != [] && j < |b| && a[0] == b[j] && multiset(a) == multiset(b)
    ensures multiset(a[1..]) == multiset(b[..j] + b[j + 1..])
  {
    assert a == [a[0]] + a[1..] && b == b[..j] + ([b[j]] + b[j + 1..]);
    assert multiset(a[1..]) == multiset(a) - multiset{a[0]};
  }

  lemma DeltasOfTwo(a: seq<StepPair>, b: seq<StepPair>)
    ensures Deltas(a + b) == Deltas(a) + Deltas(b)
  {
  }

  lemma {:induction false} CarryingCounts(from: seq<Message>)
    ensures Carrying(from) == |set i: nat | i < |from| && from[i].value.Some?|
  {
    var all := set i: nat | i < |from| && from[i].value.Some?;
    if from == [] {
      assert all == {};
    } else {
      var n := |from| - 1;
      CarryingCounts(from[..n]);
      assert all == (set i: nat | i < n && from[..n][i].value.Some?) + if from[n].value.Some? then {n} else {};
    }
  }

  /** Which of n sorted numbers the quantile is. */
  function QuantileAt(n: nat, q: real): (k: nat)
    requires n > 0 && 0.0 <= q <= 1.0
    ensures k < n
  {
    ProductsRise(0.0, q, n as real);
    var i := (q * n as real).Floor;
    if i > n - 1 then n - 1 else i
  }

  function Quantile(sorted: seq<int>, q: real): int
    requires 0.0 <= q <= 1.0
  {
    if |sorted| == 0 then 0 else sorted[QuantileAt(|sorted|, q)]
  }

  function Descending(p: StepPair): int { -p.deltaMs }

  ghost predicate Spoken(E: seq<Message>, chosen: map<nat, int>, used: map<string, set<int>>) {
    && (forall v, t :: v in used && t in used[v] ==> exists k: nat :: Has(E, chosen, v, t, k))
    && (forall v, t, k: nat | Has(E, chosen, v, t, k) :: v in used && t in used[v])
  }

  method Pairing(from: seq<Message>, E: seq<Message>) returns (pairs: seq<StepPair>, orphans: int,
                 ghost chosen: map<nat, int>)
    requires InOrder(E)
    ensures Greedy(E, from, chosen, |E|) && pairs == PairsOf(E, chosen, |E|)
    ensures |pairs| == |chosen| && |pairs| + orphans == |E|
  {
    hide InOrder, PairingState, TimesOf, Sorting.Sort;
    var starts := GroupStarts(from);
    var used: map<string, set<int>> := map[];
    pairs, orphans, chosen := [], 0, map[];
    FirstState(E, from);
    for n := 0 to |E|
      invariant PairingState(E, from, chosen, used, pairs, orphans, n)
    {
      var best := BestStart(E[n], starts, used);
      if best.None? {
        OrphanState(E, from, chosen, used, starts, pairs, orphans, n);
        orphans := orphans + 1;
      } else {
        var m := E[n];
        var v := m.value.value;
        PairState(E, from, chosen, used, starts, pairs, orphans, n, best.value);
        used := used[v := (if v in used then used[v] else {}) + {best.value}];
        chosen := chosen[n := best.value];
        pairs := pairs + [StepPair(v, best.value, m.ts, m.ts - best.value)];
      }
    }
    LastState(E, from, chosen, used, pairs, orphans);
  }

  /** Where the loop stands after n second messages. */
  ghost predicate PairingState(E: seq<Message>, from: seq<Message>, chosen: map<nat, int>, used: map<string, set<int>>,
                               pairs: seq<StepPair>, orphans: int, n: nat) {
    && Greedy(E, from, chosen, n) && Spoken(E, chosen, used)
    && pairs == PairsOf(E, chosen, n) && |pairs| == |chosen| && |pairs| + orphans == n
    && forall j | j in chosen :: j < n
  }

  lemma FirstState(E: seq<Message>, from: seq<Message>)
    ensures PairingState(E, from, map[], map[], [], 0, 0)
  {
    hide Greedy, Spoken;
    NothingChosen(E, from);
  }

  lemma LastState(E: seq<Message>, from: seq<Message>, chosen: map<nat, int>, used: map<string, set<int>>,
                  pairs: seq<StepPair>, orphans: int)
    ensures
      PairingState(E, from, chosen, used, pairs, orphans, |E|) ==>
      Greedy(E, from, chosen, |E|) && pairs == PairsOf(E, chosen, |E|) && |pairs| == |chosen|
        && |pairs| + orphans == |E|
  {
    hide Greedy, Spoken;
  }

  /** What a search for the best start of message n finds. */
  ghost predicate Best(m: Message, starts: map<string, seq<int>>, used: map<string, set<int>>, best: Option<int>) {
    && (best.Some? ==> Usable(m) && m.value.value in starts)
    && (best.Some? ==> var v := m.value.value;
          best.value in starts[v] && best.value <= m.ts && !(v in used && best.value in used[v]))
    && (Usable(m) && m.value.value in starts ==> var v := m.value.value;
          forall t | t in starts[v] && t <= m.ts && !(v in used && t in used[v]) :: best.Some? && t <= best.value)
  }

  ghost predicate StartsOf(from: seq<Message>, starts: map<string, seq<int>>) {
    && (forall v :: v in starts <==> TimesOf(from, v) != [])
    && forall v | v in starts :: starts[v] == Sorting.Sort(TimesOf(from, v))
  }

  lemma OrphanState(E: seq<Message>, from: seq<Message>, chosen: map<nat, int>, used: map<string, set<int>>,
                    starts: map<string, seq<int>>, pairs: seq<StepPair>, orphans: int, n: nat)
    requires InOrder(E) && n < |E| && PairingState(E, from, chosen, used, pairs, orphans, n)
    requires StartsOf(from, starts) && Best(E[n], starts, used, None)
    ensures PairingState(E, from, chosen, used, pairs, orphans + 1, n + 1)
  {
    hide InOrder, Greedy, Spoken, IsStart, PairsOf, TimesOf, Sorting.Sort;
    FoundStart(from, E, chosen, used, starts, n, None);
    PairsStep(E, chosen, n, None);
    OrphanStep(E, from, chosen, n);
  }

  lemma PairState(E: seq<Message>, from: seq<Message>, chosen: map<nat, int>, used: map<string, set<int>>,
                  starts: map<string, seq<int>>, pairs: seq<StepPair>, orphans: int, n: nat, t: int)
    requires InOrder(E) && n < |E| && PairingState(E, from, chosen, used, pairs, orphans, n)
    requires StartsOf(from, starts) && Best(E[n], starts, used, Some(t))
    ensures
      var m := E[n];
      var v := m.value.value;
      PairingState(E, from, chosen[n := t], used[v := (if v in used then used[v] else {}) + {t}],
                   pairs + [StepPair(v, t, m.ts, m.ts - t)], orphans, n + 1)
  {
    hide InOrder, Greedy, Spoken, IsStart, PairsOf, TimesOf, Sorting.Sort;
    FoundStart(from, E, chosen, used, starts, n, Some(t));
    PairsStep(E, chosen, n, Some(t));
    PairStep(E, from, chosen, n, t);
    SpokenStep(E, chosen, used, n, t);
  }

  /** The newest start at or before a second message, not already spoken for. */
  method BestStart(m: Message, starts: map<string, seq<int>>, used: map<string, set<int>>) returns (best: Option<int>)
    requires forall v | v in starts :: forall i, j | 0 <= i < j < |starts[v]| :: starts[v][i] <= starts[v][j]
    ensures Best(m, starts, used, best)
  {
    if m.value.None? || m.value.value == "" || m.value.value !in starts {
      return None;
    }
    var v := m.value.value;
    best := FindStart(starts[v], if v in used then used[v] else {}, m.ts);
  }

  lemma PairsStep(E: seq<Message>, chosen: map<nat, int>, n: nat, best: Option<int>)
    requires n < |E| && n !in chosen && (best.Some? ==> E[n].value.Some?)
    ensures PairsOf(E, chosen, n + 1) == PairsOf(E, chosen, n)
    ensures best.Some? ==> var m := E[n];
      PairsOf(E, chosen[n := best.value], n + 1) ==
        PairsOf(E, chosen, n) + [StepPair(m.value.value, best.value, m.ts, m.ts - best.value)]
  {
    if best.Some? {
      PairsOfUnchanged(E, chosen, n, n, best.value);
    }
  }

  lemma NothingChosen(E: seq<Message>, from: seq<Message>)
    ensures Greedy(E, from, map[], 0) && Spoken(E, map[], map[])
  {
  }

  lemma SpokenStep(E: seq<Message>, chosen: map<nat, int>, used: map<string, set<int>>, n: nat, t: int)
    requires Spoken(E, chosen, used) && n < |E| && n !in chosen && E[n].value.Some?
    ensures var v := E[n].value.value;
      Spoken(E, chosen[n := t], used[v := (if v in used then used[v] else {}) + {t}])
  {
    var w := E[n].value.value;
    var chosen', used' := chosen[n := t], used[w := (if w in used then used[w] else {}) + {t}];
    forall v, u | v in used' && u in used'[v] ensures exists k: nat :: Has(E, chosen', v, u, k) {
      if v == w && u == t {
        assert Has(E, chosen', v, u, n);
      } else {
        assert v in used && u in used[v];
        var k: nat :| Has(E, chosen, v, u, k);
        assert Has(E, chosen', v, u, k);
      }
    }
    forall v, u, k: nat | Has(E, chosen', v, u, k) ensures v in used' && u in used'[v] {
      assert k != n ==> Has(E, chosen, v, u, k);
    }
  }

  /** What the search found is what the greedy step needs. */
  lemma FoundStart(from: seq<Message>, E: seq<Message>, chosen: map<nat, int>, used: map<string, set<int>>,
                   starts: map<string, seq<int>>, n: nat, best: Option<int>)
    requires n < |E| && Greedy(E, from, chosen, n) && Spoken(E, chosen, used)
    requires StartsOf(from, starts) && Best(E[n], starts, used, best)
    ensures best.Some? ==> IsStart(from, E[n].value.value, best.value) && forall k: nat ::
      !Has(E, chosen, E[n].value.value, best.value, k)
    ensures Usable(E[n]) ==>
      forall t | IsStart(from, E[n].value.value, t) && t <= E[n].ts && (best.Some? ==> best.value < t) ::
      exists k: nat :: k < n && Has(E, chosen, E[n].value.value, t, k)
  {
    if Usable(E[n]) {
      var v := E[n].value.value;
      if best.Some? {
        SortKeeps(TimesOf(from, v), best.value);
        TimesAreStarts(from, v, best.value);
      }
      forall t | IsStart(from, v, t) && t <= E[n].ts && (best.Some? ==> best.value < t)
        ensures exists k: nat :: k < n && Has(E, chosen, v, t, k)
      {
        TimesAreStarts(from, v, t);
        SortKeeps(TimesOf(from, v), t);
        assert v in used && t in used[v];
        var k: nat :| Has(E, chosen, v, t, k);
        assert k < n;
      }
    }
  }

  lemma SortKeeps(s: seq<int>, t: int)
    ensures t in Sorting.Sort(s) <==> t in s
  {
    assert t in multiset(Sorting.Sort(s)) <==> t in multiset(s);
  }

  /**
   * Pairs the messages of two subjects by value and measures the gaps. The
   * pairing is a largest possible one, so as few first messages as possible
   * are unfinished, exactly when no orphan was passed over.
   */
  method Measure(from: seq<Message>, to: seq<Message>) returns (r: Latency, ghost chosen: map<nat, int>)
    ensures var E := Sorting.SortBy(to, Time);
      && Greedy(E, from, chosen, |to|)
      && multiset(r.pairs) == multiset(PairsOf(E, chosen, |to|))
      && |r.pairs| == |chosen| && |r.pairs| + r.orphans == |to|
      && (IsMaximum(E, from, chosen) <==> !Wasteful(E, from, chosen))
      && (DistinctStarts(from) && NoEmptyValue(from) ==> IsMaximum(E, from, chosen))
    ensures forall p | p in r.pairs :: exists j :: j in chosen && IsPair(p, Sorting.SortBy(to, Time), chosen, j)
    ensures r.unfinished == |set i: nat | i < |from| && from[i].value.Some?| - |r.pairs| >= 0
    ensures Sorting.SortedBy(r.pairs, Descending)
    ensures r.pairs != [] ==> r.min in Deltas(r.pairs) && r.max in Deltas(r.pairs)
    ensures r.pairs == [] ==> r.min == r.max == 0
    ensures forall p | p in r.pairs :: r.min <= p.deltaMs <= r.max
    ensures r.pairs == [] ==> r.p50 == r.p95 == r.p99 == 0
    ensures r.pairs != [] ==>
      var gaps := Deltas(r.pairs);
      IsQuantile(r.p50, gaps, 0.5) && IsQuantile(r.p95, gaps, 0.95) && IsQuantile(r.p99, gaps, 0.99)
    ensures r.p50 <= r.p95 <= r.p99
  {
    hide IsQuantile, Greedy, IsMaximum, Wasteful, DistinctStarts, NoEmptyValue, PairsOf, InOrder;
    var E := Sorting.SortBy(to, Time);
    OrderOfTimes(E);
    var pairs, orphans;
    pairs, orphans, chosen := Pairing(from, E);
    MaximumIffNothingPassedOver(E, from, chosen);
    if DistinctStarts(from) && NoEmptyValue(from) {
      DistinctStartsAreEnough(E, from, chosen);
    }
    var starters := CountStarters(from);
    PairsAreStarters(E, from, chosen);
    var min, p50, p95, p99, max := Spread(pairs);
    var byDelta := Sorting.SortBy(pairs, Descending);
    SameDeltas(pairs, byDelta);
    SameGaps(pairs, byDelta);
    Sorting.SortOfSame(Deltas(pairs), Deltas(byDelta));
    if pairs != [] {
      QuantileMeans(Deltas(byDelta), 0.5);
      QuantileMeans(Deltas(byDelta), 0.95);
      QuantileMeans(Deltas(byDelta), 0.99);
    }
    PairsAre(E, chosen, |to|);
    CarryingCounts(from);
    r := Latency(byDelta, if starters - |pairs| > 0 then starters - |pairs| else 0, orphans, min, p50, p95, p99, max);
  }

  function Deltas(pairs: seq<StepPair>): (d: seq<int>)
    ensures |d| == |pairs|
  {
    seq(|pairs|, i requires 0 <= i < |pairs| => pairs[i].deltaMs)
  }

  lemma SameDeltas(a: seq<StepPair>, b: seq<StepPair>)
    requires multiset(a) == multiset(b)
    ensures a == [] <==> b == []
    ensures forall p | p in b :: p in a
    ensures forall d | d in Deltas(a) :: d in Deltas(b)
  {
    assert |multiset(a)| == |a| && |multiset(b)| == |b|;
    forall p | p in b ensures p in a {
      assert p in multiset(b);
    }
    forall d | d in Deltas(a) ensures d in Deltas(b) {
      var i :| 0 <= i < |a| && a[i].deltaMs == d;
      assert a[i] in multiset(b);
      var j :| 0 <= j < |b| && b[j] == a[i];
      assert Deltas(b)[j] == d;
    }
  }

  /** The gaps' least and greatest, and three quantiles of them. */
  method Spread(pairs: seq<StepPair>) returns (min: int, p50: int, p95: int, p99: int, max: int)
    ensures pairs != [] ==> min in Deltas(pairs) && max in Deltas(pairs)
    ensures pairs == [] ==> min == max == 0
    ensures forall p | p in pairs :: min <= p.deltaMs <= max
    ensures var sorted := Sorting.Sort(Deltas(pairs));
      p50 == Quantile(sorted, 0.5) <= p95 == Quantile(sorted, 0.95) <= p99 == Quantile(sorted, 0.99)
  {
    hide Quantile;
    var deltas := Sorting.Sort(Deltas(pairs));
    forall d ensures d in deltas <==> d in Deltas(pairs) {
      SortKeeps(Deltas(pairs), d);
    }
    min := if |deltas| > 0 then deltas[0] else 0;
    max := if |deltas| > 0 then deltas[|deltas| - 1] else 0;
    forall p | p in pairs ensures min <= p.deltaMs <= max {
      var i :| 0 <= i < |pairs| && pairs[i] == p;
      assert Deltas(pairs)[i] == p.deltaMs && p.deltaMs in deltas;
    }
    QuantilesRise(deltas, 0.5, 0.95);
    QuantilesRise(deltas, 0.95, 0.99);
    p50, p95, p99 := Quantile(deltas, 0.5), Quantile(deltas, 0.95), Quantile(deltas, 0.99);
  }

  /**
   * One of the gaps: more than their share of all gaps, or all, are no longer, and no less than the
   * rest are no shorter.
   */
  ghost predicate IsQuantile(g: int, gaps: seq<int>, q: real) {
    var n := |gaps| as real;
    && g in gaps
    && (|Sorting.UpTo(gaps, g)| as real > q * n || |Sorting.UpTo(gaps, g)| == |gaps|)
    && |Sorting.From(gaps, g)| as real >= (1.0 - q) * n
  }

  lemma QuantilePlace(n: nat, q: real)
    requires n > 0 && 0.0 <= q <= 1.0
    ensures var k := QuantileAt(n, q);
      ((k + 1) as real > q * n as real || k + 1 == n) && (n - k) as real >= (1.0 - q) * n as real
  {
    ProductsRise(0.0, q, n as real);
    assert (1.0 - q) * n as real == n as real - q * n as real;
  }

  lemma QuantileMeans(gaps: seq<int>, q: real)
    requires gaps != [] && 0.0 <= q <= 1.0
    ensures IsQuantile(Quantile(Sorting.Sort(gaps), q), gaps, q)
  {
    hide QuantileAt, Sorting.Sort, Sorting.UpTo, Sorting.From, Sorting.AtMost, Sorting.AtLeast;
    var g := Quantile(Sorting.Sort(gaps), q);
    QuantilePlace(|gaps|, q);
    Sorting.KthOfSorted(gaps, QuantileAt(|gaps|, q));
    Sorting.AtMostCounts(gaps, g);
    Sorting.AtLeastCounts(gaps, g);
    NoMoreThanAll(gaps, g);
  }

  lemma NoMoreThanAll(gaps: seq<int>, g: int)
    ensures |Sorting.UpTo(gaps, g)| <= |gaps|
  {
    Sorting.AtMostCounts(gaps, g);
    Sorting.AtMostIsShort(gaps, g);
  }

  lemma QuantilesRise(sorted: seq<int>, q: real, r: real)
    requires forall i, j | 0 <= i < j < |sorted| :: sorted[i] <= sorted[j]
    requires 0.0 <= q <= r <= 1.0
    ensures Quantile(sorted, q) <= Quantile(sorted, r)
  {
    var n := |sorted| as real;
    ProductsRise(q, r, n);
    FloorsRise(q * n, r * n);
  }

  lemma ProductsRise(q: real, r: real, n: real)
    requires 0.0 <= q <= r && n >= 0.0
    ensures 0.0 <= q * n <= r * n
  {
  }

  lemma FloorsRise(x: real, y: real)
    requires x <= y
    ensures x.Floor <= y.Floor
  {
  }

  /** Every pair uses up one message that carries a value, so the difference is what is left unfinished. */
  lemma PairsAreStarters(E: seq<Message>, from: seq<Message>, chosen: map<nat, int>)
    requires Greedy(E, from, chosen, |E|)
    ensures |chosen| <= Carrying(from)
  {
    hide Greedy;
    var M := AsMatching(E, from, chosen);
    forall k, k' | k in M && k' in M && M[k] == M[k'] ensures k == k' {
      GreedyPairsDiffer(E, from, chosen, k, k');
    }
    var carriers := set i: nat | i < |from| && from[i].value.Some?;
    forall k | k in M ensures M[k] in carriers {
      ChosenIsUsable(E, from, chosen, k);
    }
    InjectionIsSmaller(M.Keys, carriers, M);
    CarriersCount(from, carriers);
  }

  lemma {:induction false} CarriersCount(from: seq<Message>, carriers: set<nat>)
    requires forall i: nat :: i in carriers <==> i < |from| && from[i].value.Some?
    ensures |carriers| == Carrying(from)
  {
    if from == [] {
      assert carriers == {};
    } else {
      var last := |from| - 1;
      CarriersCount(from[..last], carriers - {last});
      if from[last].value.Some? {
        assert last in carriers;
      } else {
        assert carriers - {last} == carriers;
      }
    }
  }

  lemma OrderOfTimes(E: seq<Message>)
    requires Sorting.SortedBy(E, Time)
    ensures InOrder(E)
  {
  }

  /** How many first messages carry a value at all. */
  function Carrying(from: seq<Message>): nat {
    if from == [] then 0 else Carrying(from[..|from| - 1]) + (if from[|from| - 1].value.Some? then 1 else 0)
  }

  method CountStarters(from: seq<Message>) returns (n: nat)
    ensures n == Carrying(from)
  {
    n := 0;
    for i := 0 to |from|
      invariant n == Carrying(from[..i])
    {
      assert from[..i + 1][..i] == from[..i];
      if from[i].value.Some? {
        n := n + 1;
      }
    }
    assert from[..|from|] == from;
  }

  // The distribution of the gaps.

  datatype LatencyBucket = LatencyBucket(le: int, count: nat)

  const BOUNDS := [1, 5, 10, 25, 50, 100, 250, 500, 1000, 5000, 30_000, 60_000]

  /** The first bound a gap does not exceed; one past the bounds if there is none. */
  function BoundOf(d: int, i: nat): (r: nat)
    requires i <= |BOUNDS|
    ensures i <= r <= |BOUNDS|
    ensures (forall k | i <= k < r :: d > BOUNDS[k]) && (r < |BOUNDS| ==> d <= BOUNDS[r])
    decreases |BOUNDS| - i
  {
    if i == |BOUNDS| || d <= BOUNDS[i] then i else BoundOf(d, i + 1)
  }

  /** How many gaps belong to one bucket. */
  function CountAt(deltas: seq<int>, b: nat): nat {
    if deltas == [] then 0
    else CountAt(deltas[..|deltas| - 1], b) + if BoundOf(deltas[|deltas| - 1], 0) == b then 1 else 0
  }

  function CountAll(buckets: seq<LatencyBucket>): nat {
    if buckets == [] then 0 else CountAll(buckets[..|buckets| - 1]) + buckets[|buckets| - 1].count
  }

  ghost predicate CountsOf(buckets: seq<LatencyBucket>, first: nat, deltas: seq<int>) {
    && first + |buckets| <= |BOUNDS| + 1
    && forall k | 0 <= k < |buckets| ::
      && buckets[k].le == (if first + k < |BOUNDS| then BOUNDS[first + k] else 0)
      && buckets[k].count == CountAt(deltas, first + k)
  }

  /** Every gap is counted once, in the bucket of its bound; only empty buckets are cut off, and all at both ends. */
  method LatencyBuckets(deltas: seq<int>) returns (buckets: seq<LatencyBucket>, ghost first: nat)
    ensures CountsOf(buckets, first, deltas) && CountAll(buckets) == |deltas|
    ensures buckets == [] <==> deltas == []
    ensures buckets != [] ==> buckets[0].count > 0 && buckets[|buckets| - 1].count > 0
  {
    hide CountAt, BOUNDS, BoundOf;
    buckets := seq(|BOUNDS| + 1, i requires 0 <= i < |BOUNDS| + 1 =>
      LatencyBucket(if i < |BOUNDS| then BOUNDS[i] else 0, 0));
    first := 0;
    NoGaps(buckets);
    for i := 0 to |deltas|
      invariant |buckets| == |BOUNDS| + 1 && CountsOf(buckets, 0, deltas[..i]) && CountAll(buckets) == i
    {
      var b := BoundOf(deltas[i], 0);
      OneMoreGap(deltas, i);
      Counted(buckets, b);
      buckets := buckets[b := LatencyBucket(buckets[b].le, buckets[b].count + 1)];
    }
    assert deltas[..|deltas|] == deltas;
    var lo := 0;
    while lo < |buckets| && buckets[lo].count == 0
      invariant lo <= |buckets| && forall k | 0 <= k < lo :: buckets[k].count == 0
    {
      lo := lo + 1;
    }
    var hi := |buckets|;
    while hi > lo && buckets[hi - 1].count == 0
      invariant lo <= hi <= |buckets| && forall k | hi <= k < |buckets| :: buckets[k].count == 0
    {
      hi := hi - 1;
    }
    OnlyEmptyOutside(buckets, lo, hi);
    first := lo;
    buckets := buckets[lo..hi];
  }

  lemma {:induction false} NoGaps(buckets: seq<LatencyBucket>)
    requires forall k | 0 <= k < |buckets| :: buckets[k].count == 0
    ensures CountAll(buckets) == 0 && forall k | 0 <= k < |buckets| :: CountAt([], k) == 0
  {
    if buckets != [] {
      NoGaps(buckets[..|buckets| - 1]);
    }
  }

  lemma OneMoreGap(deltas: seq<int>, i: nat)
    requires i < |deltas|
    ensures
      forall b: nat ::
        CountAt(deltas[..i + 1], b) == CountAt(deltas[..i], b) + if BoundOf(deltas[i], 0) == b then 1 else 0
  {
    assert deltas[..i + 1][..i] == deltas[..i];
  }

  lemma {:induction false} Counted(buckets: seq<LatencyBucket>, b: nat)
    requires b < |buckets|
    ensures CountAll(buckets[b := LatencyBucket(buckets[b].le, buckets[b].count + 1)]) == CountAll(buckets) + 1
  {
    var n := |buckets| - 1;
    var more := buckets[b := LatencyBucket(buckets[b].le, buckets[b].count + 1)];
    if b < n {
      Counted(buckets[..n], b);
      assert more[..n] == buckets[..n][b := LatencyBucket(buckets[b].le, buckets[b].count + 1)];
    } else {
      assert more[..n] == buckets[..n];
    }
  }

  lemma FrontOfSlice(buckets: seq<LatencyBucket>, lo: nat)
    requires lo < |buckets|
    ensures
      var n := |buckets| - 1;
      buckets[lo..n + 1][..n - lo] == buckets[..n][lo..n] && buckets[lo..n + 1][n - lo] == buckets[n]
  {
  }

  lemma {:induction false} OnlyEmptyOutside(buckets: seq<LatencyBucket>, lo: nat, hi: nat)
    requires lo <= hi <= |buckets|
    requires forall k | 0 <= k < |buckets| && !(lo <= k < hi) :: buckets[k].count == 0
    ensures CountAll(buckets[lo..hi]) == CountAll(buckets)
  {
    var n := |buckets| - 1;
    if buckets != [] {
      if hi <= n {
        OnlyEmptyOutside(buckets[..n], lo, hi);
        assert buckets[..n][lo..hi] == buckets[lo..hi];
      } else if lo < hi {
        OnlyEmptyOutside(buckets[..n], lo, n);
        FrontOfSlice(buckets, lo);
      } else {
        NoGaps(buckets);
      }
    }
  }
}
