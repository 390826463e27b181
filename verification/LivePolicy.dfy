/**
 * When the live connection tries again, and where: flaps, pauses, turns, giving up
 * (connection/live.go, connection/drop.go).
 */
module LivePolicy {
  import opened Sequences
  import opened Wrappers

  // durations in milliseconds
  const RECONNECT_WAIT := 2000
  const FLAP_WINDOW := 60_000
  const MAX_LIVE_PAUSE := 60_000

  function Min(a: int, b: int): int { if a < b then a else b }
  function Pow2(n: nat): (p: nat)
    ensures p >= 1
  {
    if n == 0 then 1 else 2 * Pow2(n - 1)
  }

  /** No pause for the first flap, then 4 s, 8 s, 16 s, ... up to a minute. */
  function Pause(flaps: int): int {
    if flaps <= 1 then 0 else Min(1000 * Pow2(flaps), MAX_LIVE_PAUSE)
  }

  /** Flap by flap. */
  lemma PausesAre(flaps: int)
    ensures
      Pause(flaps) ==
      if flaps <= 1 then 0 else if flaps == 2 then 4000 else if flaps == 3 then 8000
      else if flaps == 4 then 16_000 else if flaps == 5 then 32_000 else 60_000
  {
    assert Pow2(3) == 8 && Pow2(5) == 4 * Pow2(3) && Pow2(6) == 8 * Pow2(3);
    if flaps > 6 {
      Pow2Grows(6, flaps);
    }
  }

  lemma {:induction false} Pow2Grows(i: nat, n: nat)
    requires i <= n
    ensures Pow2(i) <= Pow2(n)
  {
    if i < n {
      Pow2Grows(i, n - 1);
    }
  }

  method LivePause(flaps: int) returns (pause: int)
    ensures pause == Pause(flaps)
  {
    if flaps <= 1 {
      return 0;
    }
    var d := RECONNECT_WAIT;
    var i := 1;
    while i < flaps && d < MAX_LIVE_PAUSE
      invariant 1 <= i <= flaps && d == 1000 * Pow2(i)
    {
      d := d * 2;
      i := i + 1;
    }
    Pow2Grows(i, flaps);
    return Min(d, MAX_LIVE_PAUSE);
  }

  /** The wait before an attempt: not within RECONNECT_WAIT of the last one at that server, and not during a pause. */
  function Wait(last: Option<int>, pausedUntil: Option<int>, now: int): int {
    Max(if last.Some? then Max(RECONNECT_WAIT - (now - last.value), 0) else 0,
        if pausedUntil.Some? then pausedUntil.value - now else 0)
  }

  /**
   * A drop just counted is followed at once exactly when it is not the second flap in a row and the
   * server was not tried just now.
   */
  lemma FollowedAtOnceIff(last: Option<int>, flaps: nat, now: int)
    ensures
      Wait(last, Some(now + Pause(flaps)), now) == 0 <==>
      flaps <= 1 && (last.Some? ==> last.value + RECONNECT_WAIT <= now)
  {
  }

  /** Under a pause of at most a minute only an attempt at the same server far ahead makes the wait longer than that. */
  lemma OverAMinuteIff(last: Option<int>, pausedUntil: Option<int>, now: int)
    requires pausedUntil.Some? ==> pausedUntil.value <= now + MAX_LIVE_PAUSE
    ensures
      Wait(last, pausedUntil, now) > MAX_LIVE_PAUSE <==>
      last.Some? && last.value > now + MAX_LIVE_PAUSE - RECONNECT_WAIT
  {
  }

  // ----- the history of attempts -----

  /** One question for the next server: how many there were, and whether the API's connection was up. */
  datatype Call = Call(count: nat, apiUp: bool)

  /** Its answer: which server, by name and by turn, scheduled for when, and the pause in force. */
  datatype Attempt = Attempt(server: string, index: nat, count: nat, asked: int, at: int, paused: Option<int>)

  /** The last calls in a row that saw the API's connection up. */
  function TrailingUp(a: seq<Call>): (r: nat)
    ensures r <= |a|
  {
    if a == [] || !a[|a| - 1].apiUp then 0 else 1 + TrailingUp(a[..|a| - 1])
  }

  lemma {:induction false} TrailingUpIs(a: seq<Call>)
    ensures
      var r := TrailingUp(a);
      (forall i | |a| - r <= i < |a| :: a[i].apiUp) && (r < |a| ==> !a[|a| - r - 1].apiUp)
  {
    if a != [] && a[|a| - 1].apiUp {
      TrailingUpIs(a[..|a| - 1]);
    }
  }

  function LastAt(a: seq<Attempt>, server: string): Option<int> {
    if a == [] then None
    else if a[|a| - 1].server == server then Some(a[|a| - 1].at)
    else LastAt(a[..|a| - 1], server)
  }

  /** Attempts at one server are apart; none is in the past or during a pause. */
  ghost predicate Spaced(a: seq<Attempt>) {
    && (forall i, j | 0 <= i < j < |a| && a[i].server == a[j].server :: a[i].at + RECONNECT_WAIT <= a[j].at)
    && (forall i | 0 <= i < |a| :: a[i].asked <= a[i].at && (a[i].paused.Some? ==> a[i].paused.value <= a[i].at))
  }

  ghost predicate InTurn(a: seq<Attempt>) {
    && (forall i | 0 <= i < |a| :: a[i].index < a[i].count)
    && (a != [] ==> a[0].index == 1 % a[0].count)
    && (forall i | 1 <= i < |a| :: a[i].index == (a[i - 1].index + 1) % a[i].count)
  }

  lemma {:induction false} LastAtIsLatest(a: seq<Attempt>, i: nat)
    requires Spaced(a) && i < |a|
    ensures LastAt(a, a[i].server).Some? && a[i].at <= LastAt(a, a[i].server).value
  {
    if a[|a| - 1].server != a[i].server {
      LastAtIsLatest(a[..|a| - 1], i);
    }
  }

  /** After this wait a server may be tried: late enough after every attempt at it, and not during the pause. */
  ghost predicate MayTry(a: seq<Attempt>, server: string, pausedUntil: Option<int>, now: int, wait: int) {
    && wait >= 0
    && (forall i | 0 <= i < |a| && a[i].server == server :: a[i].at + RECONNECT_WAIT <= now + wait)
    && (pausedUntil.Some? ==> pausedUntil.value <= now + wait)
  }

  ghost predicate IsLeastWait(wait: int, a: seq<Attempt>, server: string, pausedUntil: Option<int>, now: int) {
    MayTry(a, server, pausedUntil, now, wait) && forall w | MayTry(a, server, pausedUntil, now, w) :: wait <= w
  }

  /** The wait is the least after which the server may be tried. */
  lemma WaitIsLeast(a: seq<Attempt>, server: string, pausedUntil: Option<int>, now: int)
    requires Spaced(a)
    ensures IsLeastWait(Wait(LastAt(a, server), pausedUntil, now), a, server, pausedUntil, now)
  {
    hide LastAt, Spaced;
    if LastAt(a, server).Some? {
      LastIsOneOf(a, server);
      forall i | 0 <= i < |a| && a[i].server == server ensures a[i].at <= LastAt(a, server).value {
        LastAtIsLatest(a, i);
      }
    } else {
      NeverTried(a, server);
    }
  }

  lemma {:induction false} NeverTried(a: seq<Attempt>, server: string)
    requires LastAt(a, server).None?
    ensures forall i | 0 <= i < |a| :: a[i].server != server
  {
    if a != [] {
      NeverTried(a[..|a| - 1], server);
      assert forall i | 0 <= i < |a| - 1 :: a[..|a| - 1][i] == a[i];
    }
  }

  /** With an unchanged list, as many attempts in a row as there are servers are all at different servers, */
  lemma TurnsDiffer(a: seq<Attempt>, start: nat, n: nat)
    requires InTurn(a) && 0 < n && start + n <= |a|
    requires forall i | start <= i < start + n :: a[i].count == n
    ensures forall i, j | start <= i < j < start + n :: a[i].index != a[j].index
  {
    forall i, j | start <= i < j < start + n ensures a[i].index != a[j].index {
      TurnAfter(a, start, n, i - start);
      TurnAfter(a, start, n, j - start);
      DifferentTurns(a[start].index + (i - start), a[start].index + (j - start), n);
    }
  }

  /** and reach every one of them. */
  lemma TurnsReachAll(a: seq<Attempt>, start: nat, n: nat, x: nat) returns (i: nat)
    requires InTurn(a) && 0 < n && start + n <= |a| && x < n
    requires forall k | start <= k < start + n :: a[k].count == n
    ensures start <= i < start + n && a[i].index == x
  {
    var steps := StepsTo(a[start].index, x, n);
    TurnAfter(a, start, n, steps);
    i := start + steps;
  }

  lemma StepsTo(first: nat, x: nat, n: nat) returns (steps: nat)
    requires first < n && x < n
    ensures steps < n && (first + steps) % n == x
  {
    steps := if x >= first then x - first else x + n - first;
    if x < first {
      AddModulus(x, n);
    }
  }

  lemma AddModulus(x: int, n: int)
    requires 0 <= x < n
    ensures (x + n) % n == x
  {
  }

  lemma DifferentTurns(x: nat, y: nat, n: nat)
    requires x < y < x + n
    ensures x % n != y % n
  {
    var q, p := x / n, y / n;
    assert x == q * n + x % n && y == p * n + y % n;
    if x % n == y % n {
      assert (p - q) * n == y - x;
      MultipleTooSmall(p - q, n);
    }
  }

  lemma MultipleTooSmall(d: int, n: nat)
    requires n > 0
    ensures !(0 < d * n < n)
  {
  }

  lemma {:induction false} TurnAfter(a: seq<Attempt>, start: nat, n: nat, i: nat)
    requires InTurn(a) && 0 < n && start + n <= |a| && i < n
    requires forall k | start <= k < start + n :: a[k].count == n
    ensures a[start + i].index == (a[start].index + i) % n
  {
    if i > 0 {
      TurnAfter(a, start, n, i - 1);
      ModuloStep(a[start].index + i - 1, n);
    }
  }

  lemma ModuloStep(x: nat, n: nat)
    requires n > 0
    ensures (x % n + 1) % n == (x + 1) % n
  {
    var q, r := x / n, x % n;
    assert x == q * n + r;
    OneMoreTimes(q, n);
    NextRemainder(x, q, r, n);
  }

  lemma NextRemainder(x: nat, q: nat, r: nat, n: nat)
    requires n > 0 && r < n && x == q * n + r && (q + 1) * n == q * n + n
    ensures (r + 1) % n == (x + 1) % n
  {
    if r + 1 == n {
      ExactQuotient(x + 1, q + 1, 0, n);
    } else {
      ExactQuotient(x + 1, q, r + 1, n);
    }
  }

  lemma OneMoreTimes(q: int, n: int)
    ensures (q + 1) * n == q * n + n
  {
  }

  lemma ExactQuotient(x: nat, q: nat, r: nat, n: nat)
    requires n > 0 && x == q * n + r && r < n
    ensures x % n == r
  {
    var d := x / n - q;
    Distribute(x / n, q, n);
    MultipleTooSmall(d, n);
    MultipleTooSmall(-d, n);
  }

  lemma Distribute(p: int, q: int, n: int)
    ensures (p - q) * n == p * n - q * n && -(p - q) * n == q * n - p * n
  {
  }

  // ----- the link -----

  class Link {
    var upSince: Option<int>
    var dropNoted: bool
    var lameDuck: bool
    var tries: nat
    var lastTryAPIUp: bool
    var failedWhileAPIUp: nat
    var moving: bool
    var openedOnce: bool
    var flaps: nat
    var pausedUntil: Option<int>
    var next: nat
    var tried: map<string, int>

    /** Every call and its answer; where those since the last connect and since the last opening begin. */
    ghost var calls: seq<Call>
    ghost var attempts: seq<Attempt>
    ghost var since: nat
    ghost var opening: nat
    /** How often the connection was given up since the last opening. */
    ghost var moves: nat
    /**
     * When the last drop was counted; the drops soon after connecting since the series last ended,
     * and those taken back.
     */
    ghost var notedAt: int
    ghost var flapDrops: nat
    ghost var takenBack: nat

    /**
     * The failures counted are the run of calls that saw the API up, but for
     * its first; giving up happens at most once per opening, and not before
     * the run is long enough.
     */
    ghost predicate CountsFailures()
      reads `calls, `since, `opening, `tries, `lastTryAPIUp, `failedWhileAPIUp, `moving, `moves
    {
      && opening <= since <= |calls|
      && tries == |calls| - since
      && (tries > 0 ==> lastTryAPIUp == calls[|calls| - 1].apiUp)
      && failedWhileAPIUp == Max(0, TrailingUp(calls[since..]) - 1)
      && moves == (if moving then 1 else 0)
      && (!moving && tries > 0 ==> TrailingUp(calls[since..]) < calls[|calls| - 1].count + 3)
    }

    ghost predicate KeepsSchedule()
      reads `attempts, `next, `tried
    {
      && Spaced(attempts) && InTurn(attempts)
      && next == (if attempts == [] then 0 else attempts[|attempts| - 1].index)
      && (forall s: string :: LastAt(attempts, s) == if s in tried then Some(tried[s]) else None)
    }

    /**
     * Flaps are the drops counted less those taken back. A pause is at most a minute, and only a
     * second flap earns one.
     */
    ghost predicate PausesForFlaps()
      reads `flaps, `flapDrops, `takenBack, `pausedUntil, `notedAt
    {
      && flaps == flapDrops - takenBack
      && (pausedUntil.Some? ==> notedAt <= pausedUntil.value <= notedAt + MAX_LIVE_PAUSE)
      && (pausedUntil.Some? && pausedUntil.value > notedAt ==> flapDrops >= 2)
    }

    ghost predicate Valid()
      reads this
    {
      CountsFailures() && KeepsSchedule() && PausesForFlaps()
    }

    constructor ()
      ensures Valid() && attempts == [] && calls == [] && flaps == 0 && !lameDuck && !dropNoted
    {
      upSince, dropNoted, lameDuck, tries, lastTryAPIUp, failedWhileAPIUp := None, false, false, 0, false, 0;
      moving, openedOnce, flaps, pausedUntil, next, tried := false, false, 0, None, 0, map[];
      calls, attempts, since, opening, moves, notedAt, flapDrops, takenBack := [], [], 0, 0, 0, 0, 0, 0;
    }

    /** Counts a drop, once, whoever reports it first. */
    method NoteDrop(now: int)
      requires PausesForFlaps()
      modifies `dropNoted, `flaps, `flapDrops, `takenBack, `lameDuck, `pausedUntil, `notedAt
      ensures PausesForFlaps() && dropNoted
      ensures old(dropNoted) ==>
        && flaps == old(flaps) && lameDuck == old(lameDuck) && pausedUntil == old(pausedUntil)
        && notedAt == old(notedAt) && flapDrops == old(flapDrops) && takenBack == old(takenBack)
      ensures !old(dropNoted) ==>
        && flaps == (if !old(lameDuck) && upSince.Some? && now - upSince.value <= FLAP_WINDOW then old(flaps) + 1
              else 0)
        && pausedUntil == Some(now + Pause(flaps)) && notedAt == now && !lameDuck
    {
      if dropNoted {
        return;
      }
      dropNoted := true;
      if lameDuck || upSince.None? || now - upSince.value > FLAP_WINDOW {
        flaps := 0;
        flapDrops, takenBack := 0, 0;
      } else {
        flaps := flaps + 1;
        flapDrops := flapDrops + 1;
      }
      lameDuck := false;
      var pause := LivePause(flaps);
      PauseBounds(flaps);
      pausedUntil := Some(now + pause);
      notedAt := now;
    }

    /** Takes back the flap of a drop the server explained as its own doing. */
    method NotFlap()
      requires Valid()
      modifies `flaps, `takenBack
      ensures Valid() && flaps == (if old(flaps) > 0 then old(flaps) - 1 else 0)
      ensures takenBack == old(takenBack) + old(flaps) - flaps
    {
      if flaps > 0 {
        flaps := flaps - 1;
        takenBack := takenBack + 1;
      }
    }

    method LameDuckNoted()
      requires Valid()
      modifies `lameDuck
      ensures Valid() && lameDuck
    {
      lameDuck := true;
    }

    /** The policy's part of a connect. */
    method Remember(now: int)
      requires Valid()
      modifies `upSince, `dropNoted, `tries, `failedWhileAPIUp, `since
      ensures Valid() && upSince == Some(now) && !dropNoted && since == |calls|
    {
      hide KeepsSchedule, PausesForFlaps, TrailingUp;
      upSince, dropNoted, tries, failedWhileAPIUp := Some(now), false, 0, 0;
      since := |calls|;
      NoCallsYet(calls);
    }

    /** The policy's part of opening the connection again; says whether it was open before. */
    method Open() returns (reopen: bool)
      requires Valid()
      modifies `flaps, `flapDrops, `takenBack, `pausedUntil, `tries, `failedWhileAPIUp, `moving, `openedOnce, `since,
               `opening, `moves
      ensures Valid() && reopen == old(openedOnce) && openedOnce
      ensures flaps == 0 && pausedUntil == None && !moving && opening == since == |calls| && moves == 0
    {
      hide KeepsSchedule, CountsFailures;
      flaps, flapDrops, takenBack, pausedUntil := 0, 0, 0, None;
      ForgetTries();
      reopen := openedOnce;
      openedOnce := true;
    }

    method ForgetTries()
      requires CountsFailures()
      modifies `tries, `failedWhileAPIUp, `moving, `since, `opening, `moves
      ensures CountsFailures() && !moving && opening == since == |calls| && moves == 0
    {
      hide TrailingUp;
      tries, failedWhileAPIUp, moving := 0, 0, false;
      since, opening, moves := |calls|, |calls|, 0;
      NoCallsYet(calls);
    }

    /** Nobody has asked again before the attempts scheduled so far were due. */
    ghost predicate Respects(now: int)
      reads `attempts, `notedAt
    {
      notedAt <= now && forall i | 0 <= i < |attempts| :: attempts[i].at <= now
    }

    /**
     * Which server next, how long to wait first, and whether this is where the
     * connection of its own is given up; carrying that out is the caller's.
     */
    method NextLiveServer(servers: seq<string>, now: int, apiUp: bool) returns (pick: Option<nat>, wait: int,
                          move: bool)
      requires Valid()
      modifies this
      ensures Valid() && since == old(since) && opening == old(opening)
      ensures servers == [] ==>
        pick == None && wait == 0 && !move && calls == old(calls) && attempts == old(attempts) && moves == old(moves)
      ensures servers != [] ==>
        && pick.Some? && pick.value < |servers| && wait >= 0 && dropNoted
        && attempts == old(attempts) +
              [Attempt(servers[pick.value], pick.value, |servers|, now, now + wait, pausedUntil)]
        && calls == old(calls) + [Call(|servers|, apiUp)]
        && (move <==> !old(moving) && TrailingUp(calls[since..]) >= |servers| + 3)
        && moves == old(moves) + (if move then 1 else 0)
        && IsLeastWait(wait, old(attempts), servers[pick.value], pausedUntil, now)
        && wait == Wait(LastAt(old(attempts), servers[pick.value]), pausedUntil, now)
        && (notedAt <= now ==>
              (wait > MAX_LIVE_PAUSE <==>
               var last := LastAt(old(attempts), servers[pick.value]);
               last.Some? && last.value > now + MAX_LIVE_PAUSE - RECONNECT_WAIT))
        && (old(Respects(now)) ==> wait <= MAX_LIVE_PAUSE)
      // What the first word of a drop does to the pause; a later one leaves it.
      ensures servers == [] || old(dropNoted) ==>
        flaps == old(flaps) && lameDuck == old(lameDuck) && pausedUntil == old(pausedUntil) && notedAt == old(notedAt)
      ensures servers != [] && !old(dropNoted) ==>
        && flaps == (if !old(lameDuck) && old(upSince).Some? && now - old(upSince).value <= FLAP_WINDOW
              then old(flaps) + 1 else 0)
        && pausedUntil == Some(now + Pause(flaps)) && notedAt == now && !lameDuck
      // With an unchanged list the moment is exact: the run of calls has just become long enough.
      ensures move && (old(tries) > 0 ==> old(calls)[|old(calls)| - 1].count == |servers|) ==>
        TrailingUp(calls[since..]) == |servers| + 3
    {
      hide CountsFailures, KeepsSchedule, PausesForFlaps, Wait, LastAt, TrailingUp, IsLeastWait;
      if |servers| == 0 {
        return None, 0, false;
      }
      NoteDrop(now);
      move := CountTry(|servers|, apiUp);
      hide Respects, Pause;
      pick, wait := Schedule(servers, now);
    }

    /** Being asked again means the last attempt failed; it counts when the API's connection was up both times. */
    method CountTry(n: nat, apiUp: bool) returns (move: bool)
      requires CountsFailures() && n > 0
      modifies `calls, `tries, `lastTryAPIUp, `failedWhileAPIUp, `moving, `moves
      ensures CountsFailures() && calls == old(calls) + [Call(n, apiUp)]
      ensures move <==> !old(moving) && TrailingUp(calls[since..]) >= n + 3
      ensures moves == old(moves) + (if move then 1 else 0)
      ensures move && (old(tries) > 0 ==> old(calls)[|old(calls)| - 1].count == n) ==>
        TrailingUp(calls[since..]) == n + 3
    {
      hide TrailingUp;
      if tries > 0 && lastTryAPIUp && apiUp {
        failedWhileAPIUp := failedWhileAPIUp + 1;
      } else if !apiUp {
        failedWhileAPIUp := 0;
      }
      tries := tries + 1;
      lastTryAPIUp := apiUp;
      move := failedWhileAPIUp >= n + 2 && !moving;
      if move {
        moving := true;
        moves := moves + 1;
      }
      OneMoreCall(calls, since, Call(n, apiUp));
      calls := calls + [Call(n, apiUp)];
    }

    lemma AboutTheWait(server: string, now: int)
      requires KeepsSchedule() && PausesForFlaps()
      ensures
        var last := LastAt(attempts, server);
        var wait := Wait(last, pausedUntil, now);
        && IsLeastWait(wait, attempts, server, pausedUntil, now)
        && (notedAt <= now ==>
              (wait > MAX_LIVE_PAUSE <==> last.Some? && last.value > now + MAX_LIVE_PAUSE - RECONNECT_WAIT))
        && (Respects(now) ==> wait <= MAX_LIVE_PAUSE)
    {
      hide LastAt;
      WaitIsLeast(attempts, server, pausedUntil, now);
      if LastAt(attempts, server).Some? {
        LastIsOneOf(attempts, server);
      }
    }

    /** The servers in turn, none again too soon, and not before the pause is over. */
    method Schedule(servers: seq<string>, now: int) returns (pick: Option<nat>, wait: int)
      requires KeepsSchedule() && PausesForFlaps() && servers != []
      modifies `next, `tried, `attempts
      ensures KeepsSchedule() && pick.Some? && pick.value < |servers| && wait >= 0
      ensures attempts ==
        old(attempts) + [Attempt(servers[pick.value], pick.value, |servers|, now, now + wait, pausedUntil)]
      ensures IsLeastWait(wait, old(attempts), servers[pick.value], pausedUntil, now)
      ensures wait == Wait(LastAt(old(attempts), servers[pick.value]), pausedUntil, now)
      ensures notedAt <= now ==>
        (wait > MAX_LIVE_PAUSE <==>
         var last := LastAt(old(attempts), servers[pick.value]);
         last.Some? && last.value > now + MAX_LIVE_PAUSE - RECONNECT_WAIT)
      ensures old(Respects(now)) ==> wait <= MAX_LIVE_PAUSE
    {
      hide Spaced, InTurn, LastAt, MayTry, IsLeastWait;
      AboutTheWait(servers[(next + 1) % |servers|], now);
      next := (next + 1) % |servers|;
      var srv := servers[next];
      wait := 0;
      if srv in tried {
        LastIsOneOf(attempts, srv);
        wait := Max(RECONNECT_WAIT - (now - tried[srv]), 0);
      }
      if pausedUntil.Some? {
        wait := Max(wait, pausedUntil.value - now);
      }
      tried := tried[srv := now + wait];
      pick := Some(next);
      ghost var a := Attempt(srv, next, |servers|, now, now + wait, pausedUntil);
      OneMoreAttempt(attempts, a);
      attempts := attempts + [a];
    }
  }

  /** A caller that asks again at once after the sixth flap in a row: its wait is longer than any pause. */
  method AskedTooEarly() returns (wait: int)
    ensures wait == MAX_LIVE_PAUSE + RECONNECT_WAIT
  {
    hide Link.CountsFailures, Link.KeepsSchedule, Link.PausesForFlaps, TrailingUp, Pow2;
    var l := new Link();
    for i: nat := 0 to 6
      invariant l.Valid() && fresh(l) && l.flaps == i && !l.lameDuck && l.attempts == []
      invariant i > 0 ==> l.dropNoted && l.pausedUntil == Some(Pause(i))
    {
      l.Remember(0);
      l.NoteDrop(0);
    }
    SixFlaps();
    var pick, move;
    pick, wait, move := l.NextLiveServer(["nats://one"], 0, true);
    pick, wait, move := l.NextLiveServer(["nats://one"], 0, true);
  }

  lemma SixFlaps()
    ensures Pause(6) == MAX_LIVE_PAUSE
  {
    assert Pow2(3) == 8 && Pow2(6) == 8 * Pow2(3);
  }

  lemma PauseBounds(flaps: nat)
    ensures 0 <= Pause(flaps) <= MAX_LIVE_PAUSE && (Pause(flaps) > 0 ==> flaps >= 2)
  {
  }

  lemma OneMoreCall(calls: seq<Call>, since: nat, c: Call)
    requires since <= |calls|
    ensures TrailingUp((calls + [c])[since..]) == if c.apiUp then 1 + TrailingUp(calls[since..]) else 0
    ensures since < |calls| ==> (TrailingUp(calls[since..]) > 0 <==> calls[|calls| - 1].apiUp)
    ensures since == |calls| ==> TrailingUp(calls[since..]) == 0
  {
    var all := (calls + [c])[since..];
    assert all == calls[since..] + [c];
    assert all[..|all| - 1] == calls[since..];
  }

  lemma {:induction false} LastIsOneOf(a: seq<Attempt>, server: string)
    requires LastAt(a, server).Some?
    ensures exists i :: 0 <= i < |a| && a[i].server == server && a[i].at == LastAt(a, server).value
  {
    if a[|a| - 1].server != server {
      LastIsOneOf(a[..|a| - 1], server);
      var i :| 0 <= i < |a| - 1 && a[..|a| - 1][i].server == server && a[..|a| - 1][i].at == LastAt(a, server).value;
      assert a[i].server == server;
    }
  }

  lemma OneMoreAttempt(a: seq<Attempt>, x: Attempt)
    requires Spaced(a) && InTurn(a)
    requires x.index < x.count && x.index == (if a == [] then 1 else a[|a| - 1].index + 1) % x.count
    requires x.asked <= x.at && (x.paused.Some? ==> x.paused.value <= x.at)
    requires LastAt(a, x.server).Some? ==> LastAt(a, x.server).value + RECONNECT_WAIT <= x.at
    ensures Spaced(a + [x]) && InTurn(a + [x])
    ensures forall s: string :: LastAt(a + [x], s) == if s == x.server then Some(x.at) else LastAt(a, s)
  {
    assert (a + [x])[..|a|] == a;
    SpacedWith(a, x);
    InTurnWith(a, x);
  }

  lemma SpacedWith(a: seq<Attempt>, x: Attempt)
    requires Spaced(a) && x.asked <= x.at && (x.paused.Some? ==> x.paused.value <= x.at)
    requires LastAt(a, x.server).Some? ==> LastAt(a, x.server).value + RECONNECT_WAIT <= x.at
    ensures Spaced(a + [x])
  {
    hide LastAt;
    var all := a + [x];
    forall i, j | 0 <= i < j < |all| && all[i].server == all[j].server ensures all[i].at + RECONNECT_WAIT <= all[j].at {
      if j == |a| {
        LastAtIsLatest(a, i);
      } else {
        assert all[i] == a[i] && all[j] == a[j];
      }
    }
  }

  lemma InTurnWith(a: seq<Attempt>, x: Attempt)
    requires InTurn(a) && x.index < x.count && x.index == (if a == [] then 1 else a[|a| - 1].index + 1) % x.count
    ensures InTurn(a + [x])
  {
  }

  lemma NoCallsYet(calls: seq<Call>)
    ensures TrailingUp(calls[|calls|..]) == 0
  {
  }
}
