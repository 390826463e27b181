/**
 * The registry of browser-initiated watches (handler/live.go). Starting,
 * stopping, a client leaving and a watch ending by itself are threads of their
 * own; what they do under the lock and what they do after letting go of it are
 * separate steps, in any interleaving.
 */
module WatchRegistry {
  import opened Wrappers

  datatype Watch = Watch(client: string, key: string)

  /**
   * `registered` and `lastId` are the handler's own fields. The rest is the
   * world around it: every watch ever started (number i is element i - 1),
   * which of them are cancelled, which were taken out of the registry by a
   * thread that has yet to cancel them, which have ended and are about to
   * clean up, and which are gone.
   */
  datatype State = State(
    registered: map<string, map<string, nat>>, lastId: nat,
    watches: seq<Watch>, cancelled: set<nat>, detached: set<nat>, cleaning: set<nat>, gone: set<nat>)

  const INITIAL := State(map[], 0, [], {}, {}, {}, {})

  function Lookup(r: map<string, map<string, nat>>, client: string, key: string): Option<nat> {
    if client in r && key in r[client] then Some(r[client][key]) else None
  }

  function Without(r: map<string, map<string, nat>>, client: string, key: string): map<string, map<string, nat>> {
    if client in r then r[client := r[client] - {key}] else r
  }

  function With(r: map<string, map<string, nat>>, client: string, key: string, id: nat): map<string, map<string, nat>> {
    r[client := (if client in r then r[client] else map[])[key := id]]
  }

  function IdsOf(r: map<string, map<string, nat>>, client: string): set<nat> {
    if client in r then set k | k in r[client] :: r[client][k] else {}
  }

  // ----- steps -----

  datatype Step =
    | Start(client: string, key: string)
    | Detach(client: string, key: string)
    | DetachAll(client: string)
    | Cancel(id: nat)
    | RunEnds(id: nat)
    | Leave(id: nat)

  predicate Enabled(s: State, t: Step) {
    match t
    case Cancel(id) => id in s.detached
    case RunEnds(id) => 1 <= id <= s.lastId && id !in s.cleaning && id !in s.gone
    case Leave(id) => id in s.cleaning && 1 <= id <= |s.watches|
    case _ => true
  }

  function Next(s: State, t: Step): State
    requires Enabled(s, t)
  {
    match t
    case Start(client, key) =>
      var old' := Lookup(s.registered, client, key);
      s.(registered := With(s.registered, client, key, s.lastId + 1), lastId := s.lastId + 1,
         watches := s.watches + [Watch(client, key)],
         cancelled := s.cancelled + (if old'.Some? then {old'.value} else {}))
    case Detach(client, key) =>
      var w := Lookup(s.registered, client, key);
      if w.None? then s
      else s.(registered := Without(s.registered, client, key), detached := s.detached + {w.value})
    case DetachAll(client) =>
      s.(registered := s.registered - {client}, detached := s.detached + IdsOf(s.registered, client))
    case Cancel(id) => s.(cancelled := s.cancelled + {id}, detached := s.detached - {id})
    case RunEnds(id) => s.(cancelled := s.cancelled + {id}, cleaning := s.cleaning + {id})
    case Leave(id) =>
      var w := s.watches[id - 1];
      s.(registered := if Lookup(s.registered, w.client, w.key) == Some(id) then Without(s.registered, w.client, w.key)
        else s.registered,
         cleaning := s.cleaning - {id}, gone := s.gone + {id})
  }

  // ----- what every interleaving keeps -----

  ghost predicate IsWatch(s: State, id: nat) { 1 <= id <= |s.watches| }

  ghost predicate Registered(s: State, id: nat)
    requires IsWatch(s, id)
  {
    Lookup(s.registered, s.watches[id - 1].client, s.watches[id - 1].key) == Some(id)
  }

  ghost predicate Inv(s: State) {
    && |s.watches| == s.lastId
    // a registered watch is registered under its own name, is held by no other thread and has not gone
    && (forall c, k :: var w := Lookup(s.registered, c, k);
          w.Some? ==>
            && IsWatch(s, w.value) && s.watches[w.value - 1] == Watch(c, k)
            && w.value !in s.detached && w.value !in s.gone)
    // a watch that still runs can be found, or is about to be cancelled
    && (forall id | IsWatch(s, id) && id !in s.cancelled :: Registered(s, id) || id in s.detached)
    // one that is cancelled and still registered is on its way out by itself
    && (forall id | IsWatch(s, id) && id in s.cancelled && Registered(s, id) :: id in s.cleaning)
    && (forall id | id in s.detached || id in s.cancelled :: IsWatch(s, id))
    && (forall id | id in s.cleaning || id in s.gone :: IsWatch(s, id) && id in s.cancelled)
    && s.cleaning !! s.gone
  }

  lemma LookupWith(r: map<string, map<string, nat>>, client: string, key: string, id: nat)
    ensures forall c, k ::
      Lookup(With(r, client, key, id), c, k) == if c == client && k == key then Some(id) else Lookup(r, c, k)
  {
  }

  lemma LookupWithout(r: map<string, map<string, nat>>, client: string, key: string)
    ensures forall c, k ::
      Lookup(Without(r, client, key), c, k) == if c == client && k == key then None else Lookup(r, c, k)
  {
  }

  /** The new watch is registered; of the others, all are as before but the one it replaces. */
  lemma StartedWatches(s: State, client: string, key: string)
    requires Inv(s)
    ensures var s' := Next(s, Start(client, key));
      && (forall id | IsWatch(s', id) && id != s.lastId + 1 ::
            && IsWatch(s, id) && s'.watches[id - 1] == s.watches[id - 1]
            && (Registered(s', id) <==> Registered(s, id) && s.watches[id - 1] != Watch(client, key)))
      && IsWatch(s', s.lastId + 1) && Registered(s', s.lastId + 1)
      && (forall id | IsWatch(s, id) && Registered(s, id) && s.watches[id - 1] == Watch(client, key) ::
            id in s'.cancelled)
  {
    LookupWith(s.registered, client, key, s.lastId + 1);
    hide Lookup, With;
  }

  lemma StartKeeps(s: State, client: string, key: string)
    requires Inv(s)
    ensures Inv(Next(s, Start(client, key)))
  {
    var s' := Next(s, Start(client, key));
    StartedWatches(s, client, key);
    StartedIsFound(s, client, key);
    hide Lookup, With, Registered, Next;
  }

  /** What is found under each name, and what is as it was. */
  lemma StartedIsFound(s: State, client: string, key: string)
    requires Inv(s)
    ensures var s' := Next(s, Start(client, key));
      && |s'.watches| == s'.lastId && s'.detached == s.detached && s'.cleaning == s.cleaning && s'.gone == s.gone
      && (forall id | IsWatch(s, id) :: IsWatch(s', id))
      && s.cancelled <= s'.cancelled && (forall id | id in s'.cancelled :: IsWatch(s', id) && IsWatch(s, id))
      && (forall c, k :: var w := Lookup(s'.registered, c, k);
            w.Some? ==>
              && IsWatch(s', w.value) && s'.watches[w.value - 1] == Watch(c, k)
              && w.value !in s'.detached && w.value !in s'.gone)
  {
    LookupWith(s.registered, client, key, s.lastId + 1);
    hide Lookup, With, Registered;
  }

  lemma DetachKeeps(s: State, client: string, key: string)
    requires Inv(s)
    ensures Inv(Next(s, Detach(client, key)))
  {
    LookupWithout(s.registered, client, key);
    hide Lookup, Without;
    var s' := Next(s, Detach(client, key));
    forall id | IsWatch(s, id) ensures IsWatch(s', id) && (Registered(s', id) ==> Registered(s, id)) {
    }
  }

  lemma DetachAllKeeps(s: State, client: string)
    requires Inv(s)
    ensures Inv(Next(s, DetachAll(client)))
  {
    var s' := Next(s, DetachAll(client));
    assert forall c, k :: Lookup(s'.registered, c, k) == if c == client then None else Lookup(s.registered, c, k);
    forall id | id in IdsOf(s.registered, client) ensures IsWatch(s, id) && s.watches[id - 1].client == client {
      var k :| k in s.registered[client] && s.registered[client][k] == id;
      assert Lookup(s.registered, client, k) == Some(id);
    }
    forall id | IsWatch(s, id) && Registered(s, id) ensures Registered(s', id) || id in s'.detached {
    }
  }

  /** The leaving watch is no longer registered, and everything else is as it was. */
  lemma LeftWatches(s: State, id: nat)
    requires Inv(s) && Enabled(s, Leave(id))
    ensures var s' := Next(s, Leave(id));
      && (forall i | IsWatch(s, i) :: Registered(s', i) <==> Registered(s, i) && i != id)
      && (forall c, k :: var w := Lookup(s'.registered, c, k); w.Some? ==>
            w == Lookup(s.registered, c, k) && w.value != id)
  {
    var w := s.watches[id - 1];
    LookupWithout(s.registered, w.client, w.key);
    hide Lookup, Without;
  }

  lemma LeaveKeeps(s: State, id: nat)
    requires Inv(s) && Enabled(s, Leave(id))
    ensures Inv(Next(s, Leave(id)))
  {
    LeftWatches(s, id);
    hide Lookup, Without, Registered;
    var s' := Next(s, Leave(id));
    assert forall i :: IsWatch(s', i) <==> IsWatch(s, i);
  }

  lemma NextKeeps(s: State, t: Step)
    requires Inv(s) && Enabled(s, t)
    ensures Inv(Next(s, t))
  {
    match t
    case Start(client, key) => StartKeeps(s, client, key);
    case Detach(client, key) => DetachKeeps(s, client, key);
    case DetachAll(client) => DetachAllKeeps(s, client);
    case Leave(id) => LeaveKeeps(s, id);
    case Cancel(id) =>
    case RunEnds(id) =>
  }

  /** A state some interleaving leads to, and the steps that did. */
  ghost predicate Run(s: State, steps: seq<Step>, s': State)
    decreases |steps|
  {
    if steps == [] then s == s'
    else Enabled(s, steps[0]) && Run(Next(s, steps[0]), steps[1..], s')
  }

  lemma {:induction false} EveryInterleavingKeeps(s: State, steps: seq<Step>, s': State)
    requires Inv(s) && Run(s, steps, s')
    ensures Inv(s')
    decreases |steps|
  {
    if steps != [] {
      NextKeeps(s, steps[0]);
      EveryInterleavingKeeps(Next(s, steps[0]), steps[1..], s');
    }
  }

  /**
   * However the threads interleave: of the watches a client has under one key,
   * at most one runs without a thread about to cancel it, and that one is the
   * registered one, so it can still be stopped.
   */
  lemma AtMostOneRuns(steps: seq<Step>, s: State, a: nat, b: nat)
    requires Run(INITIAL, steps, s)
    requires IsWatch(s, a) && IsWatch(s, b) && s.watches[a - 1] == s.watches[b - 1]
    requires a !in s.cancelled + s.detached && b !in s.cancelled + s.detached
    ensures a == b && Registered(s, a)
  {
    assert Inv(INITIAL);
    EveryInterleavingKeeps(INITIAL, steps, s);
  }

  /** A watch that is gone has left nothing behind in the registry. */
  lemma GoneIsForgotten(steps: seq<Step>, s: State, id: nat)
    requires Run(INITIAL, steps, s) && id in s.gone
    ensures forall c, k :: Lookup(s.registered, c, k) != Some(id)
  {
    assert Inv(INITIAL);
    EveryInterleavingKeeps(INITIAL, steps, s);
  }

  ghost predicate NoStartOf(client: string, steps: seq<Step>) {
    forall t | t in steps :: t.Start? ==> t.client != client
  }

  lemma {:induction false} StaysUnregistered(client: string, s: State, steps: seq<Step>, s': State)
    requires Run(s, steps, s') && NoStartOf(client, steps) && forall k :: Lookup(s.registered, client, k) == None
    ensures forall k :: Lookup(s'.registered, client, k) == None
    decreases |steps|
  {
    if steps != [] {
      assert steps[0] in steps;
      NextLeavesUnregistered(client, s, steps[0]);
      StaysUnregistered(client, Next(s, steps[0]), steps[1..], s');
    }
  }

  lemma NextLeavesUnregistered(client: string, s: State, t: Step)
    requires Enabled(s, t) && (t.Start? ==> t.client != client) && forall k :: Lookup(s.registered, client, k) == None
    ensures forall k :: Lookup(Next(s, t).registered, client, k) == None
  {
    match t
    case Start(c, key) => LookupWith(s.registered, c, key, s.lastId + 1);
    case Detach(c, key) => LookupWithout(s.registered, c, key);
    case DetachAll(c) =>
      assert forall k :: Lookup(s.registered - {c}, client, k) == None by {
        forall k ensures Lookup(s.registered - {c}, client, k) == None {
          assert Lookup(s.registered, client, k) == None;
        }
      }
    case Leave(id) =>
      var w := s.watches[id - 1];
      LookupWithout(s.registered, w.client, w.key);
    case Cancel(id) =>
    case RunEnds(id) =>
  }

  /**
   * Once a client has disconnected and starts nothing more, every watch it
   * ever had is cancelled as soon as the threads that took them out are done.
   */
  lemma DisconnectStopsEverything(client: string, before: seq<Step>, s: State, after: seq<Step>, s': State, id: nat)
    requires Run(INITIAL, before, s) && Run(Next(s, DetachAll(client)), after, s') && NoStartOf(client, after)
    requires IsWatch(s', id) && s'.watches[id - 1].client == client && id !in s'.detached
    ensures id in s'.cancelled
  {
    assert Inv(INITIAL);
    EveryInterleavingKeeps(INITIAL, before, s);
    NextKeeps(s, DetachAll(client));
    EveryInterleavingKeeps(Next(s, DetachAll(client)), after, s');
    StaysUnregistered(client, Next(s, DetachAll(client)), after, s');
  }

  // ----- the handler -----

  class LiveHandler {
    var watchers: map<string, map<string, nat>>
    var seqNo: nat
    ghost var world: State

    ghost predicate Valid()
      reads this
    {
      world.registered == watchers && world.lastId == seqNo && Inv(world)
    }

    constructor ()
      ensures Valid() && world == INITIAL
    {
      watchers, seqNo, world := map[], 0, INITIAL;
    }

    /** Replaces a watch of the same name, which is cancelled under the lock. */
    method StartLocked(client: string, key: string) returns (id: nat)
      requires Valid()
      modifies this
      ensures Valid() && world == Next(old(world), Start(client, key))
      ensures id == seqNo == old(seqNo) + 1 && Registered(world, id) && id !in world.cancelled
      ensures forall c, k ::
        Lookup(watchers, c, k) == if c == client && k == key then Some(id) else Lookup(old(watchers), c, k)
      ensures world.detached == old(world).detached
      ensures
        var replaced := Lookup(old(watchers), client, key);
        world.cancelled == old(world).cancelled + (if replaced.Some? then {replaced.value} else {})
    {
      LookupWith(watchers, client, key, seqNo + 1);
      NextKeeps(world, Start(client, key));
      var ws := if client in watchers then watchers[client] else map[];
      seqNo := seqNo + 1;
      watchers := watchers[client := ws[key := seqNo]];
      id := seqNo;
      world := Next(world, Start(client, key));
    }

    /** Takes the watch out; cancelling it is the next step of the same thread. */
    method StopLocked(client: string, key: string) returns (found: Option<nat>)
      requires Valid()
      modifies this
      ensures Valid() && world == Next(old(world), Detach(client, key))
      ensures found == Lookup(old(watchers), client, key)
      ensures forall c, k ::
        Lookup(watchers, c, k) == if c == client && k == key then None else Lookup(old(watchers), c, k)
      ensures world.detached == old(world).detached + (if found.Some? then {found.value} else {})
      ensures world.cancelled == old(world).cancelled
    {
      LookupWithout(watchers, client, key);
      NextKeeps(world, Detach(client, key));
      world := Next(world, Detach(client, key));
      if client in watchers && key in watchers[client] {
        found := Some(watchers[client][key]);
        watchers := watchers[client := watchers[client] - {key}];
      } else {
        found := None;
      }
    }

    /** Takes all of a client's watches out. */
    method StopAllLocked(client: string) returns (found: map<string, nat>)
      requires Valid()
      modifies this
      ensures Valid() && world == Next(old(world), DetachAll(client))
      ensures forall k :: Lookup(old(watchers), client, k) == if k in found then Some(found[k]) else None
      ensures forall c, k :: Lookup(watchers, c, k) == if c == client then None else Lookup(old(watchers), c, k)
      ensures world.detached == old(world).detached + found.Values && world.cancelled == old(world).cancelled
      ensures client !in watchers
    {
      NextKeeps(world, DetachAll(client));
      world := Next(world, DetachAll(client));
      found := if client in watchers then watchers[client] else map[];
      watchers := watchers - {client};
    }

    /** The end of a watch's own goroutine, which removes its entry unless a newer watch has taken it. */
    method LeaveLocked(client: string, key: string, id: nat)
      requires Valid() && id in world.cleaning && world.watches[id - 1] == Watch(client, key)
      modifies this
      ensures Valid() && world == Next(old(world), Leave(id))
      ensures forall c, k ::
        Lookup(watchers, c, k) == if Lookup(old(watchers), c, k) == Some(id) then None else Lookup(old(watchers), c, k)
      ensures world.detached == old(world).detached && world.cancelled == old(world).cancelled
      ensures world.gone == old(world).gone + {id}
    {
      NextKeeps(world, Leave(id));
      LookupWithout(watchers, client, key);
      world := Next(world, Leave(id));
      if client in watchers && key in watchers[client] && watchers[client][key] == id {
        watchers := watchers[client := watchers[client] - {key}];
      }
    }
  }
}
