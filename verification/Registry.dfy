/** The schema registry client of app/services/schema_registry.py: its cache, used by one caller at a
    time and by many, and the table of clients. */
module Registry {
  import opened Common

  datatype Schema = Schema(id: int, kind: string, text: string)

  /** What the registry holds, by id; schemas are immutable. */
  type Contents = int -> Option<Schema>

  /** What a fetch may bring back: the schema, or None when the registry fails or lacks it. */
  predicate Plausible(contents: Contents, id: int, answer: Option<Schema>) {
    answer == None || answer == contents(id)
  }

  // ---- One caller at a time ----

  /** `url.rstrip("/")` */
  function WithoutSlashes(url: string): (r: string)
    ensures r <= url && (r == "" || r[|r| - 1] != '/')
    ensures forall i :: |r| <= i < |url| ==> url[i] == '/'
  {
    if url != "" && url[|url| - 1] == '/' then WithoutSlashes(url[..|url| - 1]) else url
  }

  class SchemaRegistry {
    const url: string
    const auth: string
    var cache: map<int, Option<Schema>>

    constructor (url: string, auth: string)
      ensures this.url == WithoutSlashes(url) && this.auth == auth && cache == map[]
    {
      this.url, this.auth, cache := WithoutSlashes(url), auth, map[];
    }

    ghost predicate Sound(contents: Contents)
      reads this
    {
      forall id :: id in cache ==> Plausible(contents, id, cache[id])
    }

    /** `schema_by_id`, with the answer a fetch would give now. */
    method SchemaById(id: int, fetch: Option<Schema>) returns (schema: Option<Schema>, fetched: bool)
      modifies this
      ensures fetched <==> id !in old(cache)
      ensures schema == if fetched then fetch else old(cache)[id]
      ensures cache == old(cache)[id := schema]
      ensures forall contents: Contents ::
                old(Sound(contents)) && Plausible(contents, id, fetch) ==> Sound(contents) && Plausible(contents, id, schema)
    {
      if id in cache {
        return cache[id], false;
      }
      cache := cache[id := fetch];
      return fetch, true;
    }
  }

  /** Over a run of calls by one caller, every id is fetched at most once and its answer never changes
      after the first. `fetches` are the answers the registry would give at each call. */
  method SequentialCalls(registry: SchemaRegistry, ids: seq<int>, fetches: seq<Option<Schema>>)
    returns (answers: seq<Option<Schema>>, fetched: seq<bool>)
    requires |ids| == |fetches|
    modifies registry
    ensures |answers| == |fetched| == |ids|
    ensures forall i, j :: 0 <= i < j < |ids| && ids[i] == ids[j] ==> answers[i] == answers[j] && !fetched[j]
    ensures forall i :: 0 <= i < |ids| && ids[i] in old(registry.cache) ==> !fetched[i] && answers[i] == old(registry.cache)[ids[i]]
    ensures forall i :: 0 <= i < |ids| ==> ids[i] in registry.cache && registry.cache[ids[i]] == answers[i]
  {
    answers, fetched := [], [];
    for k := 0 to |ids|
      invariant |answers| == |fetched| == k
      invariant forall id :: id in old(registry.cache) ==> id in registry.cache && registry.cache[id] == old(registry.cache)[id]
      invariant forall i :: 0 <= i < k ==> ids[i] in registry.cache && registry.cache[ids[i]] == answers[i]
      invariant forall i, j :: 0 <= i < j < k && ids[i] == ids[j] ==> answers[i] == answers[j] && !fetched[j]
      invariant forall i :: 0 <= i < k && ids[i] in old(registry.cache) ==> !fetched[i] && answers[i] == old(registry.cache)[ids[i]]
    {
      var answer, f := registry.SchemaById(ids[k], fetches[k]);
      answers, fetched := answers + [answer], fetched + [f];
    }
  }

  // ---- Many callers ----

  /** Where a caller is in `schema_by_id`: outside, past the check that missed, holding a fetched
      answer it has not stored yet, or back with a result. */
  datatype Phase = Idle | Missed(id: int) | Holding(id: int, answer: Option<Schema>) | Returned(id: int, answer: Option<Schema>)

  datatype World = World(cache: map<int, Option<Schema>>, callers: map<int, Phase>, fetches: map<int, nat>)

  /** The critical sections and the fetch between them, as single steps of one caller. */
  datatype Action = Call(caller: int, id: int) | Fetch(caller: int, up: bool) | Store(caller: int)

  function PhaseOf(w: World, caller: int): Phase {
    if caller in w.callers then w.callers[caller] else Idle
  }

  function FetchesOf(w: World, id: int): nat {
    if id in w.fetches then w.fetches[id] else 0
  }

  /** One step; a step that is not possible does nothing. A fetch brings the registry's schema when the
      registry is up, and None when it is not. */
  function Step(contents: Contents, w: World, a: Action): World {
    match a
    case Call(c, id) =>
      if PhaseOf(w, c).Missed? || PhaseOf(w, c).Holding? then w
      else if id in w.cache then w.(callers := w.callers[c := Returned(id, w.cache[id])])
      else w.(callers := w.callers[c := Missed(id)])
    case Fetch(c, up) =>
      if !PhaseOf(w, c).Missed? then w
      else
        var id := PhaseOf(w, c).id;
        w.(callers := w.callers[c := Holding(id, if up then contents(id) else None)],
           fetches := w.fetches[id := FetchesOf(w, id) + 1])
    case Store(c) =>
      if !PhaseOf(w, c).Holding? then w
      else
        var Holding(id, answer) := PhaseOf(w, c);
        w.(cache := w.cache[id := answer], callers := w.callers[c := Returned(id, answer)])
  }

  function Run(contents: Contents, w: World, actions: seq<Action>): World
    decreases |actions|
  {
    if actions == [] then w else Run(contents, Step(contents, w, actions[0]), actions[1..])
  }

  const START := World(map[], map[], map[])

  /** Every cached, held or returned answer for an id is None or the registry's schema for that id. */
  ghost predicate Sound(contents: Contents, w: World) {
    && (forall id :: id in w.cache ==> Plausible(contents, id, w.cache[id]))
    && forall c :: c in w.callers && (w.callers[c].Holding? || w.callers[c].Returned?) ==>
         Plausible(contents, w.callers[c].id, w.callers[c].answer)
  }

  lemma {:induction false} RunSound(contents: Contents, w: World, actions: seq<Action>)
    requires Sound(contents, w)
    ensures Sound(contents, Run(contents, w, actions))
    decreases |actions|
  {
    if actions != [] {
      assert Sound(contents, Step(contents, w, actions[0]));
      RunSound(contents, Step(contents, w, actions[0]), actions[1..]);
    }
  }

  /** Under any interleaving of any number of callers, no wrong schema is ever cached or returned. */
  lemma CacheIsSound(contents: Contents, actions: seq<Action>)
    ensures Sound(contents, Run(contents, START, actions))
  {
    RunSound(contents, START, actions);
  }

  /** The steps of one call that nobody interrupts. */
  function OneCall(caller: int, id: int, up: bool): seq<Action> {
    [Call(caller, id), Fetch(caller, up), Store(caller)]
  }

  lemma LoneCall(contents: Contents, w: World, caller: int, id: int, up: bool)
    requires PhaseOf(w, caller).Idle? || PhaseOf(w, caller).Returned?
    ensures var end := Run(contents, w, OneCall(caller, id, up));
            var answer := if id in w.cache then w.cache[id] else if up then contents(id) else None;
            && PhaseOf(end, caller) == Returned(id, answer)
            && end.cache == w.cache[id := answer]
            && (forall i :: FetchesOf(end, i) == FetchesOf(w, i) + if i == id && id !in w.cache then 1 else 0)
            && forall c :: c != caller ==> PhaseOf(end, c) == PhaseOf(w, c)
  {
    var called := Step(contents, w, Call(caller, id));
    var fetched := Step(contents, called, Fetch(caller, up));
    assert OneCall(caller, id, up)[1..] == [Fetch(caller, up), Store(caller)];
    RunTwo(contents, called, Fetch(caller, up), Store(caller));
    if id !in w.cache {
      assert PhaseOf(called, caller) == Missed(id);
      assert PhaseOf(fetched, caller) == Holding(id, if up then contents(id) else None);
    }
  }

  /** `schema_by_id` called by one caller while no other runs takes the client's cache where those
      steps take the world's, and returns what they return. */
  method CallAlone(registry: SchemaRegistry, contents: Contents, w: World, caller: int, id: int, up: bool)
    returns (schema: Option<Schema>, fetched: bool)
    requires registry.cache == w.cache && (PhaseOf(w, caller).Idle? || PhaseOf(w, caller).Returned?)
    modifies registry
    ensures var end := Run(contents, w, OneCall(caller, id, up));
            && registry.cache == end.cache && PhaseOf(end, caller) == Returned(id, schema)
            && FetchesOf(end, id) == FetchesOf(w, id) + if fetched then 1 else 0
  {
    LoneCall(contents, w, caller, id, up);
    schema, fetched := registry.SchemaById(id, if up then contents(id) else None);
  }

  // ---- When a cached answer is final ----

  /** The caller is about to store an answer for `id` that may differ from the cached one. */
  predicate MayOverwrite(contents: Contents, w: World, c: int, id: int)
    requires id in w.cache
  {
    match PhaseOf(w, c)
    case Missed(i) => i == id && contents(id).Some?
    case Holding(i, answer) => i == id && answer != w.cache[id]
    case _ => false
  }

  ghost predicate Settled(contents: Contents, w: World, id: int) {
    id in w.cache && forall c :: c in w.callers ==> !MayOverwrite(contents, w, c, id)
  }

  /** The answer cached for `id` is the same after `actions`. */
  predicate Keeps(contents: Contents, w: World, id: int, actions: seq<Action>)
    requires id in w.cache
  {
    var end := Run(contents, w, actions);
    id in end.cache && end.cache[id] == w.cache[id]
  }

  lemma {:induction false} SettledForever(contents: Contents, w: World, id: int, actions: seq<Action>)
    requires Settled(contents, w, id) && Sound(contents, w)
    ensures Keeps(contents, w, id, actions)
    decreases |actions|
  {
    if actions != [] {
      var next := Step(contents, w, actions[0]);
      assert Sound(contents, next);
      assert next.cache[id] == w.cache[id];
      forall c | c in next.callers ensures !MayOverwrite(contents, next, c, id) {
        assert c in w.callers ==> !MayOverwrite(contents, w, c, id);
      }
      SettledForever(contents, next, id, actions[1..]);
    }
  }

  lemma UnsettledChanges(contents: Contents, w: World, id: int, c: int) returns (actions: seq<Action>)
    requires id in w.cache && c in w.callers && MayOverwrite(contents, w, c, id) && Sound(contents, w)
    ensures !Keeps(contents, w, id, actions)
  {
    var store := [Store(c)];
    assert store[1..] == [];
    if PhaseOf(w, c).Missed? {
      var fetch := Fetch(c, w.cache[id].None?);
      actions := [fetch] + store;
      assert actions[1..] == store;
      var held := Step(contents, w, fetch);
      assert Run(contents, w, actions) == Run(contents, held, store) == Step(contents, held, Store(c));
    } else {
      actions := store;
      assert Run(contents, w, actions) == Step(contents, w, Store(c));
    }
  }

  /** "Cached forever", exactly: the answer cached for an id can still change in some continuation if
      and only if some caller that missed the cache before it was filled is still on its way to store
      a different one. */
  lemma FinalIffSettled(contents: Contents, w: World, id: int)
    requires id in w.cache && Sound(contents, w)
    ensures Settled(contents, w, id)
       <==> forall actions: seq<Action> :: Keeps(contents, w, id, actions)
  {
    if Settled(contents, w, id) {
      forall actions: seq<Action> {
        SettledForever(contents, w, id, actions);
      }
    } else {
      var c :| c in w.callers && MayOverwrite(contents, w, c, id);
      var actions := UnsettledChanges(contents, w, id, c);
    }
  }

  /** For example: two callers miss the same id; one fetches and caches the schema, the other fetches
      while the registry is down and replaces it by None, which every later caller then gets. */
  lemma RaceForgetsSchema(contents: Contents, id: int)
    requires contents(id).Some?
    ensures var stored := Run(contents, START, [Call(1, id), Call(2, id), Fetch(1, true), Store(1)]);
            && id in stored.cache && stored.cache[id] == contents(id)
            && Run(contents, stored, [Fetch(2, false), Store(2)]).cache[id] == None
  {
    var a := Step(contents, START, Call(1, id));
    var b := Step(contents, a, Call(2, id));
    var c := Step(contents, b, Fetch(1, true));
    var d := Step(contents, c, Store(1));
    RunFour(contents, START, Call(1, id), Call(2, id), Fetch(1, true), Store(1));
    var e := Step(contents, d, Fetch(2, false));
    RunTwo(contents, d, Fetch(2, false), Store(2));
    assert d.cache[id] == contents(id) && PhaseOf(d, 2) == Missed(id);
    assert PhaseOf(e, 2) == Holding(id, None);
  }

  lemma RunTwo(contents: Contents, w: World, a: Action, b: Action)
    ensures Run(contents, w, [a, b]) == Step(contents, Step(contents, w, a), b)
  {
    assert [a, b][1..] == [b] && [b][1..] == [];
    assert Run(contents, Step(contents, w, a), [b]) == Step(contents, Step(contents, w, a), b);
  }

  lemma RunFour(contents: Contents, w: World, a: Action, b: Action, c: Action, d: Action)
    ensures Run(contents, w, [a, b, c, d])
         == Step(contents, Step(contents, Step(contents, Step(contents, w, a), b), c), d)
  {
    assert [a, b, c, d][1..] == [b, c, d] && [b, c, d][1..] == [c, d];
    RunTwo(contents, Step(contents, Step(contents, w, a), b), c, d);
  }

  // ---- Callers that do not overlap on an id ----

  predicate OnTheWay(w: World, c: int) {
    c in w.callers && (w.callers[c].Missed? || w.callers[c].Holding?)
  }

  predicate InFlight(w: World, c: int, id: int) {
    OnTheWay(w, c) && w.callers[c].id == id
  }

  /** A call starts only while no other caller is between check and store for the same id. */
  ghost predicate Exclusive(w: World, a: Action) {
    a.Call? ==> forall c :: InFlight(w, c, a.id) ==> c == a.caller
  }

  ghost predicate AllExclusive(contents: Contents, w: World, actions: seq<Action>)
    decreases |actions|
  {
    actions == [] || (Exclusive(w, actions[0]) && AllExclusive(contents, Step(contents, w, actions[0]), actions[1..]))
  }

  /** At most one caller is on the way for an id, and none for a cached one. */
  ghost predicate Alone(w: World) {
    && (forall c, d :: OnTheWay(w, c) && OnTheWay(w, d) && w.callers[c].id == w.callers[d].id ==> c == d)
    && forall c :: OnTheWay(w, c) ==> w.callers[c].id !in w.cache
  }

  /** An id has been fetched exactly once if it is cached or held by a caller, and else not at all. */
  ghost predicate Counted(w: World) {
    && OnceEach(w)
    && forall id :: id in w.fetches ==> id in w.cache || exists c :: Holds(w, c, id)
  }

  predicate OnceEach(w: World) {
    forall id :: id in w.fetches ==> w.fetches[id] == 1
  }

  predicate Holds(w: World, c: int, id: int) {
    OnTheWay(w, c) && w.callers[c].Holding? && w.callers[c].id == id
  }

  ghost predicate Calm(w: World) {
    Alone(w) && Counted(w)
  }

  lemma StepAlone(contents: Contents, w: World, a: Action)
    requires Alone(w) && Exclusive(w, a)
    ensures Alone(Step(contents, w, a))
    ensures forall id :: id in w.cache ==> id in Step(contents, w, a).cache && Step(contents, w, a).cache[id] == w.cache[id]
  {
    var next := Step(contents, w, a);
    forall c, d | OnTheWay(next, c) && OnTheWay(next, d) && next.callers[c].id == next.callers[d].id
      ensures c == d
    {
      if a.Call? {
        assert c != a.caller ==> OnTheWay(w, c) && InFlight(w, c, next.callers[c].id);
        assert d != a.caller ==> OnTheWay(w, d) && InFlight(w, d, next.callers[d].id);
      } else {
        assert OnTheWay(w, c) && OnTheWay(w, d);
      }
    }
    forall c | OnTheWay(next, c) ensures next.callers[c].id !in next.cache {
      assert c != a.caller ==> OnTheWay(w, c);
      assert a.Store? && PhaseOf(w, a.caller).Holding? ==> w.callers[c].id != w.callers[a.caller].id;
    }
  }

  lemma FirstFetch(w: World, c: int)
    requires Alone(w) && Counted(w) && OnTheWay(w, c) && w.callers[c].Missed?
    ensures w.callers[c].id !in w.fetches
  {
    forall h ensures !Holds(w, h, w.callers[c].id) {
      assert OnTheWay(w, c);
    }
  }

  lemma StepCounted(contents: Contents, w: World, a: Action)
    requires Alone(w) && Counted(w) && Exclusive(w, a)
    ensures Counted(Step(contents, w, a))
  {
    var next := Step(contents, w, a);
    if a.Fetch? && PhaseOf(w, a.caller).Missed? {
      FirstFetch(w, a.caller);
      assert Holds(next, a.caller, w.callers[a.caller].id);
    }
    forall id | id in next.fetches ensures id in next.cache || exists c :: Holds(next, c, id) {
      if id in w.fetches && id !in next.cache {
        var c :| Holds(w, c, id);
        assert Holds(next, c, id);
      }
    }
  }

  /** While calls for the same id do not overlap, every id is fetched at most once and a cached answer
      never changes. */
  lemma {:induction false} ExclusiveCallsFetchOnce(contents: Contents, w: World, actions: seq<Action>)
    requires Calm(w) && AllExclusive(contents, w, actions)
    ensures var end := Run(contents, w, actions);
            && OnceEach(end)
            && forall id :: id in w.cache ==> id in end.cache && end.cache[id] == w.cache[id]
    decreases |actions|
  {
    if actions != [] {
      StepAlone(contents, w, actions[0]);
      StepCounted(contents, w, actions[0]);
      ExclusiveCallsFetchOnce(contents, Step(contents, w, actions[0]), actions[1..]);
    }
  }

  // ---- The table of clients ----

  /** `_clients`: one client per (url, auth). */
  class ClientTable {
    var clients: map<(string, string), SchemaRegistry>

    ghost predicate Valid()
      reads this
    {
      && (forall k, l :: k in clients && l in clients && k != l ==> clients[k] != clients[l])
      && forall k :: k in clients ==> clients[k].url == WithoutSlashes(k.0) && clients[k].auth == k.1
    }

    constructor ()
      ensures Valid() && clients == map[]
    {
      clients := map[];
    }

    /** `registry_for_cluster`: the cluster's own setting, else the global one; no url, no client. */
    method RegistryFor(clusterUrl: string, clusterAuth: string, defaultUrl: string, defaultAuth: string)
      returns (client: SchemaRegistry?)
      requires Valid()
      modifies this
      ensures Valid()
      ensures var url := if clusterUrl != "" then clusterUrl else defaultUrl;
              var auth := if clusterAuth != "" then clusterAuth else defaultAuth;
              if url == "" then client == null && clients == old(clients)
              else
                && client != null && (url, auth) in clients && clients[(url, auth)] == client
                && client.url == WithoutSlashes(url) && client.auth == auth
                && clients == old(clients)[(url, auth) := client]
                && ((url, auth) in old(clients) ==> client == old(clients)[(url, auth)])
                && ((url, auth) !in old(clients) ==> fresh(client) && client.cache == map[])
    {
      var url := if clusterUrl != "" then clusterUrl else defaultUrl;
      if url == "" {
        return null;
      }
      var auth := if clusterAuth != "" then clusterAuth else defaultAuth;
      var key := (url, auth);
      if key in clients {
        return clients[key];
      }
      var created := new SchemaRegistry(url, auth);
      clients := clients[key := created];
      return created;
    }
  }
}
