/**
 * The agent: its endpoint cache, its assigned models, and how it routes an inference request.
 */
module Agents {
  import opened Types
  import opened Balancer
  import opened Heartbeat

  datatype Assignment = Assignment(replicaId: string, modelId: string)

  type Cache = map<string, seq<EndpointDetail>>

  /** The cache built from a table; a later element for the same model wins. */
  function CacheOf(table: seq<ServiceEndpoints>): Cache {
    if table == [] then map[]
    else
      var last := table[|table| - 1];
      CacheOf(table[..|table| - 1])[last.modelId := last.endpoints]
  }

  function Endpoints(cache: Cache, modelId: string): seq<EndpointDetail> {
    if modelId in cache then cache[modelId] else []
  }

  function Local(mine: seq<Assignment>, modelId: string): Option<string> {
    if mine == [] then None
    else if mine[0].modelId == modelId then Some(mine[0].replicaId)
    else Local(mine[1..], modelId)
  }

  /** What a request leads to: local inference, an error, or a call to a peer marked as forwarded. */
  datatype Decision = RunLocally(replicaId: string) | Refuse | Forward(target: EndpointDetail)

  /** The decision and the balancer's cursor afterwards. */
  ghost function Decide(
      mine: seq<Assignment>, cache: Cache, c: Cursor, modelId: string, forwarded: bool): (r: (Decision, Cursor))
    requires ValidCursor(c)
    ensures ValidCursor(r.1)
  {
    var healthy := Healthy(Endpoints(cache, modelId));
    if Local(mine, modelId).Some? then (RunLocally(Local(mine, modelId).value), c)
    else if forwarded || healthy == [] then (Refuse, c)
    else
      var d := PickCursor(Weights(healthy), c);
      (Forward(healthy[d.index]), d)
  }

  /** The local replica is that of the first assignment of the model, if there is one. */
  lemma {:induction false} LocalIsFirst(mine: seq<Assignment>, modelId: string)
    ensures Local(mine, modelId).Some? <==> exists m :: m in mine && m.modelId == modelId
    ensures Local(mine, modelId).Some? ==>
              exists i :: && 0 <= i < |mine| && mine[i] == Assignment(Local(mine, modelId).value, modelId)
                          && forall j :: 0 <= j < i ==> mine[j].modelId != modelId
  {
    if mine == [] {
    } else if mine[0].modelId == modelId {
      assert mine[0] in mine && mine[0] == Assignment(Local(mine, modelId).value, modelId);
    } else {
      var rest := mine[1..];
      LocalIsFirst(rest, modelId);
      if m :| m in mine && m.modelId == modelId {
        assert m in rest;
      }
      if Local(rest, modelId).Some? {
        var i :| && 0 <= i < |rest| && rest[i] == Assignment(Local(rest, modelId).value, modelId)
                 && forall j :: 0 <= j < i ==> rest[j].modelId != modelId;
        assert mine[i + 1] == rest[i] && mine[i + 1] in mine;
        forall j | 0 <= j < i + 1 ensures mine[j].modelId != modelId {
          assert j > 0 ==> mine[j] == rest[j - 1];
        }
      }
    }
  }

  /** What an agent does, in terms of its assignments and its cache. */
  lemma {:induction false} DecisionIsRight(
      mine: seq<Assignment>, cache: Cache, c: Cursor, modelId: string, forwarded: bool)
    requires ValidCursor(c)
    ensures var (d, after) := Decide(mine, cache, c, modelId, forwarded);
            && (d.RunLocally? <==> exists m :: m in mine && m.modelId == modelId)
            && (d.RunLocally? ==>
                  exists i :: && 0 <= i < |mine| && mine[i] == Assignment(d.replicaId, modelId)
                              && forall j :: 0 <= j < i ==> mine[j].modelId != modelId)
            && (d.Forward? <==> && !(exists m :: m in mine && m.modelId == modelId) && !forwarded
                                && modelId in cache && exists e :: e in cache[modelId] && e.healthy)
            && (d.Forward? ==> d.target.healthy && d.target in cache[modelId])
            && (!d.Forward? ==> after == c)
            && (d.Forward? ==>
                  && Picked(Weights(Healthy(cache[modelId])), c, after, Iterations(Weights(Healthy(cache[modelId])), c))
                  && d.target == Healthy(cache[modelId])[after.index])
  {
    LocalIsFirst(mine, modelId);
    var healthy := Healthy(Endpoints(cache, modelId));
    if modelId in cache && healthy != [] {
      assert healthy[0] in healthy;
      PickIsFirstReturn(Weights(healthy), c);
      PickIsHealthy(cache[modelId], c);
    } else if modelId in cache {
      assert forall e :: e in cache[modelId] ==> (e.healthy ==> e in healthy);
    }
  }

  class Agent {
    var assignedModels: seq<Assignment>
    var endpointCache: Cache
    const lb: WeightedRoundRobin

    ghost predicate Valid()
      reads this, lb
    {
      lb.Valid()
    }

    constructor ()
      ensures Valid() && fresh(lb) && assignedModels == [] && endpointCache == map[] && lb.Fields() == FRESH
    {
      assignedModels, endpointCache := [], map[];
      lb := new WeightedRoundRobin();
    }

    method UpdateEndpoints(table: seq<ServiceEndpoints>)
      modifies this`endpointCache
      ensures endpointCache == CacheOf(table)
    {
      var newCache: Cache := map[];
      for i := 0 to |table|
        invariant newCache == CacheOf(table[..i])
      {
        assert table[..i + 1][..i] == table[..i];
        newCache := newCache[table[i].modelId := table[i].endpoints];
      }
      assert table[..|table|] == table;
      endpointCache := newCache;
    }

    /** A heartbeat request replaces the cache only if its table is not empty. */
    method RequestHeartbeat(table: seq<ServiceEndpoints>) returns (reported: seq<Assignment>)
      modifies this`endpointCache
      ensures endpointCache == AfterTable(old(endpointCache), table)
      ensures reported == assignedModels
    {
      if |table| > 0 {
        UpdateEndpoints(table);
      }
      reported := assignedModels;
    }

    method GetEndpoints(modelId: string) returns (eps: seq<EndpointDetail>)
      ensures eps == Endpoints(endpointCache, modelId)
    {
      eps := if modelId in endpointCache then endpointCache[modelId] else [];
    }

    /** Adds a replica; the same replica ID is refused. */
    method AssignModel(a: Assignment) returns (r: Result<()>)
      modifies this`assignedModels
      ensures r.Err? <==> exists m :: m in old(assignedModels) && m.replicaId == a.replicaId
      ensures assignedModels == if r.Ok? then old(assignedModels) + [a] else old(assignedModels)
    {
      for i := 0 to |assignedModels|
        invariant assignedModels == old(assignedModels)
        invariant forall j :: 0 <= j < i ==> assignedModels[j].replicaId != a.replicaId
      {
        if assignedModels[i].replicaId == a.replicaId {
          assert assignedModels[i] in assignedModels;
          return Err;
        }
      }
      assignedModels := assignedModels + [a];
      return Ok(());
    }

    method FindLocal(modelId: string) returns (replicaId: Option<string>)
      ensures replicaId == Local(assignedModels, modelId)
    {
      assert assignedModels[0..] == assignedModels;
      for i := 0 to |assignedModels|
        invariant Local(assignedModels[i..], modelId) == Local(assignedModels, modelId)
      {
        assert assignedModels[i..][1..] == assignedModels[i + 1..];
        if assignedModels[i].modelId == modelId {
          return Some(assignedModels[i].replicaId);
        }
      }
      return None;
    }

    /**
     * Decides a request: an agent with the model runs it on the first assignment of the model,
     * forwarded or not; any other refuses a forwarded request or one without a healthy endpoint, and
     * forwards the rest to the endpoint its balancer picks among those cached.
     */
    method HandleInfer(modelId: string, isForwarded: bool) returns (d: Decision)
      requires Valid()
      modifies lb
      ensures Valid()
      ensures (d, lb.Fields()) == Decide(assignedModels, endpointCache, old(lb.Fields()), modelId, isForwarded)
      ensures d.RunLocally? <==> exists m :: m in assignedModels && m.modelId == modelId
      ensures d.RunLocally? ==>
                exists i :: && 0 <= i < |assignedModels| && assignedModels[i] == Assignment(d.replicaId, modelId)
                            && forall j :: 0 <= j < i ==> assignedModels[j].modelId != modelId
      ensures d.Forward? ==> !isForwarded && d.target.healthy && modelId in endpointCache
                             && d.target in endpointCache[modelId]
      ensures d.Refuse? ==> isForwarded || modelId !in endpointCache
                            || forall e :: e in endpointCache[modelId] ==> !e.healthy
    {
      DecisionIsRight(assignedModels, endpointCache, lb.Fields(), modelId, isForwarded);
      var here := FindLocal(modelId);
      if here.Some? {
        return RunLocally(here.value);
      }
      if isForwarded {
        return Refuse;
      }
      var endpoints := GetEndpoints(modelId);
      if |endpoints| == 0 {
        return Refuse;
      }
      var target;
      ghost var iterations;
      target, iterations := lb.Pick(endpoints);
      if target.Err? {
        return Refuse;
      }
      return Forward(target.value);
    }
  }

  // ----- Cache agreement -----

  function AfterTable(cache: Cache, table: seq<ServiceEndpoints>): Cache {
    if table == [] then cache else CacheOf(table)
  }

  function AfterTables(cache: Cache, tables: seq<seq<ServiceEndpoints>>): Cache {
    if tables == [] then cache
    else AfterTable(AfterTables(cache, tables[..|tables| - 1]), tables[|tables| - 1])
  }

  lemma {:induction false} CacheHolds(table: seq<ServiceEndpoints>, modelId: string)
    requires forall i, j :: 0 <= i < j < |table| ==> table[i].modelId != table[j].modelId
    ensures modelId in CacheOf(table) <==> exists i :: 0 <= i < |table| && table[i].modelId == modelId
    ensures forall i :: 0 <= i < |table| && table[i].modelId == modelId ==>
          Endpoints(CacheOf(table), modelId) == table[i].endpoints
  {
    if table == [] {
    } else {
      var last := |table| - 1;
      CacheHolds(table[..last], modelId);
      assert forall i :: 0 <= i < last ==> table[..last][i] == table[i];
      if table[last].modelId != modelId && modelId in CacheOf(table) {
        var i :| 0 <= i < last && table[..last][i].modelId == modelId;
        assert table[i].modelId == modelId;
      }
      if i :| 0 <= i < last && table[i].modelId == modelId {
        assert table[..last][i].modelId == modelId;
      }
    }
  }

  /** For any table, the cache gives the endpoints of the last element for the model, or none. */
  lemma {:induction false} LastElementWins(table: seq<ServiceEndpoints>, modelId: string)
    ensures modelId in CacheOf(table) <==> exists i :: 0 <= i < |table| && table[i].modelId == modelId
    ensures forall i :: && 0 <= i < |table| && table[i].modelId == modelId
                        && (forall j :: i < j < |table| ==> table[j].modelId != modelId) ==>
              CacheOf(table)[modelId] == table[i].endpoints
  {
    if table == [] {
    } else {
      var last := |table| - 1;
      var rest := table[..last];
      LastElementWins(rest, modelId);
      assert forall i :: 0 <= i < last ==> rest[i] == table[i];
      if table[last].modelId != modelId {
        if i :| 0 <= i < last && table[i].modelId == modelId {
          assert rest[i].modelId == modelId;
        }
        forall i | && 0 <= i < |table| && table[i].modelId == modelId
                   && (forall j :: i < j < |table| ==> table[j].modelId != modelId)
          ensures modelId in CacheOf(table) && CacheOf(table)[modelId] == table[i].endpoints
        {
          assert rest[i].modelId == modelId;
          assert forall j :: i < j < |rest| ==> rest[j].modelId != modelId;
        }
      }
    }
  }

  /** For a table the control plane builds, the cache looks up exactly the model's endpoints. */
  lemma {:induction false} CacheAgreesWithTable(table: seq<ServiceEndpoints>, es: seq<Entry>, modelId: string)
    requires IsTable(table, es)
    ensures Endpoints(CacheOf(table), modelId) == Select(es, modelId)
  {
    CacheHolds(table, modelId);
    if Select(es, modelId) != [] {
      var i :| 0 <= i < |table| && table[i].modelId == modelId;
    }
  }

  /** After any run of heartbeat requests the cache is that of the last non-empty table received. */
  lemma {:induction false} CacheIsLastTable(cache: Cache, tables: seq<seq<ServiceEndpoints>>, k: nat)
    requires k < |tables| && tables[k] != [] && forall i :: k < i < |tables| ==> tables[i] == []
    ensures AfterTables(cache, tables) == CacheOf(tables[k])
  {
    var last := |tables| - 1;
    if k < last {
      assert tables[last] == [];
      CacheIsLastTable(cache, tables[..last], k);
    }
  }

  /** Empty tables change nothing. */
  lemma {:induction false} EmptyTablesKeepCache(cache: Cache, tables: seq<seq<ServiceEndpoints>>)
    requires forall i :: 0 <= i < |tables| ==> tables[i] == []
    ensures AfterTables(cache, tables) == cache
  {
    if tables == [] {
    } else {
      assert tables[|tables| - 1] == [];
      EmptyTablesKeepCache(cache, tables[..|tables| - 1]);
    }
  }

  // ----- A network of agents -----

  type Address = (string, int)

  datatype AgentState = AgentState(mine: seq<Assignment>, cache: Cache, cursor: Cursor)

  type Network = map<Address, AgentState>

  datatype Outcome = Served(at: Address, replicaId: string) | NotServed

  datatype Hop = Hop(source: Address, target: EndpointDetail)

  ghost predicate ValidNetwork(net: Network) {
    forall a :: a in net ==> ValidCursor(net[a].cursor)
  }

  function AddressOf(e: EndpointDetail): Address {
    (e.ip, e.port)
  }

  /** A request at an agent, followed through the network until it is answered. */
  ghost function Infer(net: Network, at: Address, modelId: string, forwarded: bool): (r: (Network, Outcome, seq<Hop>))
    requires ValidNetwork(net)
    decreases !forwarded
  {
    if at !in net then (net, NotServed, [])
    else
      var a := net[at];
      var (d, c) := Decide(a.mine, a.cache, a.cursor, modelId, forwarded);
      match d
      case RunLocally(id) => (net, Served(at, id), [])
      case Refuse => (net, NotServed, [])
      case Forward(target) =>
        var (after, outcome, hops) := Infer(net[at := a.(cursor := c)], AddressOf(target), modelId, true);
        (after, outcome, [Hop(at, target)] + hops)
  }

  /** The agent is there and has a replica of the model. */
  ghost predicate Assigned(net: Network, at: Address, modelId: string) {
    at in net && exists m :: m in net[at].mine && m.modelId == modelId
  }

  /** The first replica of the model an agent was assigned. */
  ghost predicate IsFirstAssigned(mine: seq<Assignment>, modelId: string, replicaId: string) {
    exists i :: && 0 <= i < |mine| && mine[i] == Assignment(replicaId, modelId)
                && forall j :: 0 <= j < i ==> mine[j].modelId != modelId
  }

  lemma {:induction false} LocalIsAssigned(mine: seq<Assignment>, modelId: string)
    ensures Local(mine, modelId).Some? ==> Assignment(Local(mine, modelId).value, modelId) in mine
  {
    if mine != [] && mine[0].modelId != modelId {
      LocalIsAssigned(mine[1..], modelId);
    } else if mine != [] {
      assert mine[0] in mine;
    }
  }

  /** A request that was forwarded goes nowhere else and changes nothing. */
  lemma {:induction false} ForwardedGoesNoFurther(net: Network, at: Address, modelId: string)
    requires ValidNetwork(net)
    ensures Infer(net, at, modelId, true).0 == net && Infer(net, at, modelId, true).2 == []
    ensures var o := Infer(net, at, modelId, true).1;
            o.Served? ==> o.at == at && at in net && Assignment(o.replicaId, modelId) in net[at].mine
  {
    if at in net {
      LocalIsAssigned(net[at].mine, modelId);
    }
  }

  /**
   * In any network, whatever its caches hold - stale, cyclic or naming the agent itself - a
   * request makes at most one hop; the hop's target is a healthy cached endpoint of the model,
   * an answer comes from the first agent or that target, which has the model assigned, and only
   * the first agent's balancer moves.
   */
  lemma {:induction false} ForwardedAtMostOnce(net: Network, at: Address, modelId: string)
    requires ValidNetwork(net)
    ensures var (after, outcome, hops) := Infer(net, at, modelId, false);
            && |hops| <= 1
            && ValidNetwork(after) && after.Keys == net.Keys
            && (forall a :: a in net ==> after[a].mine == net[a].mine && after[a].cache == net[a].cache
                                         && (a != at ==> after[a] == net[a]))
            && (hops != [] ==> && hops[0].source == at && at in net
                               && !Assigned(net, at, modelId)
                               && hops[0].target in Endpoints(net[at].cache, modelId) && hops[0].target.healthy)
            && (outcome.Served? ==>
                  && outcome.at == (if hops == [] then at else (hops[0].target.ip, hops[0].target.port))
                  && outcome.at in net && Assignment(outcome.replicaId, modelId) in net[outcome.at].mine)
  {
    if at in net {
      LocalIsFirst(net[at].mine, modelId);
      var a := net[at];
      LocalIsAssigned(a.mine, modelId);
      var (d, c) := Decide(a.mine, a.cache, a.cursor, modelId, false);
      if d.Forward? {
        assert d.target in Healthy(Endpoints(a.cache, modelId));
        var moved := net[at := a.(cursor := c)];
        ForwardedGoesNoFurther(moved, AddressOf(d.target), modelId);
      }
    }
  }

  lemma {:induction false} ForwardedIsServed(net: Network, at: Address, modelId: string)
    requires ValidNetwork(net)
    ensures var (after, outcome, hops) := Infer(net, at, modelId, true);
            && (Assigned(net, at, modelId) ==>
                  outcome.Served? && outcome.at == at && IsFirstAssigned(net[at].mine, modelId, outcome.replicaId))
            && (!Assigned(net, at, modelId) ==> outcome == NotServed)
  {
    if at in net {
      LocalIsFirst(net[at].mine, modelId);
    }
  }

  /**
   * What becomes of a request: an agent with the model serves it, with its first replica of it and no
   * hop; any other, if it knows a healthy endpoint of the model, makes one hop to the one its balancer
   * picks, where it is served if and only if the agent at that address has the model.
   */
  lemma {:induction false} RequestIsServed(net: Network, at: Address, modelId: string)
    requires ValidNetwork(net)
    ensures var (after, outcome, hops) := Infer(net, at, modelId, false);
            var known := at in net && modelId in net[at].cache && exists e :: e in net[at].cache[modelId] && e.healthy;
            && (Assigned(net, at, modelId) ==>
                  && hops == [] && outcome.Served? && outcome.at == at
                  && IsFirstAssigned(net[at].mine, modelId, outcome.replicaId))
            && (!Assigned(net, at, modelId) && !known ==> hops == [] && outcome == NotServed)
            && (!Assigned(net, at, modelId) && known ==>
                  && |hops| == 1 && hops[0].source == at
                  && hops[0].target in net[at].cache[modelId] && hops[0].target.healthy
                  && var there := (hops[0].target.ip, hops[0].target.port);
                     && (Assigned(net, there, modelId) ==>
                           && outcome.Served? && outcome.at == there
                           && IsFirstAssigned(net[there].mine, modelId, outcome.replicaId))
                     && (!Assigned(net, there, modelId) ==> outcome == NotServed))
  {
    if at in net {
      var a := net[at];
      DecisionIsRight(a.mine, a.cache, a.cursor, modelId, false);
      var (d, c) := Decide(a.mine, a.cache, a.cursor, modelId, false);
      if d.Forward? {
        var moved, there := net[at := a.(cursor := c)], AddressOf(d.target);
        assert there in moved <==> there in net;
        assert there in net ==> moved[there].mine == net[there].mine;
        ForwardedIsServed(moved, there, modelId);
        ForwardedGoesNoFurther(moved, there, modelId);
      }
    }
  }
}
