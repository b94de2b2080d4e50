/**
 * Where requests are forwarded over whole runs: tables, the caches agents hold, and what was live
 * when.
 */
module Routing {
  import opened Types
  import opened Balancer
  import opened Records
  import opened Registry
  import opened Queries
  import opened Heartbeat
  import opened Sweeps
  import opened Agents
  import opened Cluster
  import opened Lifecycle

  // ----- Invariant -----

  /** The look-ups made so far for a table are the first ones owed. */
  ghost predicate LooksOk(listed: DB, online: seq<NodeInfo>, looks: seq<Look>) {
    && WellFormed(listed) && Listing(listed, {Online}, online)
    && |looks| <= |Owed(online)|
    && forall i :: 0 <= i < |looks| ==>
         WellFormed(looks[i].db) && (looks[i].node, looks[i].id) == Owed(online)[i]
  }

  ghost predicate BuildOk(b: Build) {
    && LooksOk(b.listed, b.online, b.looks) && |b.looks| == |Owed(b.online)|
    && IsTable(b.table, LookEntries(b.looks))
  }

  /** Every agent's cache is that of the build it holds; without one, it is empty. */
  ghost predicate NetOk(builds: seq<Build>, held: map<Address, nat>, net: Network) {
    && ValidNetwork(net) && held.Keys <= net.Keys
    && (forall x :: x in net ==> CacheIsHeld(builds, HeldBy(held, x), net[x].cache))
  }

  predicate CacheIsHeld(builds: seq<Build>, held: Option<nat>, cache: Cache) {
    match held
    case None => cache == map[]
    case Some(b) => b < |builds| && cache == CacheOf(builds[b].table)
  }

  /** The target is one that the recorded build's table gives for the model. */
  predicate SentOk(builds: seq<Build>, f: Sent) {
    && f.build.Some? && f.build.value < |builds|
    && f.target in Endpoints(CacheOf(builds[f.build.value].table), f.modelId)
  }

  ghost predicate SentsOk(builds: seq<Build>, forwards: seq<Sent>) {
    forall i :: 0 <= i < |forwards| ==> SentOk(builds, forwards[i])
  }

  ghost predicate BuildsOk(builds: seq<Build>) {
    forall i :: 0 <= i < |builds| ==> BuildOk(builds[i])
  }

  ghost predicate SweepOk(x: Sweeper) {
    x.Looking? ==> LooksOk(x.listed, x.online, x.looks)
  }

  ghost predicate RoutingOk(s: State) {
    SweepOk(s.sweeper) && BuildsOk(s.builds) && NetOk(s.builds, s.held, s.net) && SentsOk(s.builds, s.forwards)
  }

  // ----- Every step keeps it -----

  lemma {:induction false} SweepKept(s: State, a: Action)
    requires StoreOk(s) && SweepOk(s.sweeper) && Enabled(s, a)
    ensures SweepOk(NextSweeper(s, a))
  {
    if a.ListOnline? {
      assert LooksOk(s.db, a.online, []);
    } else if a.LookUp? {
      LooksGrow(s.sweeper.listed, s.sweeper.online, s.sweeper.looks, s.db);
    }
  }

  lemma {:induction false} LooksGrow(listed: DB, online: seq<NodeInfo>, looks: seq<Look>, db: DB)
    requires LooksOk(listed, online, looks) && |looks| < |Owed(online)| && WellFormed(db)
    ensures var owed := Owed(online)[|looks|];
            LooksOk(listed, online, looks + [Look(owed.0, owed.1, db)])
  {
  }

  lemma {:induction false} MoreBuilds(
      builds: seq<Build>, b: Build, held: map<Address, nat>, net: Network, sent: seq<Sent>)
    requires BuildsOk(builds) && NetOk(builds, held, net) && SentsOk(builds, sent) && BuildOk(b)
    ensures BuildsOk(builds + [b]) && NetOk(builds + [b], held, net) && SentsOk(builds + [b], sent)
  {
    forall x | x in net ensures CacheIsHeld(builds + [b], HeldBy(held, x), net[x].cache) {
      assert CacheIsHeld(builds, HeldBy(held, x), net[x].cache);
    }
    forall i | 0 <= i < |sent| ensures SentOk(builds + [b], sent[i]) {
      assert SentOk(builds, sent[i]);
    }
  }

  /** An agent whose cache is that of its build may be added or changed. */
  lemma {:induction false} ChangeAgent(
      builds: seq<Build>, held: map<Address, nat>, net: Network, x: Address, a: AgentState, h: map<Address, nat>)
    requires NetOk(builds, held, net) && ValidNetwork(map[x := a])
    requires h.Keys <= held.Keys + {x} && forall y :: y != x ==> HeldBy(h, y) == HeldBy(held, y)
    requires CacheIsHeld(builds, HeldBy(h, x), a.cache)
    ensures NetOk(builds, h, net[x := a])
  {
    var after := net[x := a];
    assert map[x := a][x] == a;
    forall y | y in after ensures CacheIsHeld(builds, HeldBy(h, y), after[y].cache) {
      if y != x {
        assert CacheIsHeld(builds, HeldBy(held, y), net[y].cache);
      }
    }
  }

  lemma {:induction false} DeliverKeeps(builds: seq<Build>, held: map<Address, nat>, net: Network, x: Address, b: nat)
    requires NetOk(builds, held, net) && x in net && b < |builds|
    ensures NetOk(builds, if builds[b].table == [] then held else held[x := b],
                  net[x := net[x].(cache := AfterTable(net[x].cache, builds[b].table))])
  {
    var h := if builds[b].table == [] then held else held[x := b];
    assert CacheIsHeld(builds, HeldBy(held, x), net[x].cache);
    ChangeAgent(builds, held, net, x, net[x].(cache := AfterTable(net[x].cache, builds[b].table)), h);
  }

  lemma {:induction false} JoinKeeps(
      builds: seq<Build>, held: map<Address, nat>, net: Network, x: Address, mine: seq<Assignment>)
    requires NetOk(builds, held, net)
    ensures NetOk(builds, held - {x}, net[x := AgentState(mine, map[], FRESH)])
  {
    ChangeAgent(builds, held, net, x, AgentState(mine, map[], FRESH), held - {x});
  }

  lemma {:induction false} AssignKeeps(
      builds: seq<Build>, held: map<Address, nat>, net: Network, x: Address, mine: seq<Assignment>)
    requires NetOk(builds, held, net) && x in net
    ensures NetOk(builds, held, net[x := net[x].(mine := mine)])
  {
    assert CacheIsHeld(builds, HeldBy(held, x), net[x].cache);
    ChangeAgent(builds, held, net, x, net[x].(mine := mine), held);
  }

  /** What a request makes of the network. */
  lemma {:induction false} RequestKeepsNet(
      builds: seq<Build>, held: map<Address, nat>, net: Network, x: Address, modelId: string)
    requires NetOk(builds, held, net)
    ensures NetOk(builds, held, Infer(net, x, modelId, false).0)
  {
    var after := Infer(net, x, modelId, false).0;
    ForwardedAtMostOnce(net, x, modelId);
    forall y | y in after ensures CacheIsHeld(builds, HeldBy(held, y), after[y].cache) {
      assert CacheIsHeld(builds, HeldBy(held, y), net[y].cache);
    }
  }

  /** What a request sends. */
  lemma {:induction false} HopIsHeld(
      builds: seq<Build>, held: map<Address, nat>, net: Network, x: Address, modelId: string)
    requires NetOk(builds, held, net)
    ensures var hops := Infer(net, x, modelId, false).2;
            |hops| <= 1 && (hops != [] ==> SentOk(builds, Sent(x, modelId, hops[0].target, HeldBy(held, x))))
  {
    ForwardedAtMostOnce(net, x, modelId);
    if x in net {
      assert CacheIsHeld(builds, HeldBy(held, x), net[x].cache);
    }
  }

  lemma {:induction false} RequestKeepsSents(s: State, x: Address, modelId: string)
    requires NetOk(s.builds, s.held, s.net) && SentsOk(s.builds, s.forwards)
    ensures SentsOk(s.builds, NextAgents(s, Request(x, modelId)).2)
  {
    var after := NextAgents(s, Request(x, modelId)).2;
    HopIsHeld(s.builds, s.held, s.net, x, modelId);
    forall i | 0 <= i < |after| ensures SentOk(s.builds, after[i]) {
      if i < |s.forwards| {
        assert SentOk(s.builds, s.forwards[i]);
      }
    }
  }

  lemma {:induction false} AgentsKept(s: State, a: Action)
    requires RoutingOk(s) && Enabled(s, a)
    ensures NetOk(s.builds, NextAgents(s, a).1, NextAgents(s, a).0) && SentsOk(s.builds, NextAgents(s, a).2)
  {
    match a
    case Deliver(x, b) => DeliverKeeps(s.builds, s.held, s.net, x, b);
    case Join(x, mine) => JoinKeeps(s.builds, s.held, s.net, x, mine);
    case Assign(x, m) => AssignKeeps(s.builds, s.held, s.net, x, s.net[x].mine + [m]);
    case Request(x, m) =>
      RequestKeepsNet(s.builds, s.held, s.net, x, m);
      RequestKeepsSents(s, x, m);
    case _ =>
  }

  lemma {:induction false} RoutingKept(s: State, a: Action)
    requires StoreOk(s) && RoutingOk(s) && Enabled(s, a)
    ensures RoutingOk(Next(s, a))
  {
    SweepKept(s, a);
    AgentsKept(s, a);
    if a.ListPolled? {
      var x := s.sweeper;
      MoreBuilds(s.builds, Build(x.listed, x.online, x.looks, a.table), s.held, s.net, s.forwards);
    }
  }

  lemma {:induction false} ReachedOk(s: State, actions: seq<Action>)
    requires Initial(s) && CanRun(s, actions)
    ensures StoreOk(Run(s, actions)) && RoutingOk(Run(s, actions))
  {
    RunKeeps(s, actions);
  }

  lemma {:induction false} RunKeeps(s: State, actions: seq<Action>)
    requires StoreOk(s) && RoutingOk(s) && CanRun(s, actions)
    ensures StoreOk(Run(s, actions)) && RoutingOk(Run(s, actions))
    decreases |actions|
  {
    if actions == [] {
    } else {
      StoreKept(s, actions[0]);
      RoutingKept(s, actions[0]);
      RunKeeps(Next(s, actions[0]), actions[1..]);
    }
  }

  // ----- What a table holds -----

  lemma {:induction false} EntryWasLooked(looks: seq<Look>, e: Entry) returns (i: nat)
    requires e in LookEntries(looks)
    ensures i < |looks| && e in EntryOf(looks[i].db, looks[i].node, looks[i].id)
  {
    if looks == [] {
      assert false;
    } else {
      var rest, last := looks[..|looks| - 1], looks[|looks| - 1];
      if e in LookEntries(rest) {
        i := EntryWasLooked(rest, e);
      } else {
        i := |looks| - 1;
      }
    }
  }

  /** The look-up found the replica running, for this endpoint of the model. */
  ghost predicate WasFound(b: Build, l: Look, modelId: string, e: EndpointDetail) {
    && l in b.looks && l.node in b.online && l.id in l.node.assignedModels
    && e == EndpointOf(l.node, l.id) && RunsModel(l.db, l.id, modelId)
  }

  lemma {:induction false} TableWasFound(b: Build, modelId: string, e: EndpointDetail) returns (l: Look)
    requires BuildOk(b) && e in Select(LookEntries(b.looks), modelId)
    ensures WasFound(b, l, modelId, e)
  {
    SelectedIsEntry(LookEntries(b.looks), modelId, e);
    var i := EntryWasLooked(b.looks, (modelId, e));
    l := b.looks[i];
    OwedIsListed(b.online, i);
    EntryIsRunning(l.db, l.node, l.id, (modelId, e));
  }

  // ----- When -----

  /** The run's store after its first i actions, by when n tables have been built. */
  ghost predicate StoreAt(s: State, actions: seq<Action>, i: nat, n: nat, db: DB) {
    && i <= |actions| && CanRun(s, actions[..i])
    && Run(s, actions[..i]).db == db && |Run(s, actions[..i]).builds| == n
  }

  /** With n tables built, the run goes through the one store and then, then or later, through the other. */
  ghost predicate InOrder(s: State, actions: seq<Action>, n: nat, before: DB, after: DB) {
    exists i, j :: i <= j && StoreAt(s, actions, i, n, before) && StoreAt(s, actions, j, n, after)
  }

  ghost predicate LooksInOrder(s: State, actions: seq<Action>, n: nat, listed: DB, looks: seq<Look>) {
    forall i :: 0 <= i < |looks| ==> InOrder(s, actions, n, listed, looks[i].db)
  }

  /** Every table was built from stores the run went through between the table before it and itself. */
  ghost predicate Timely(s: State, actions: seq<Action>, t: State) {
    && (t.sweeper.Looking? ==>
          InOrder(s, actions, |t.builds|, t.sweeper.listed, t.sweeper.listed)
          && LooksInOrder(s, actions, |t.builds|, t.sweeper.listed, t.sweeper.looks))
    && (forall b :: 0 <= b < |t.builds| ==> LooksInOrder(s, actions, b, t.builds[b].listed, t.builds[b].looks))
  }

  lemma {:induction false} StoreStays(s: State, actions: seq<Action>, a: Action, i: nat, n: nat, db: DB)
    requires StoreAt(s, actions, i, n, db)
    ensures StoreAt(s, actions + [a], i, n, db)
  {
    assert (actions + [a])[..i] == actions[..i];
  }

  lemma {:induction false} OrderStays(s: State, actions: seq<Action>, a: Action, n: nat, before: DB, after: DB)
    requires InOrder(s, actions, n, before, after)
    ensures InOrder(s, actions + [a], n, before, after)
  {
    var i, j :| i <= j && StoreAt(s, actions, i, n, before) && StoreAt(s, actions, j, n, after);
    StoreStays(s, actions, a, i, n, before);
    StoreStays(s, actions, a, j, n, after);
  }

  /** What the run went through comes before where it is now. */
  lemma {:induction false} NowIsLast(s: State, actions: seq<Action>, n: nat, before: DB, now: DB)
    requires CanRun(s, actions) && Run(s, actions).db == now && |Run(s, actions).builds| == n
    ensures InOrder(s, actions, n, now, now)
    ensures InOrder(s, actions, n, before, before) ==> InOrder(s, actions, n, before, now)
  {
    assert actions[..|actions|] == actions;
    assert StoreAt(s, actions, |actions|, n, now);
  }

  lemma {:induction false} LooksStay(s: State, actions: seq<Action>, a: Action, n: nat, listed: DB, looks: seq<Look>)
    requires LooksInOrder(s, actions, n, listed, looks)
    ensures LooksInOrder(s, actions + [a], n, listed, looks)
  {
    forall i | 0 <= i < |looks| ensures InOrder(s, actions + [a], n, listed, looks[i].db) {
      OrderStays(s, actions, a, n, listed, looks[i].db);
    }
  }

  lemma {:induction false} BuildsStay(s: State, actions: seq<Action>, a: Action, t: State)
    requires Timely(s, actions, t)
    ensures Timely(s, actions + [a], t)
  {
    forall b | 0 <= b < |t.builds| ensures LooksInOrder(s, actions + [a], b, t.builds[b].listed, t.builds[b].looks) {
      LooksStay(s, actions, a, b, t.builds[b].listed, t.builds[b].looks);
    }
    if t.sweeper.Looking? {
      OrderStays(s, actions, a, |t.builds|, t.sweeper.listed, t.sweeper.listed);
      LooksStay(s, actions, a, |t.builds|, t.sweeper.listed, t.sweeper.looks);
    }
  }

  lemma {:induction false} OneMoreLook(
      s: State, actions: seq<Action>, n: nat, listed: DB, looks: seq<Look>, l: Look)
    requires LooksInOrder(s, actions, n, listed, looks) && InOrder(s, actions, n, listed, l.db)
    ensures LooksInOrder(s, actions, n, listed, looks + [l])
  {
    forall i | 0 <= i < |looks + [l]| ensures InOrder(s, actions, n, listed, (looks + [l])[i].db) {
      if i < |looks| {
        assert (looks + [l])[i] == looks[i];
      }
    }
  }

  lemma {:induction false} LookIsTimely(s: State, actions: seq<Action>, t: State)
    requires CanRun(s, actions) && t == Run(s, actions) && Timely(s, actions, t) && Enabled(t, LookUp)
    ensures var x := NextSweeper(t, LookUp); LooksInOrder(s, actions, |t.builds|, x.listed, x.looks)
  {
    var x, n := t.sweeper, |t.builds|;
    var owed := Owed(x.online)[|x.looks|];
    NowIsLast(s, actions, n, x.listed, t.db);
    OneMoreLook(s, actions, n, x.listed, x.looks, Look(owed.0, owed.1, t.db));
  }

  lemma {:induction false} BuildIsTimely(s: State, actions: seq<Action>, t: State, a: Action)
    requires Timely(s, actions, t) && Enabled(t, a)
    ensures forall b :: 0 <= b < |NextBuilds(t, a)| ==>
              LooksInOrder(s, actions, b, NextBuilds(t, a)[b].listed, NextBuilds(t, a)[b].looks)
  {
    forall b | 0 <= b < |NextBuilds(t, a)|
      ensures LooksInOrder(s, actions, b, NextBuilds(t, a)[b].listed, NextBuilds(t, a)[b].looks)
    {
      if b < |t.builds| {
        assert NextBuilds(t, a)[b] == t.builds[b];
      }
    }
  }

  /** A step taken from the end of a run leaves the history of its tables true of that run. */
  lemma {:induction false} StepIsTimely(s: State, actions: seq<Action>, t: State, a: Action)
    requires CanRun(s, actions) && t == Run(s, actions) && Timely(s, actions, t) && Enabled(t, a)
    ensures Timely(s, actions, Next(t, a))
  {
    BuildIsTimely(s, actions, t, a);
    assert Next(t, a).builds == NextBuilds(t, a);
    if a.ListOnline? {
      NowIsLast(s, actions, |t.builds|, t.db, t.db);
    } else if a.LookUp? {
      LookIsTimely(s, actions, t);
    }
  }

  lemma {:induction false} LastStep(s: State, actions: seq<Action>) returns (before: seq<Action>, a: Action)
    requires CanRun(s, actions) && actions != []
    ensures before == actions[..|actions| - 1] && actions == before + [a]
    ensures CanRun(s, before) && Enabled(Run(s, before), a) && Run(s, actions) == Next(Run(s, before), a)
  {
    before, a := actions[..|actions| - 1], actions[|actions| - 1];
    assert actions == before + [a];
    RunConcat(s, before, [a]);
    RunOne(Run(s, before), a);
  }

  lemma {:induction false} RunIsTimely(s: State, actions: seq<Action>)
    requires Initial(s) && CanRun(s, actions)
    ensures Timely(s, actions, Run(s, actions))
    decreases |actions|
  {
    if actions == [] {
    } else {
      var before, a := LastStep(s, actions);
      RunIsTimely(s, before);
      StepIsTimely(s, before, Run(s, before), a);
      BuildsStay(s, before, a, Run(s, actions));
    }
  }

  /** The endpoint is an online node of the store that lists the replica. */
  ghost predicate OnlineIn(db: DB, e: EndpointDetail) {
    exists n :: && IsNode(db, n) && n.status == Online
                && e.replicaId in n.assignedModels && e == EndpointOf(n, e.replicaId)
  }

  /**
   * At moment i of the run, after the build before number n, this build began by listing the store's
   * nodes, the endpoint's online node among them; at moment j, not before i and before the build was
   * done, it looked the endpoint's replica up and found it running the model.
   */
  ghost predicate BuiltFrom(
      s: State, actions: seq<Action>, n: nat, b: Build, modelId: string, e: EndpointDetail, i: nat, j: nat, l: Look)
  {
    && i <= j && StoreAt(s, actions, i, n, b.listed) && StoreAt(s, actions, j, n, l.db)
    && WasFound(b, l, modelId, e)
    && OnlineIn(b.listed, e) && RunsModel(l.db, e.replicaId, modelId)
  }

  lemma {:induction false} FoundInOrder(
      s: State, actions: seq<Action>, n: nat, b: Build, l: Look, modelId: string, e: EndpointDetail)
    returns (i: nat, j: nat)
    requires BuildOk(b) && WasFound(b, l, modelId, e) && LooksInOrder(s, actions, n, b.listed, b.looks)
    ensures BuiltFrom(s, actions, n, b, modelId, e, i, j, l)
  {
    var k :| 0 <= k < |b.looks| && b.looks[k] == l;
    assert InOrder(s, actions, n, b.listed, b.looks[k].db);
    i, j :| i <= j && StoreAt(s, actions, i, n, b.listed) && StoreAt(s, actions, j, n, l.db);
    ListingIsExact(b.listed, {Online}, b.online);
    assert IsNode(b.listed, l.node) && l.node.status == Online;
    assert e.replicaId == l.id;
  }

  // ----- A node that is not online -----

  ghost predicate Names(table: seq<ServiceEndpoints>, id: string) {
    exists i, e :: 0 <= i < |table| && e in table[i].endpoints && e.nodeId == id
  }

  ghost predicate Lists(nodes: seq<NodeInfo>, id: string) {
    exists n :: n in nodes && n.id == id
  }

  /** A table names only nodes its building started with. */
  lemma {:induction false} TableNamesListed(b: Build, id: string)
    requires BuildOk(b) && !Lists(b.online, id)
    ensures !Names(b.table, id)
  {
    forall i, e | 0 <= i < |b.table| && e in b.table[i].endpoints ensures e.nodeId != id {
      var l := TableWasFound(b, b.table[i].modelId, e);
    }
  }

  /** The build with number b was not started with this node listed, as far as it has started. */
  ghost predicate StartsWithout(s: State, id: string, b: nat) {
    |s.builds| <= b && (s.sweeper.Looking? && Lists(s.sweeper.online, id) ==> |s.builds| < b)
  }

  /**
   * A known node that is not online - in particular one that has failed a poll - is named by no
   * table whose building starts later in the run, as long as no update request writes a status that
   * is not the stored one any more.
   */
  lemma {:induction false} NotOnlineIsNotRouted(s: State, actions: seq<Action>, id: string, b: nat)
    requires StoreOk(s) && RoutingOk(s) && Fits(s, id) && CanRun(s, actions) && NoStale(s, actions, id)
    requires id in s.used && StatusOf(s.db, id) != Some(Online)
    requires StartsWithout(s, id, b) && b < |Run(s, actions).builds|
    ensures !Names(Run(s, actions).builds[b].table, id)
    decreases |actions|
  {
    if actions == [] {
      assert false;
    } else {
      var a, t := actions[0], Next(s, actions[0]);
      RoutingKept(s, a);
      StaysNotOnline(s, a, id);
      if a.ListPolled? && b == |s.builds| {
        assert BuildOk(t.builds[b]);
        TableNamesListed(t.builds[b], id);
        BuildsAreKept(t, actions[1..], b);
      } else {
        StillWithout(s, a, id, b);
        NotOnlineIsNotRouted(t, actions[1..], id, b);
      }
    }
  }

  lemma {:induction false} StaysNotOnline(s: State, a: Action, id: string)
    requires StoreOk(s) && Fits(s, id) && Enabled(s, a) && !Stale(s, a, id)
    requires id in s.used && StatusOf(s.db, id) != Some(Online)
    ensures StoreOk(Next(s, a)) && Fits(Next(s, a), id) && id in Next(s, a).used
    ensures StatusOf(Next(s, a).db, id) != Some(Online)
  {
    StoreKept(s, a);
    FitsKept(s, a, id);
    StepMoves(s, a, id);
    StoreNext(s, a);
  }

  lemma {:induction false} StillWithout(s: State, a: Action, id: string, b: nat)
    requires StoreOk(s) && Enabled(s, a) && StatusOf(s.db, id) != Some(Online) && StartsWithout(s, id, b)
    requires !(a.ListPolled? && b == |s.builds|)
    ensures StartsWithout(Next(s, a), id, b)
  {
    if a.ListOnline? {
      ListedIsOnline(s.db, a.online, id);
    }
  }

  lemma {:induction false} ListedIsOnline(db: DB, online: seq<NodeInfo>, id: string)
    requires WellFormed(db) && Listing(db, {Online}, online) && StatusOf(db, id) != Some(Online)
    ensures !Lists(online, id)
  {
    ListingIsExact(db, {Online}, online);
    forall n | n in online ensures n.id != id {
      assert IsNode(db, n);
    }
  }

  lemma {:induction false} BuildsAreKept(s: State, actions: seq<Action>, b: nat)
    requires CanRun(s, actions) && b < |s.builds|
    ensures b < |Run(s, actions).builds| && Run(s, actions).builds[b] == s.builds[b]
    decreases |actions|
  {
    if actions == [] {
    } else {
      BuildsAreKept(Next(s, actions[0]), actions[1..], b);
    }
  }

  /**
   * In every run from an initial state, once a node has failed a poll no table built later names it,
   * as long as no update request writes a status of it that is not the stored one any more.
   */
  lemma {:induction false} MissedIsNotRouted(
      s: State, before: seq<Action>, decidedAt: Time, markedAt: Time, after: seq<Action>, b: nat)
    requires Initial(s) && CanRun(s, before + [PollFails(decidedAt, markedAt)] + after)
    ensures CanRun(s, before) && Run(s, before).pending != []
    ensures var t, all := Run(s, before), before + [PollFails(decidedAt, markedAt)] + after;
            var id := t.pending[0].id;
            NoStale(s, all, id) && |t.builds| <= b < |Run(s, all).builds| ==> !Names(Run(s, all).builds[b].table, id)
  {
    var miss := PollFails(decidedAt, markedAt);
    var all := before + [miss] + after;
    RunConcat(s, before + [miss], after);
    RunConcat(s, before, [miss]);
    var t := Run(s, before);
    RunOne(t, miss);
    var id := t.pending[0].id;
    if NoStale(s, all, id) && |t.builds| <= b < |Run(s, all).builds| {
      NoStaleConcat(s, before + [miss], after, id);
      NoStaleConcat(s, before, [miss], id);
      InitialFits(s, id);
      RunKeeps(s, before + [miss]);
      FitsRun(s, before + [miss], id);
      StoreRunKeeps(s, before);
      MissTakesNodeOut(t, decidedAt, markedAt);
      StoreNext(t, miss);
      NotOnlineIsNotRouted(Next(t, miss), after, id, b);
    }
  }

  // ----- The build an agent holds -----

  /** The build held after a step: that of a table delivered that is not empty; none after a start. */
  ghost function Supplied(s: State, a: Action, x: Address, before: Option<nat>): Option<nat>
    requires Enabled(s, a)
  {
    if a.Deliver? && a.agent == x && s.builds[a.build].table != [] then Some(a.build)
    else if a.Join? && a.agent == x then None
    else before
  }

  /** The build of the last table that is not empty delivered to the agent since it started, if any. */
  ghost function LastSupplied(s: State, actions: seq<Action>, x: Address, before: Option<nat>): Option<nat>
    requires CanRun(s, actions)
    decreases |actions|
  {
    if actions == [] then before
    else LastSupplied(Next(s, actions[0]), actions[1..], x, Supplied(s, actions[0], x, before))
  }

  lemma {:induction false} HeldIsLastSupplied(s: State, actions: seq<Action>, x: Address)
    requires CanRun(s, actions)
    ensures HeldBy(Run(s, actions).held, x) == LastSupplied(s, actions, x, HeldBy(s.held, x))
    decreases |actions|
  {
    if actions == [] {
    } else {
      assert HeldBy(Next(s, actions[0]).held, x) == Supplied(s, actions[0], x, HeldBy(s.held, x));
      HeldIsLastSupplied(Next(s, actions[0]), actions[1..], x);
    }
  }

  /**
   * After every run each agent's cache is that of the last table delivered to it since it started
   * that was not empty, and empty without one.
   */
  lemma {:induction false} CachesAreLastSupplied(s: State, actions: seq<Action>, x: Address)
    requires Initial(s) && CanRun(s, actions) && x in Run(s, actions).net
    ensures var t := Run(s, actions);
            CacheIsHeld(t.builds, LastSupplied(s, actions, x, None), t.net[x].cache)
  {
    RunKeeps(s, actions);
    HeldIsLastSupplied(s, actions, x);
    var t := Run(s, actions);
    assert CacheIsHeld(t.builds, HeldBy(t.held, x), t.net[x].cache);
  }

  // ----- What a forwarded request relied on -----

  /** At moment m the request reached its source, which then held the build recorded and its table. */
  ghost predicate ForwardedAt(s: State, actions: seq<Action>, m: nat, f: Sent) {
    && m < |actions| && actions[m] == Request(f.source, f.modelId)
    && CanRun(s, actions[..m])
    && var t := Run(s, actions[..m]);
       && f.source in t.net && f.build == LastSupplied(s, actions[..m], f.source, None)
       && f.build.Some? && f.build.value < |t.builds|
       && t.net[f.source].cache == CacheOf(t.builds[f.build.value].table)
       && f.target in Endpoints(t.net[f.source].cache, f.modelId)
  }

  lemma {:induction false} RequestForwards(t: State, x: Address, modelId: string)
    requires RoutingOk(t)
    ensures var sent := NextAgents(t, Request(x, modelId)).2;
            sent == t.forwards
            || (&& sent == t.forwards + [sent[|t.forwards|]]
                && var f := sent[|t.forwards|];
                   && f.source == x && f.modelId == modelId && f.build == HeldBy(t.held, x)
                   && x in t.net && f.target in Endpoints(t.net[x].cache, modelId))
  {
    ForwardedAtMostOnce(t.net, x, modelId);
  }

  lemma {:induction false} HeldByNow(s: State, actions: seq<Action>, x: Address, modelId: string, e: EndpointDetail)
    requires Initial(s) && CanRun(s, actions) && x in Run(s, actions).net
    requires e in Endpoints(Run(s, actions).net[x].cache, modelId)
    ensures var t, held := Run(s, actions), LastSupplied(s, actions, x, None);
            && held == HeldBy(t.held, x) && held.Some? && held.value < |t.builds|
            && t.net[x].cache == CacheOf(t.builds[held.value].table)
  {
    HeldIsLastSupplied(s, actions, x);
    CachesAreLastSupplied(s, actions, x);
  }

  lemma {:induction false} ForwardedStays(s: State, before: seq<Action>, a: Action, m: nat, f: Sent)
    requires ForwardedAt(s, before, m, f)
    ensures ForwardedAt(s, before + [a], m, f)
  {
    assert (before + [a])[..m] == before[..m] && (before + [a])[m] == before[m];
  }

  /** Only a request adds a forward, and the one it adds is its own. */
  lemma {:induction false} NewForward(t: State, a: Action, k: nat)
    requires RoutingOk(t) && Enabled(t, a) && k < |Next(t, a).forwards|
    ensures var f := Next(t, a).forwards[k];
            if k < |t.forwards| then f == t.forwards[k]
            else && a == Request(f.source, f.modelId) && f.build == HeldBy(t.held, f.source)
                 && f.source in t.net && f.target in Endpoints(t.net[f.source].cache, f.modelId)
  {
    if a.Request? {
      RequestForwards(t, a.agent, a.modelId);
    } else {
      assert NextAgents(t, a).2 == t.forwards;
    }
  }

  lemma {:induction false} ForwardedNow(s: State, before: seq<Action>, f: Sent)
    requires Initial(s) && CanRun(s, before)
    requires var t := Run(s, before);
             && f.source in t.net && f.build == HeldBy(t.held, f.source)
             && f.target in Endpoints(t.net[f.source].cache, f.modelId)
    ensures ForwardedAt(s, before + [Request(f.source, f.modelId)], |before|, f)
  {
    assert (before + [Request(f.source, f.modelId)])[..|before|] == before;
    HeldByNow(s, before, f.source, f.modelId, f.target);
  }

  lemma {:induction false} ForwardMoment(s: State, actions: seq<Action>, k: nat) returns (m: nat)
    requires Initial(s) && CanRun(s, actions) && k < |Run(s, actions).forwards|
    ensures ForwardedAt(s, actions, m, Run(s, actions).forwards[k])
    decreases |actions|
  {
    NoneForwardedYet(s, actions);
    var before, a := LastStep(s, actions);
    var t, f := Run(s, before), Run(s, actions).forwards[k];
    LastForward(s, before, a, k);
    if k < |t.forwards| {
      m := ForwardMoment(s, before, k);
      ForwardedStays(s, before, a, m, f);
    } else {
      m := |before|;
      ForwardedNow(s, before, f);
    }
  }

  lemma {:induction false} NoneForwardedYet(s: State, actions: seq<Action>)
    requires Initial(s) && CanRun(s, actions)
    ensures actions == [] ==> Run(s, actions).forwards == []
  {
  }

  lemma {:induction false} LastForward(s: State, before: seq<Action>, a: Action, k: nat)
    requires Initial(s) && CanRun(s, before) && Enabled(Run(s, before), a)
    requires k < |Next(Run(s, before), a).forwards|
    ensures var t, f := Run(s, before), Next(Run(s, before), a).forwards[k];
            if k < |t.forwards| then f == t.forwards[k]
            else && a == Request(f.source, f.modelId) && f.build == HeldBy(t.held, f.source)
                 && f.source in t.net && f.target in Endpoints(t.net[f.source].cache, f.modelId)
  {
    ReachedOk(s, before);
    NewForward(Run(s, before), a, k);
  }

  lemma {:induction false} BuildsGrow(s: State, actions: seq<Action>, i: nat, j: nat)
    requires i <= j <= |actions| && CanRun(s, actions[..j])
    ensures CanRun(s, actions[..i]) && |Run(s, actions[..i]).builds| <= |Run(s, actions[..j]).builds|
    decreases j
  {
    if i == j {
    } else {
      var before, a := LastStep(s, actions[..j]);
      assert before == actions[..j - 1];
      BuildsGrow(s, actions, i, j - 1);
    }
  }

  lemma {:induction false} BuildStays(s: State, actions: seq<Action>, i: nat, b: nat)
    requires CanRun(s, actions) && i <= |actions| && CanRun(s, actions[..i]) && b < |Run(s, actions[..i]).builds|
    ensures b < |Run(s, actions).builds| && Run(s, actions).builds[b] == Run(s, actions[..i]).builds[b]
  {
    assert actions == actions[..i] + actions[i..];
    RunConcat(s, actions[..i], actions[i..]);
    BuildsAreKept(Run(s, actions[..i]), actions[i..], b);
  }

  /**
   * Over every run, every forwarded request was sent, at a moment m, to an endpoint that the table
   * last supplied to its agent gives for the model.  While that very table was being built - after
   * the table before it - the store's nodes were listed with the target's node online and listing
   * the replica (moment i), and then the replica was looked up and found running the model (moment
   * j), all before m.
   */
  lemma {:induction false} RoutingSafety(s: State, actions: seq<Action>, k: nat)
    returns (i: nat, j: nat, m: nat, l: Look)
    requires Initial(s) && CanRun(s, actions) && k < |Run(s, actions).forwards|
    ensures ForwardedAt(s, actions, m, Run(s, actions).forwards[k])
    ensures var t, f := Run(s, actions), Run(s, actions).forwards[k];
            && f.build.Some? && f.build.value < |t.builds|
            && f.target in Endpoints(CacheOf(t.builds[f.build.value].table), f.modelId)
            && BuiltFrom(s, actions, f.build.value, t.builds[f.build.value], f.modelId, f.target, i, j, l)
    ensures i <= j < m
  {
    var t, f := Run(s, actions), Run(s, actions).forwards[k];
    m := ForwardMoment(s, actions, k);
    var n := f.build.value;
    BuildStays(s, actions, m, n);
    RunKeeps(s, actions);
    RunIsTimely(s, actions);
    var b := t.builds[n];
    assert BuildOk(b);
    CacheAgreesWithTable(b.table, LookEntries(b.looks), f.modelId);
    l := TableWasFound(b, f.modelId, f.target);
    i, j := FoundInOrder(s, actions, n, b, l, f.modelId, f.target);
    if m <= j {
      BuildsGrow(s, actions, m, j);
      assert false;
    }
  }

  // ----- Requests are forwarded -----

  /** An agent that has not the model but knows a healthy endpoint of it forwards the request, once. */
  lemma {:induction false} RequestIsForwarded(s: State, x: Address, modelId: string)
    requires ValidNetwork(s.net) && x in s.net && !Assigned(s.net, x, modelId)
    requires modelId in s.net[x].cache && exists e :: e in s.net[x].cache[modelId] && e.healthy
    ensures var t := Next(s, Request(x, modelId));
            && |t.forwards| == |s.forwards| + 1 && t.forwards[..|s.forwards|] == s.forwards
            && t == s.(net := t.net, forwards := t.forwards)
            && var f := t.forwards[|s.forwards|];
               && f.source == x && f.modelId == modelId && f.build == HeldBy(s.held, x)
               && f.target in s.net[x].cache[modelId] && f.target.healthy
  {
    RequestIsServed(s.net, x, modelId);
  }

  lemma {:induction false} SelectedExists(es: seq<Entry>, modelId: string)
    ensures Select(es, modelId) != [] <==> exists i :: 0 <= i < |es| && es[i].0 == modelId
  {
    if es == [] {
    } else {
      var last := |es| - 1;
      SelectedExists(es[..last], modelId);
      if i :| 0 <= i < |es| && es[i].0 == modelId && i < last {
        assert es[..last][i].0 == modelId;
      }
    }
  }

  /** Some table of the entries. */
  lemma {:induction false} SomeTable(es: seq<Entry>) returns (table: seq<ServiceEndpoints>)
    ensures IsTable(table, es)
  {
    var models := KeySequence(set i | 0 <= i < |es| :: es[i].0);
    table := seq(|models|, i requires 0 <= i < |models| => ServiceEndpoints(models[i], Select(es, models[i])));
    forall i | 0 <= i < |table| ensures Select(es, table[i].modelId) != [] {
      assert models[i] in models;
      SelectedExists(es, models[i]);
    }
    forall m | Select(es, m) != [] ensures exists i :: 0 <= i < |table| && table[i].modelId == m {
      SelectedExists(es, m);
      assert m in models;
      var i :| 0 <= i < |models| && models[i] == m;
      assert table[i].modelId == m;
    }
  }

  lemma {:induction false} LiveIsSelected(db: DB, online: seq<NodeInfo>, n: NodeInfo, id: string, modelId: string)
    requires WellFormed(db) && Listing(db, {Online}, online) && IsNode(db, n) && n.status == Online
    requires id in n.assignedModels && RunsModel(db, id, modelId)
    ensures EndpointOf(n, id) in Select(Entries(db, online), modelId)
  {
    TableIsExact(db, online, modelId, n, id);
    CountIsIn(n.assignedModels, id);
    CountIsIn(Select(Entries(db, online), modelId), EndpointOf(n, id));
  }

  lemma {:induction false} CountIsIn<T>(s: seq<T>, x: T)
    ensures Count(s, x) > 0 <==> x in s
  {
    if s == [] {
    } else {
      CountIsIn(s[1..], x);
      assert s == [s[0]] + s[1..];
    }
  }

  /**
   * If an online node lists a running replica of a model, then after one sweep and one heartbeat any
   * agent without the model forwards a request for it, to such a node.
   */
  lemma {:induction false} LiveModelIsRouted(
      s: State, x: Address, n: NodeInfo, id: string, modelId: string, polls: string -> Poll)
    returns (actions: seq<Action>)
    requires Initial(s) && IsNode(s.db, n) && n.status == Online
    requires id in n.assignedModels && RunsModel(s.db, id, modelId)
    ensures CanRun(s, actions)
    ensures var t := Run(s, actions);
            && |t.forwards| == 1 && t.forwards[0].source == x && t.forwards[0].modelId == modelId
            && OnlineIn(s.db, t.forwards[0].target) && RunsModel(s.db, t.forwards[0].target.replicaId, modelId)
  {
    WellFormedDecodes(s.db);
    var online := SomeListing(s.db, {Online});
    var polled := SomeListing(s.db, POLLED);
    var table := SomeTable(Entries(s.db, online));
    var sweep, looks := UninterruptedSweep(s, online, polled, table, polls);
    var t := Run(s, sweep);
    LiveIsSelected(s.db, online, n, id, modelId);
    forall e | e in Select(Entries(s.db, online), modelId) ensures e.healthy {
      TableIsLive(s.db, online, modelId, e);
    }
    var rest := SupplyAndRequest(t, x, table, Entries(s.db, online), modelId);
    actions := sweep + rest;
    RunConcat(s, sweep, rest);
    var f := Run(s, actions).forwards[0];
    TableIsLive(s.db, online, modelId, f.target);
    IsLiveInParts(s.db, modelId, f.target);
  }

  lemma {:induction false} IsLiveInParts(db: DB, modelId: string, e: EndpointDetail)
    requires WellFormed(db) && IsLive(db, modelId, e)
    ensures OnlineIn(db, e) && RunsModel(db, e.replicaId, modelId)
  {
    assert DocOk(ReplicaKey(e.replicaId), db[ReplicaKey(e.replicaId)]);
  }

  /** An agent that starts, is given the first table, and is asked for a model of it. */
  lemma {:induction false} SupplyAndRequest(
      t: State, x: Address, table: seq<ServiceEndpoints>, es: seq<Entry>, modelId: string)
    returns (actions: seq<Action>)
    requires |t.builds| == 1 && t.builds[0].table == table && t.net == map[] && t.forwards == []
    requires IsTable(table, es) && Select(es, modelId) != [] && forall e :: e in Select(es, modelId) ==> e.healthy
    ensures CanRun(t, actions)
    ensures |Run(t, actions).forwards| == 1
    ensures var f := Run(t, actions).forwards[0];
            f.source == x && f.modelId == modelId && f.target in Select(es, modelId)
  {
    var join, deliver, ask := Join(x, []), Deliver(x, 0), Request(x, modelId);
    CacheAgreesWithTable(table, es, modelId);
    StartAndSupply(t, x, table);
    var w := Run(t, [join, deliver]);
    KnownIsForwarded(w, x, es, modelId);
    RunOne(w, ask);
    RunConcat(t, [join, deliver], [ask]);
    actions := [join, deliver] + [ask];
  }

  lemma {:induction false} StartAndSupply(t: State, x: Address, table: seq<ServiceEndpoints>)
    requires |t.builds| == 1 && t.builds[0].table == table != [] && t.net == map[]
    ensures CanRun(t, [Join(x, []), Deliver(x, 0)])
    ensures var w := Run(t, [Join(x, []), Deliver(x, 0)]);
            w.net == map[x := AgentState([], CacheOf(table), Cursor(-1, 0.0))] && w.forwards == t.forwards
  {
    AgentStarts(t, x, [], Assignment("", ""));
    TableArrives(Next(t, Join(x, [])), x, 0);
    RunTwo(t, Join(x, []), Deliver(x, 0));
  }

  lemma {:induction false} KnownIsForwarded(w: State, x: Address, es: seq<Entry>, modelId: string)
    requires x in w.net && w.net == map[x := w.net[x]] && w.forwards == []
    requires w.net[x].mine == [] && ValidCursor(w.net[x].cursor)
    requires Endpoints(w.net[x].cache, modelId) == Select(es, modelId) != []
    requires forall e :: e in Select(es, modelId) ==> e.healthy
    ensures Enabled(w, Request(x, modelId)) && |Next(w, Request(x, modelId)).forwards| == 1
    ensures var f := Next(w, Request(x, modelId)).forwards[0];
            f.source == x && f.modelId == modelId && f.target in Select(es, modelId)
  {
    assert ValidNetwork(w.net);
    assert Select(es, modelId)[0] in w.net[x].cache[modelId];
    RequestIsForwarded(w, x, modelId);
  }

  // ----- Registration through the API alone -----

  const UNSET: NodeStatus := OtherStatus("")

  /** The registration API copies neither a status nor assigned replicas from the request. */
  predicate ThroughApi(a: Action) {
    a.Register? ==> a.info.status == UNSET && a.info.assignedModels == []
  }

  ghost predicate NoneOnline(db: DB) {
    forall id :: StatusOf(db, id) in {None, Some(UNSET)}
  }

  lemma {:induction false} NothingListed(db: DB, statuses: set<NodeStatus>, nodes: seq<NodeInfo>)
    requires WellFormed(db) && NoneOnline(db) && Listing(db, statuses, nodes) && UNSET !in statuses
    ensures nodes == []
  {
    assert |nodes| == 0 || nodes[0] in nodes;
    ListingIsExact(db, statuses, nodes);
    forall n | IsNode(db, n) ensures n.status !in statuses {
      assert StatusOf(db, n.id) == Some(n.status);
    }
  }

  lemma {:induction false} NothingInTable(table: seq<ServiceEndpoints>)
    requires IsTable(table, [])
    ensures table == []
  {
    assert |table| == 0 || table[0].endpoints == Select([], table[0].modelId);
  }

  /** Nothing online or about to be, and no table built that is not empty: nothing to route to. */
  ghost predicate Quiet(s: State) {
    && StoreOk(s) && RoutingOk(s) && NoneOnline(s.db) && s.pending == []
    && (forall k :: k in s.drafts ==> s.drafts[k].status == UNSET)
    && (s.sweeper.Looking? ==> s.sweeper.online == [])
    && (forall i :: 0 <= i < |s.builds| ==> s.builds[i].table == [])
    && s.forwards == []
  }

  lemma {:induction false} NoneOnlineKept(s: State, a: Action)
    requires Quiet(s) && Enabled(s, a) && ThroughApi(a)
    ensures NoneOnline(Next(s, a).db)
  {
    StoreNext(s, a);
    forall id ensures StatusOf(Next(s, a).db, id) in {None, Some(UNSET)} {
      assert StatusOf(s.db, id) in {None, Some(UNSET)};
    }
  }

  lemma {:induction false} QuietForwardsNothing(s: State)
    requires RoutingOk(s) && forall i :: 0 <= i < |s.builds| ==> s.builds[i].table == []
    ensures s.forwards == []
  {
    assert |s.forwards| == 0 || SentOk(s.builds, s.forwards[0]);
  }

  lemma {:induction false} QuietSweeper(s: State, a: Action)
    requires Quiet(s) && Enabled(s, a)
    ensures NextPending(s, a) == [] && (NextSweeper(s, a).Looking? ==> NextSweeper(s, a).online == [])
    ensures forall i :: 0 <= i < |NextBuilds(s, a)| ==> NextBuilds(s, a)[i].table == []
  {
    if a.ListOnline? {
      NothingListed(s.db, {Online}, a.online);
    } else if a.ListPolled? {
      NothingListed(s.db, POLLED, a.polled);
      assert s.sweeper.looks == [];
      NothingInTable(a.table);
    }
  }

  lemma {:induction false} QuietDrafts(s: State, a: Action)
    requires Quiet(s) && Enabled(s, a)
    ensures forall k :: k in NextDrafts(s, a) ==> NextDrafts(s, a)[k].status == UNSET
  {
    if a.ReadNode? {
      assert StatusOf(s.db, a.id) in {None, Some(UNSET)};
    }
  }

  lemma {:induction false} QuietKept(s: State, a: Action)
    requires Quiet(s) && Enabled(s, a) && ThroughApi(a)
    ensures Quiet(Next(s, a))
  {
    StoreKept(s, a);
    RoutingKept(s, a);
    NoneOnlineKept(s, a);
    QuietSweeper(s, a);
    QuietDrafts(s, a);
    QuietForwardsNothing(Next(s, a));
  }

  lemma {:induction false} QuietRun(s: State, actions: seq<Action>)
    requires Quiet(s) && CanRun(s, actions)
    requires forall i :: 0 <= i < |actions| ==> ThroughApi(actions[i])
    ensures Quiet(Run(s, actions))
    decreases |actions|
  {
    if actions == [] {
    } else {
      QuietKept(s, actions[0]);
      QuietRun(Next(s, actions[0]), actions[1..]);
    }
  }

  /**
   * As coded, nothing ever sets a node online: in every run from an empty store in which nodes
   * are registered through the API, no node is ever online, every table is empty and no request
   * is ever forwarded.
   */
  lemma {:induction false} ApiRunsNeverRoute(s: State, actions: seq<Action>)
    requires Initial(s) && s.db == map[] && CanRun(s, actions)
    requires forall i :: 0 <= i < |actions| ==> ThroughApi(actions[i])
    ensures forall id :: StatusOf(Run(s, actions).db, id) != Some(Online)
    ensures forall i :: 0 <= i < |Run(s, actions).builds| ==> Run(s, actions).builds[i].table == []
    ensures Run(s, actions).forwards == []
  {
    QuietRun(s, actions);
  }
}
