/**
 * The whole system as steps.  A step is one registry call or one message: a sweep lists nodes and
 * looks replicas up one at a time, reads and writes back each replica of a node that answered, and
 * an update request reads a node before it writes it.  Other calls may fall between any two steps.
 *
 * There is one sweeper and store writes succeed.  A table may reach any agent at any time after it
 * was built; agents and the control plane may restart at any time.
 */
module Cluster {
  import opened Types
  import opened Balancer
  import opened Records
  import opened Registry
  import opened Queries
  import opened Heartbeat
  import opened Sweeps
  import opened Agents

  /** One replica looked up for a node, and the store it was looked up in. */
  datatype Look = Look(node: NodeInfo, id: string, db: DB)

  /** A table, the store and nodes its building began with, and the look-ups it was built from. */
  datatype Build = Build(listed: DB, online: seq<NodeInfo>, looks: seq<Look>, table: seq<ServiceEndpoints>)

  /** A forwarded request, with the build whose table the forwarding agent then held. */
  datatype Sent = Sent(source: Address, modelId: string, target: EndpointDetail, build: Option<nat>)

  /** Where the sweeper is: between two polls or sweeps, building a table, or handling an answer. */
  datatype Sweeper =
    | Between
    | Looking(listed: DB, online: seq<NodeInfo>, looks: seq<Look>)
    | Refreshing(ids: seq<string>, reports: seq<Report>, read: Option<ReplicaInfo>)

  /**
   * `used` are the node IDs ever given out, `pending` the nodes the current sweep has still to
   * poll, `drafts` the records that update requests have read and not yet written, `builds` and
   * `forwards` the history of tables and of forwarded requests, and `held` the last non-empty
   * build delivered to each agent since it started.
   */
  datatype State = State(
    db: DB,
    used: set<string>,
    sweeper: Sweeper,
    pending: seq<NodeInfo>,
    drafts: map<nat, NodeInfo>,
    builds: seq<Build>,
    net: Network,
    held: map<Address, nat>,
    forwards: seq<Sent>)

  datatype Action =
    | Register(id: string, info: NodeInfo, now: Time)
    | ReadNode(request: nat, id: string)
    | WriteNode(request: nat, metadata: string, tops: seq<Float>, now: Time)
    | DeRegister(id: string)
    | PutReplica(id: string, replica: ReplicaInfo)
    | RemoveReplica(id: string)
    | PutModel(id: string, model: ModelInfo)
    | RemoveModel(id: string)
    | ListOnline(online: seq<NodeInfo>)
    | LookUp
    | ListPolled(polled: seq<NodeInfo>, table: seq<ServiceEndpoints>)
    | PollFails(decidedAt: Time, markedAt: Time)
    | PollAnswers(reports: seq<Report>)
    | ReadReplica
    | WriteReplica(at: Time)
    | EndRefresh
    | Restart
    | Deliver(agent: Address, build: nat)
    | Join(agent: Address, mine: seq<Assignment>)
    | Assign(agent: Address, a: Assignment)
    | Request(agent: Address, modelId: string)

  // ----- Look-ups -----

  function Each(node: NodeInfo, ids: seq<string>): seq<(NodeInfo, string)> {
    if ids == [] then [] else Each(node, ids[..|ids| - 1]) + [(node, ids[|ids| - 1])]
  }

  /** The look-ups a table is built from, in order. */
  function Owed(nodes: seq<NodeInfo>): seq<(NodeInfo, string)> {
    if nodes == [] then []
    else
      var last := nodes[|nodes| - 1];
      Owed(nodes[..|nodes| - 1]) + Each(last, last.assignedModels)
  }

  /** What the look-ups found. */
  function LookEntries(looks: seq<Look>): seq<Entry> {
    if looks == [] then []
    else
      var last := looks[|looks| - 1];
      LookEntries(looks[..|looks| - 1]) + EntryOf(last.db, last.node, last.id)
  }

  // ----- Steps -----

  ghost predicate Enabled(s: State, a: Action) {
    match a
    case Register(id, info, _) => id != "" && id !in s.used && info.id == id
    case ReadNode(k, id) => k !in s.drafts && NodeKey(id) in s.db && s.db[NodeKey(id)].NodeDoc?
    case WriteNode(k, _, _, _) => k in s.drafts
    case PutModel(id, m) => id != "" && m.id == id
    case ListOnline(online) => s.sweeper.Between? && s.pending == [] && Listing(s.db, {Online}, online)
    case LookUp => s.sweeper.Looking? && |s.sweeper.looks| < |Owed(s.sweeper.online)|
    case ListPolled(polled, table) =>
      && s.sweeper.Looking? && |s.sweeper.looks| == |Owed(s.sweeper.online)|
      && Listing(s.db, POLLED, polled) && IsTable(table, LookEntries(s.sweeper.looks))
    case PollFails(_, _) => s.sweeper.Between? && s.pending != []
    case PollAnswers(_) => s.sweeper.Between? && s.pending != []
    case ReadReplica => s.sweeper.Refreshing? && s.sweeper.ids != [] && s.sweeper.read.None?
    case WriteReplica(_) => s.sweeper.Refreshing? && s.sweeper.ids != [] && s.sweeper.read.Some?
    case EndRefresh => s.sweeper.Refreshing? && s.sweeper.ids == []
    case Deliver(x, b) => x in s.net && b < |s.builds|
    case Assign(x, _) => x in s.net
    case Request(x, _) => ValidNetwork(s.net)
    case _ => true
  }

  function HeldBy(held: map<Address, nat>, x: Address): Option<nat> {
    if x in held then Some(held[x]) else None
  }

  /** The record with the fields an update request carries. */
  function Amended(e: NodeInfo, metadata: string, tops: seq<Float>): NodeInfo {
    e.(metadata := metadata, tops := tops)
  }

  /** The update of a replica that was read before its node answered. */
  function WriteBack(db: DB, id: string, info: ReplicaInfo, reports: seq<Report>, at: Time): DB {
    OrSame(PutReplicaSpec(db, id, Refreshed(info, FirstReport(reports, id), at)), db)
  }

  /** The replica with this ID, unless it is missing or unreadable. */
  function Found(db: DB, id: string): Option<ReplicaInfo> {
    match GetReplica(db, id)
    case Ok(Some(info)) => Some(info)
    case _ => None
  }

  ghost function NextDb(s: State, a: Action): DB
    requires Enabled(s, a)
  {
    match a
    case Register(id, info, now) => OrSame(RegisterNodeSpec(s.db, id, info, now), s.db)
    case WriteNode(k, metadata, tops, now) =>
      OrSame(UpdateNodeInfoSpec(s.db, s.drafts[k].id, Amended(s.drafts[k], metadata, tops), now), s.db)
    case DeRegister(id) => OrSame(DeRegisterNodeSpec(s.db, id), s.db)
    case PutReplica(id, r) => OrSame(PutReplicaSpec(s.db, id, r), s.db)
    case RemoveReplica(id) => OrSame(DeleteReplicaSpec(s.db, id), s.db)
    case PutModel(id, m) => s.db[ModelKey(id) := ModelDoc(m)]
    case RemoveModel(id) => s.db - {ModelKey(id)}
    case PollFails(decidedAt, markedAt) => PollNode(s.db, s.pending[0], Unreachable(decidedAt, markedAt))
    case WriteReplica(at) =>
      WriteBack(s.db, s.sweeper.ids[0], s.sweeper.read.value, s.sweeper.reports, at)
    case _ => s.db
  }

  function NextUsed(s: State, a: Action): set<string> {
    if a.Register? then s.used + {a.id} else s.used
  }

  ghost function NextSweeper(s: State, a: Action): Sweeper
    requires Enabled(s, a)
  {
    match a
    case ListOnline(online) => Looking(s.db, online, [])
    case LookUp =>
      var x := s.sweeper;
      var owed := Owed(x.online)[|x.looks|];
      x.(looks := x.looks + [Look(owed.0, owed.1, s.db)])
    case ListPolled(_, _) => Between
    case PollAnswers(reports) => Refreshing(s.pending[0].assignedModels, reports, None)
    case ReadReplica =>
      var x := s.sweeper;
      var found := Found(s.db, x.ids[0]);
      if found.Some? then x.(read := found) else x.(ids := x.ids[1..])
    case WriteReplica(_) => s.sweeper.(ids := s.sweeper.ids[1..], read := None)
    case EndRefresh => Between
    case Restart => Between
    case _ => s.sweeper
  }

  ghost function NextPending(s: State, a: Action): seq<NodeInfo>
    requires Enabled(s, a)
  {
    match a
    case ListPolled(polled, _) => polled
    case PollFails(_, _) => s.pending[1..]
    case PollAnswers(_) => s.pending[1..]
    case Restart => []
    case _ => s.pending
  }

  ghost function NextDrafts(s: State, a: Action): map<nat, NodeInfo>
    requires Enabled(s, a)
  {
    match a
    case ReadNode(k, id) => s.drafts[k := s.db[NodeKey(id)].node]
    case WriteNode(k, _, _, _) => s.drafts - {k}
    case Restart => map[]
    case _ => s.drafts
  }

  /** The effect of a step on the agents: their states, what they hold, and what they forwarded. */
  ghost function NextAgents(s: State, a: Action): (Network, map<Address, nat>, seq<Sent>)
    requires Enabled(s, a)
  {
    match a
    case Deliver(x, b) =>
      (s.net[x := s.net[x].(cache := AfterTable(s.net[x].cache, s.builds[b].table))],
       if s.builds[b].table == [] then s.held else s.held[x := b],
       s.forwards)
    case Join(x, mine) => (s.net[x := AgentState(mine, map[], FRESH)], s.held - {x}, s.forwards)
    case Assign(x, m) => (s.net[x := s.net[x].(mine := s.net[x].mine + [m])], s.held, s.forwards)
    case Request(x, modelId) =>
      var (after, _, hops) := Infer(s.net, x, modelId, false);
      var sent := if hops == [] then [] else [Sent(x, modelId, hops[0].target, HeldBy(s.held, x))];
      (after, s.held, s.forwards + sent)
    case _ => (s.net, s.held, s.forwards)
  }

  ghost function NextBuilds(s: State, a: Action): seq<Build>
    requires Enabled(s, a)
  {
    if a.ListPolled? then s.builds + [Build(s.sweeper.listed, s.sweeper.online, s.sweeper.looks, a.table)]
    else s.builds
  }

  ghost function Next(s: State, a: Action): State
    requires Enabled(s, a)
  {
    var (net, held, forwards) := NextAgents(s, a);
    State(NextDb(s, a), NextUsed(s, a), NextSweeper(s, a), NextPending(s, a), NextDrafts(s, a), NextBuilds(s, a),
          net, held, forwards)
  }

  /** Every action of the run is possible when its turn comes. */
  ghost predicate CanRun(s: State, actions: seq<Action>)
    decreases |actions|
  {
    actions == [] || (Enabled(s, actions[0]) && CanRun(Next(s, actions[0]), actions[1..]))
  }

  ghost function Run(s: State, actions: seq<Action>): State
    requires CanRun(s, actions)
    decreases |actions|
  {
    if actions == [] then s else Run(Next(s, actions[0]), actions[1..])
  }

  lemma {:induction false} RunConcat(s: State, a: seq<Action>, b: seq<Action>)
    ensures CanRun(s, a + b) <==> CanRun(s, a) && CanRun(Run(s, a), b)
    ensures CanRun(s, a + b) ==> Run(s, a + b) == Run(Run(s, a), b)
    decreases |a|
  {
    if a == [] {
      assert a + b == b;
    } else {
      assert (a + b)[0] == a[0] && (a + b)[1..] == a[1..] + b;
      if Enabled(s, a[0]) {
        RunConcat(Next(s, a[0]), a[1..], b);
      }
    }
  }

  lemma {:induction false} RunOne(s: State, a: Action)
    ensures CanRun(s, [a]) <==> Enabled(s, a)
    ensures Enabled(s, a) ==> Run(s, [a]) == Next(s, a)
  {
    assert [a][1..] == [];
    if Enabled(s, a) {
      assert Run(Next(s, a), []) == Next(s, a);
    }
  }

  /** A store with no tables built, no sweep and no request under way, and no agents. */
  ghost predicate Initial(s: State) {
    && WellFormed(s.db) && IdsUsed(s.db, s.used)
    && s.sweeper == Between && s.pending == [] && s.drafts == map[] && s.builds == []
    && s.net == map[] && s.held == map[] && s.forwards == []
  }

  // ----- The store -----

  /** The fields of a node that sweeps decide on. */
  datatype Vitals = Vitals(status: NodeStatus, lastHeartbeat: Time)

  function VitalsIn(n: NodeInfo): Vitals {
    Vitals(n.status, n.lastHeartbeat)
  }

  ghost function VitalsOf(db: DB, id: string): Option<Vitals> {
    if NodeKey(id) in db && db[NodeKey(id)].NodeDoc? then Some(VitalsIn(db[NodeKey(id)].node)) else None
  }

  ghost predicate IdsUsed(db: DB, used: set<string>) {
    forall k :: k in db && KindOf(k) == NodeKind ==> IdOf(k) in used
  }

  /** The nodes still to be polled are distinct, known, and were online or unknown when listed. */
  ghost predicate PendingOk(s: State) {
    && (forall i :: 0 <= i < |s.pending| ==> s.pending[i].id in s.used && s.pending[i].status in POLLED)
    && (forall i, j :: 0 <= i < j < |s.pending| ==> s.pending[i].id != s.pending[j].id)
  }

  ghost predicate DraftsOk(s: State) {
    forall k :: k in s.drafts ==> s.drafts[k].id in s.used && s.drafts[k].id != ""
  }

  /** A replica read and not yet written is the one the sweeper is at. */
  predicate SweeperOk(x: Sweeper) {
    x.Refreshing? && x.read.Some? ==> x.ids != [] && x.read.value.id == x.ids[0] != ""
  }

  ghost predicate StoreOk(s: State) {
    WellFormed(s.db) && IdsUsed(s.db, s.used) && PendingOk(s) && DraftsOk(s) && SweeperOk(s.sweeper)
  }

  /** What a write of an update request makes of a node's status and heartbeat time. */
  function VitalsWritten(e: NodeInfo, now: Option<Vitals>): Vitals {
    Vitals(e.status,
           if e.lastHeartbeat == ZERO_TIME && now.Some? then now.value.lastHeartbeat else e.lastHeartbeat)
  }

  /** What a step makes of a node's status and heartbeat time. */
  ghost function VitalsAfter(s: State, a: Action, id: string): Option<Vitals>
    requires Enabled(s, a)
  {
    var now := VitalsOf(s.db, id);
    match a
    case Register(x, info, _) => if x == id then Some(VitalsIn(info)) else now
    case DeRegister(x) => if x == id then None else now
    case WriteNode(k, _, _, _) => if s.drafts[k].id == id then Some(VitalsWritten(s.drafts[k], now)) else now
    case PollFails(decidedAt, markedAt) =>
      if s.pending[0].id == id && now.Some? then Some(Vitals(MissedStatus(s.pending[0], decidedAt), markedAt))
      else now
    case _ => now
  }

  lemma {:induction false} PutNodeEffect(db: DB, used: set<string>, id: string, info: NodeInfo)
    requires WellFormed(db) && IdsUsed(db, used) && id != "" && info.id == id
    ensures var t := db[NodeKey(id) := NodeDoc(info)];
            && WellFormed(t) && IdsUsed(t, used + {id})
            && forall x :: VitalsOf(t, x) == if x == id then Some(VitalsIn(info)) else VitalsOf(db, x)
  {
    var t := db[NodeKey(id) := NodeDoc(info)];
    forall k | k in t ensures DocOk(k, t[k]) {
      if k != NodeKey(id) {
        assert DocOk(k, db[k]);
      }
    }
    forall x ensures VitalsOf(t, x) == if x == id then Some(VitalsIn(info)) else VitalsOf(db, x) {
      assert IdOf(NodeKey(x)) == x && IdOf(NodeKey(id)) == id;
    }
  }

  /** A write or removal of another kind leaves every node as it is. */
  lemma {:induction false} OtherKindEffect(db: DB, used: set<string>, t: DB, k: string)
    requires WellFormed(db) && IdsUsed(db, used) && KindOf(k) != NodeKind
    requires t == db || t == db - {k} || (k in t && t == db[k := t[k]] && DocOk(k, t[k]))
    ensures WellFormed(t) && IdsUsed(t, used) && forall x :: VitalsOf(t, x) == VitalsOf(db, x)
  {
    forall l | l in t ensures DocOk(l, t[l]) {
      if l != k {
        assert DocOk(l, db[l]);
      }
    }
    forall x ensures VitalsOf(t, x) == VitalsOf(db, x) {
      assert NodeKey(x) != k;
    }
  }

  lemma {:induction false} RemoveNodeEffect(db: DB, used: set<string>, id: string)
    requires WellFormed(db) && IdsUsed(db, used)
    ensures var t := OrSame(DeRegisterNodeSpec(db, id), db);
            && WellFormed(t) && IdsUsed(t, used)
            && forall x :: VitalsOf(t, x) == if x == id then None else VitalsOf(db, x)
  {
    var t := OrSame(DeRegisterNodeSpec(db, id), db);
    forall k | k in t ensures DocOk(k, t[k]) {
      assert DocOk(k, db[k]);
    }
    forall x ensures VitalsOf(t, x) == if x == id then None else VitalsOf(db, x) {
      assert IdOf(NodeKey(x)) == x;
      if NodeKey(x) in db {
        assert DocOk(NodeKey(x), db[NodeKey(x)]);
      }
    }
  }

  lemma {:induction false} WriteNodeEffect(db: DB, used: set<string>, e: NodeInfo, info: NodeInfo, now: Time)
    requires WellFormed(db) && IdsUsed(db, used) && e.id in used && e.id != ""
    requires info.id == e.id && info.status == e.status && info.lastHeartbeat == e.lastHeartbeat
    ensures var t := OrSame(UpdateNodeInfoSpec(db, e.id, info, now), db);
            && WellFormed(t) && IdsUsed(t, used)
            && forall x :: VitalsOf(t, x)
                        == if x == e.id then Some(VitalsWritten(e, VitalsOf(db, x))) else VitalsOf(db, x)
  {
    var k := NodeKey(e.id);
    if k in db {
      assert DocOk(k, db[k]);
    }
    var existing := if k in db then Some(db[k].node) else None;
    PutNodeEffect(db, used, e.id, UpdatedNode(existing, e.id, info, now));
    assert used + {e.id} == used;
  }

  lemma {:induction false} MissEffect(db: DB, used: set<string>, n: NodeInfo, decidedAt: Time, markedAt: Time)
    requires WellFormed(db) && IdsUsed(db, used)
    ensures var t := PollNode(db, n, Unreachable(decidedAt, markedAt));
            && WellFormed(t) && IdsUsed(t, used)
            && forall x :: VitalsOf(t, x)
                        == if x == n.id && VitalsOf(db, x).Some?
                           then Some(Vitals(MissedStatus(n, decidedAt), markedAt))
                           else VitalsOf(db, x)
  {
    var k := NodeKey(n.id);
    if k in db {
      assert DocOk(k, db[k]);
      assert IdOf(k) == n.id && n.id in used;
      PutNodeEffect(db, used, n.id, Marked(db[k].node, MissedStatus(n, decidedAt), markedAt));
      assert used + {n.id} == used;
    }
  }

  lemma {:induction false} PutReplicaEffect(db: DB, used: set<string>, id: string, r: ReplicaInfo)
    requires WellFormed(db) && IdsUsed(db, used)
    ensures var t := OrSame(PutReplicaSpec(db, id, r), db);
            WellFormed(t) && IdsUsed(t, used) && forall x :: VitalsOf(t, x) == VitalsOf(db, x)
  {
    OtherKindEffect(db, used, OrSame(PutReplicaSpec(db, id, r), db), ReplicaKey(id));
  }

  predicate WritesNode(a: Action) {
    a.Register? || a.WriteNode? || a.DeRegister? || a.PollFails?
  }

  lemma {:induction false} NodeStepEffect(s: State, a: Action)
    requires StoreOk(s) && Enabled(s, a) && WritesNode(a)
    ensures WellFormed(NextDb(s, a)) && IdsUsed(NextDb(s, a), NextUsed(s, a))
    ensures forall id :: VitalsOf(NextDb(s, a), id) == VitalsAfter(s, a, id)
  {
    match a
    case Register(id, info, now) => PutNodeEffect(s.db, s.used, id, RegisteredNode(id, info, now));
    case WriteNode(k, metadata, tops, now) =>
      WriteNodeEffect(s.db, s.used, s.drafts[k], Amended(s.drafts[k], metadata, tops), now);
    case DeRegister(id) => RemoveNodeEffect(s.db, s.used, id);
    case PollFails(decidedAt, markedAt) => MissEffect(s.db, s.used, s.pending[0], decidedAt, markedAt);
  }

  lemma {:induction false} OtherStepEffect(s: State, a: Action)
    requires StoreOk(s) && Enabled(s, a) && !WritesNode(a)
    ensures WellFormed(NextDb(s, a)) && IdsUsed(NextDb(s, a), s.used)
    ensures forall id :: VitalsOf(NextDb(s, a), id) == VitalsOf(s.db, id)
  {
    match a
    case PutReplica(id, r) => PutReplicaEffect(s.db, s.used, id, r);
    case RemoveReplica(id) => OtherKindEffect(s.db, s.used, NextDb(s, a), ReplicaKey(id));
    case PutModel(id, m) => OtherKindEffect(s.db, s.used, NextDb(s, a), ModelKey(id));
    case RemoveModel(id) => OtherKindEffect(s.db, s.used, NextDb(s, a), ModelKey(id));
    case WriteReplica(at) =>
      var x := s.sweeper;
      PutReplicaEffect(s.db, s.used, x.ids[0], Refreshed(x.read.value, FirstReport(x.reports, x.ids[0]), at));
    case _ =>
  }

  /** What every step does to the nodes in the store. */
  lemma {:induction false} StoreNext(s: State, a: Action)
    requires StoreOk(s) && Enabled(s, a)
    ensures WellFormed(Next(s, a).db) && IdsUsed(Next(s, a).db, Next(s, a).used) && s.used <= Next(s, a).used
    ensures forall id :: VitalsOf(Next(s, a).db, id) == VitalsAfter(s, a, id)
  {
    if WritesNode(a) {
      NodeStepEffect(s, a);
    } else {
      OtherStepEffect(s, a);
    }
  }

  lemma {:induction false} PendingKept(s: State, a: Action)
    requires StoreOk(s) && Enabled(s, a)
    ensures PendingOk(Next(s, a))
  {
    if a.ListPolled? {
      ListingIsExact(s.db, POLLED, a.polled);
      forall i | 0 <= i < |a.polled| ensures a.polled[i].id in s.used && a.polled[i].status in POLLED {
        var n := a.polled[i];
        assert n in a.polled;
        assert IsNode(s.db, n);
        assert IdOf(NodeKey(n.id)) in s.used;
      }
    }
  }

  lemma {:induction false} FoundIs(db: DB, id: string)
    requires WellFormed(db) && Found(db, id).Some?
    ensures id != "" && Found(db, id).value.id == id && ReplicaKey(id) in db
  {
    assert DocOk(ReplicaKey(id), db[ReplicaKey(id)]);
  }

  lemma {:induction false} DraftsKept(s: State, a: Action)
    requires StoreOk(s) && Enabled(s, a)
    ensures forall k :: k in NextDrafts(s, a) ==> NextDrafts(s, a)[k].id in s.used && NextDrafts(s, a)[k].id != ""
  {
    if a.ReadNode? {
      assert DocOk(NodeKey(a.id), s.db[NodeKey(a.id)]);
      assert IdOf(NodeKey(a.id)) in s.used;
    }
  }

  lemma {:induction false} SweeperKept(s: State, a: Action)
    requires StoreOk(s) && Enabled(s, a)
    ensures SweeperOk(NextSweeper(s, a))
  {
    if a.ReadReplica? && Found(s.db, s.sweeper.ids[0]).Some? {
      FoundIs(s.db, s.sweeper.ids[0]);
    }
  }

  lemma {:induction false} StoreKept(s: State, a: Action)
    requires StoreOk(s) && Enabled(s, a)
    ensures StoreOk(Next(s, a))
  {
    StoreNext(s, a);
    PendingKept(s, a);
    DraftsKept(s, a);
    SweeperKept(s, a);
  }

  lemma {:induction false} StoreRunKeeps(s: State, actions: seq<Action>)
    requires StoreOk(s) && CanRun(s, actions)
    ensures StoreOk(Run(s, actions))
    decreases |actions|
  {
    if actions == [] {
    } else {
      StoreKept(s, actions[0]);
      StoreRunKeeps(Next(s, actions[0]), actions[1..]);
    }
  }

  // ----- Steps with nothing in between -----

  /** A step the sweeper takes. */
  predicate SweepStep(a: Action) {
    a.ListOnline? || a.LookUp? || a.ListPolled? || a.PollFails? || a.PollAnswers? || a.ReadReplica?
    || a.WriteReplica? || a.EndRefresh?
  }

  /** A run in which no other call falls between the sweeper's steps. */
  predicate SweepOnly(actions: seq<Action>) {
    forall a :: a in actions ==> SweepStep(a)
  }

  lemma {:induction false} EachIs(node: NodeInfo, ids: seq<string>)
    ensures |Each(node, ids)| == |ids| && forall i :: 0 <= i < |ids| ==> Each(node, ids)[i] == (node, ids[i])
  {
    if ids == [] {
    } else {
      EachIs(node, ids[..|ids| - 1]);
    }
  }

  /** Every look-up is for a listed node and one of its replicas. */
  lemma {:induction false} OwedIsListed(nodes: seq<NodeInfo>, i: nat)
    requires i < |Owed(nodes)|
    ensures Owed(nodes)[i].0 in nodes && Owed(nodes)[i].1 in Owed(nodes)[i].0.assignedModels
  {
    if nodes == [] {
      assert false;
    } else {
      var rest, last := nodes[..|nodes| - 1], nodes[|nodes| - 1];
      if i < |Owed(rest)| {
        OwedIsListed(rest, i);
      } else {
        EachIs(last, last.assignedModels);
        assert last in nodes && last.assignedModels[i - |Owed(rest)|] in last.assignedModels;
      }
    }
  }

  /** The look-ups are the ones owed, all made in one store. */
  ghost predicate LookedIn(db: DB, owed: seq<(NodeInfo, string)>, looks: seq<Look>) {
    |looks| == |owed| && forall i :: 0 <= i < |looks| ==> looks[i] == Look(owed[i].0, owed[i].1, db)
  }

  lemma {:induction false} LookEntriesConcat(a: seq<Look>, b: seq<Look>)
    ensures LookEntries(a + b) == LookEntries(a) + LookEntries(b)
  {
    if b == [] {
      assert a + b == a;
    } else {
      var rest, last := b[..|b| - 1], b[|b| - 1];
      assert (a + b)[..|a + b| - 1] == a + rest && (a + b)[|a + b| - 1] == last;
      LookEntriesConcat(a, rest);
    }
  }

  lemma {:induction false} EachEntries(db: DB, node: NodeInfo, ids: seq<string>, looks: seq<Look>)
    requires LookedIn(db, Each(node, ids), looks)
    ensures LookEntries(looks) == NodeEntries(db, node, ids)
  {
    if ids == [] {
    } else {
      var last := |ids| - 1;
      EachIs(node, ids);
      EachIs(node, ids[..last]);
      EachEntries(db, node, ids[..last], looks[..last]);
    }
  }

  lemma {:induction false} LookedSplit(
      db: DB, a: seq<(NodeInfo, string)>, b: seq<(NodeInfo, string)>, looks: seq<Look>)
    requires LookedIn(db, a + b, looks)
    ensures LookedIn(db, a, looks[..|a|]) && LookedIn(db, b, looks[|a|..]) && looks == looks[..|a|] + looks[|a|..]
  {
    forall i | 0 <= i < |b| ensures looks[|a|..][i] == Look(b[i].0, b[i].1, db) {
      assert looks[|a| + i] == Look((a + b)[|a| + i].0, (a + b)[|a| + i].1, db);
    }
    forall i | 0 <= i < |a| ensures looks[..|a|][i] == Look(a[i].0, a[i].1, db) {
      assert looks[i] == Look((a + b)[i].0, (a + b)[i].1, db);
    }
  }

  /** Without other calls in between, a build is the one the sweep makes in one go. */
  lemma {:induction false} UninterruptedBuild(db: DB, nodes: seq<NodeInfo>, looks: seq<Look>)
    requires LookedIn(db, Owed(nodes), looks)
    ensures LookEntries(looks) == Entries(db, nodes)
  {
    if nodes == [] {
    } else {
      var rest, last := nodes[..|nodes| - 1], nodes[|nodes| - 1];
      var k := |Owed(rest)|;
      LookedSplit(db, Owed(rest), Each(last, last.assignedModels), looks);
      UninterruptedBuild(db, rest, looks[..k]);
      EachEntries(db, last, last.assignedModels, looks[k..]);
      LookEntriesConcat(looks[..k], looks[k..]);
    }
  }

  /** The look-ups still owed, made one after the other. */
  lemma {:induction false} LooksAlone(s: State) returns (actions: seq<Action>, looks: seq<Look>)
    requires s.sweeper.Looking? && |s.sweeper.looks| <= |Owed(s.sweeper.online)|
    requires LookedIn(s.db, Owed(s.sweeper.online)[..|s.sweeper.looks|], s.sweeper.looks)
    ensures LookedIn(s.db, Owed(s.sweeper.online), looks)
    ensures SweepOnly(actions)
    ensures CanRun(s, actions) && Run(s, actions) == s.(sweeper := s.sweeper.(looks := looks))
    decreases |Owed(s.sweeper.online)| - |s.sweeper.looks|
  {
    var owed, done := Owed(s.sweeper.online), s.sweeper.looks;
    if |done| == |owed| {
      actions, looks := [], done;
      assert owed[..|done|] == owed;
    } else {
      var t := Next(s, LookUp);
      RunOne(s, LookUp);
      assert owed[..|done| + 1] == owed[..|done|] + [owed[|done|]];
      var rest;
      rest, looks := LooksAlone(t);
      actions := [LookUp] + rest;
      RunConcat(s, [LookUp], rest);
    }
  }

  /** Without other calls in between, a sweep starts by building the table of the store it finds. */
  lemma {:induction false} BuildAlone(
      s: State, online: seq<NodeInfo>, polled: seq<NodeInfo>, table: seq<ServiceEndpoints>)
    returns (actions: seq<Action>, looks: seq<Look>)
    requires s.sweeper == Between && s.pending == [] && Listing(s.db, {Online}, online) && Listing(s.db, POLLED, polled)
    requires IsTable(table, Entries(s.db, online))
    ensures LookedIn(s.db, Owed(online), looks)
    ensures SweepOnly(actions)
    ensures CanRun(s, actions)
    ensures Run(s, actions) == s.(pending := polled, builds := s.builds + [Build(s.db, online, looks, table)])
  {
    var list, last := ListOnline(online), ListPolled(polled, table);
    RunOne(s, list);
    var middle;
    middle, looks := LooksAlone(Next(s, list));
    RunConcat(s, [list], middle);
    var t := Run(s, [list] + middle);
    UninterruptedBuild(s.db, online, looks);
    RunOne(t, last);
    RunConcat(s, [list] + middle, [last]);
    actions := [list] + middle + [last];
  }

  lemma {:induction false} RefreshFirst(db: DB, ids: seq<string>, reports: seq<Report>, at: Time)
    requires ids != []
    ensures Refresh(db, ids, reports, at) == Refresh(RefreshOne(db, ids[0], reports, at), ids[1..], reports, at)
  {
    var rest := ids[..|ids| - 1];
    if rest == [] {
      assert ids[1..] == [];
    } else {
      RefreshFirst(db, rest, reports, at);
      assert ids[1..][..|ids[1..]| - 1] == rest[1..];
    }
  }

  /** The steps that refresh the first replica of an answer. */
  lemma {:induction false} RefreshOneAlone(s: State, at: Time) returns (actions: seq<Action>)
    requires s.sweeper.Refreshing? && s.sweeper.ids != [] && s.sweeper.read == None
    ensures SweepOnly(actions)
    ensures CanRun(s, actions)
    ensures Run(s, actions) == s.(db := RefreshOne(s.db, s.sweeper.ids[0], s.sweeper.reports, at),
                                  sweeper := s.sweeper.(ids := s.sweeper.ids[1..]))
  {
    var id, t := s.sweeper.ids[0], Next(s, ReadReplica);
    RunOne(s, ReadReplica);
    if Found(s.db, id).None? {
      actions := [ReadReplica];
    } else {
      RunOne(t, WriteReplica(at));
      RunConcat(s, [ReadReplica], [WriteReplica(at)]);
      actions := [ReadReplica] + [WriteReplica(at)];
    }
  }

  lemma {:induction false} RefreshAlone(s: State, at: Time) returns (actions: seq<Action>)
    requires s.sweeper.Refreshing? && s.sweeper.read == None
    ensures SweepOnly(actions)
    ensures CanRun(s, actions)
    ensures Run(s, actions) == s.(db := Refresh(s.db, s.sweeper.ids, s.sweeper.reports, at), sweeper := Between)
    decreases |s.sweeper.ids|
  {
    var ids := s.sweeper.ids;
    if ids == [] {
      actions := [EndRefresh];
      RunOne(s, EndRefresh);
    } else {
      var first := RefreshOneAlone(s, at);
      var rest := RefreshAlone(Run(s, first), at);
      actions := first + rest;
      RunConcat(s, first, rest);
      RefreshFirst(s.db, ids, s.sweeper.reports, at);
    }
  }

  lemma {:induction false} PollAlone(s: State, poll: Poll) returns (actions: seq<Action>)
    requires s.sweeper == Between && s.pending != []
    ensures SweepOnly(actions)
    ensures CanRun(s, actions)
    ensures Run(s, actions) == s.(db := PollNode(s.db, s.pending[0], poll), pending := s.pending[1..])
  {
    match poll
    case Unreachable(decidedAt, markedAt) =>
      actions := [PollFails(decidedAt, markedAt)];
      RunOne(s, PollFails(decidedAt, markedAt));
    case Answered(reports, at) =>
      RunOne(s, PollAnswers(reports));
      var rest := RefreshAlone(Next(s, PollAnswers(reports)), at);
      actions := [PollAnswers(reports)] + rest;
      RunConcat(s, [PollAnswers(reports)], rest);
  }

  lemma {:induction false} SweepFirst(db: DB, nodes: seq<NodeInfo>, polls: string -> Poll)
    requires nodes != []
    ensures Sweep(db, nodes, polls) == Sweep(PollNode(db, nodes[0], polls(nodes[0].id)), nodes[1..], polls)
  {
    var rest := nodes[..|nodes| - 1];
    if rest == [] {
      assert nodes[1..] == [];
    } else {
      SweepFirst(db, rest, polls);
      assert nodes[1..][..|nodes[1..]| - 1] == rest[1..];
    }
  }

  lemma {:induction false} PollsAlone(s: State, polls: string -> Poll) returns (actions: seq<Action>)
    requires s.sweeper == Between
    ensures SweepOnly(actions)
    ensures CanRun(s, actions)
    ensures Run(s, actions) == s.(db := Sweep(s.db, s.pending, polls), pending := [])
    decreases |s.pending|
  {
    if s.pending == [] {
      actions := [];
    } else {
      var first := PollAlone(s, polls(s.pending[0].id));
      var rest := PollsAlone(Run(s, first), polls);
      actions := first + rest;
      RunConcat(s, first, rest);
      SweepFirst(s.db, s.pending, polls);
    }
  }

  /** Without other calls in between, the steps of a sweep are the sweep made in one go. */
  lemma {:induction false} UninterruptedSweep(
      s: State, online: seq<NodeInfo>, polled: seq<NodeInfo>, table: seq<ServiceEndpoints>, polls: string -> Poll)
    returns (actions: seq<Action>, looks: seq<Look>)
    requires s.sweeper == Between && s.pending == [] && Listing(s.db, {Online}, online) && Listing(s.db, POLLED, polled)
    requires IsTable(table, Entries(s.db, online))
    ensures LookedIn(s.db, Owed(online), looks)
    ensures SweepOnly(actions)
    ensures CanRun(s, actions)
    ensures Run(s, actions) == s.(db := Sweep(s.db, polled, polls),
                                  builds := s.builds + [Build(s.db, online, looks, table)])
  {
    var first, rest;
    first, looks := BuildAlone(s, online, polled, table);
    rest := PollsAlone(Run(s, first), polls);
    actions := first + rest;
    RunConcat(s, first, rest);
  }

  // ----- What each call does -----

  /** When each call is possible. */
  lemma {:induction false} Possible(s: State)
    ensures forall id, info, now :: Enabled(s, Register(id, info, now)) <==> id != "" && id !in s.used && info.id == id
    ensures forall k, id :: Enabled(s, ReadNode(k, id)) <==>
              k !in s.drafts && "node:" + id in s.db && s.db["node:" + id].NodeDoc?
    ensures forall k, md, tops, now :: Enabled(s, WriteNode(k, md, tops, now)) <==> k in s.drafts
    ensures forall id :: Enabled(s, DeRegister(id)) && Enabled(s, RemoveReplica(id)) && Enabled(s, RemoveModel(id))
    ensures forall id, r :: Enabled(s, PutReplica(id, r))
    ensures forall id, m :: Enabled(s, PutModel(id, m)) <==> id != "" && m.id == id
    ensures Enabled(s, Restart) && forall x, mine :: Enabled(s, Join(x, mine))
    ensures forall x, b: nat :: Enabled(s, Deliver(x, b)) <==> x in s.net && b < |s.builds|
    ensures forall x, a :: Enabled(s, Assign(x, a)) <==> x in s.net
  {
    forall k, id ensures Enabled(s, ReadNode(k, id)) <==>
      k !in s.drafts && "node:" + id in s.db && s.db["node:" + id].NodeDoc?
    {
      KeyText(id);
    }
  }

  /** A registration stores the node as given, with its missing times. */
  lemma {:induction false} RegisterStores(s: State, id: string, info: NodeInfo, now: Time)
    requires Enabled(s, Register(id, info, now))
    ensures var t, k := Next(s, Register(id, info, now)), "node:" + id;
            && OnlyAt(s.db, t.db, k) && k in t.db && t.db[k].NodeDoc?
            && SameNode(t.db[k].node, info) && t.db[k].node.id == id && t.db[k].node.status == info.status
            && t.used == s.used + {id} && t == s.(db := t.db, used := t.used)
  {
    RegisterFillsIn(s.db, id, info, now);
  }

  /** An update request writes the metadata and devices it carries into the record it read. */
  lemma {:induction false} WriteStores(s: State, k: nat, metadata: string, tops: seq<Float>, now: Time)
    requires StoreOk(s) && Enabled(s, WriteNode(k, metadata, tops, now))
    ensures var t, e := Next(s, WriteNode(k, metadata, tops, now)), s.drafts[k];
            && OnlyAt(s.db, t.db, "node:" + e.id) && "node:" + e.id in t.db && t.db["node:" + e.id].NodeDoc?
            && t == s.(db := t.db, drafts := s.drafts - {k})
            && var n := t.db["node:" + e.id].node;
               && n.metadata == metadata && n.tops == tops && n.updatedAt == now
               && n.id == e.id && n.name == e.name && n.ip == e.ip && n.port == e.port
               && n.status == e.status && n.assignedModels == e.assignedModels
  {
    var e := s.drafts[k];
    KeyText(e.id);
    if NodeKey(e.id) in s.db {
      assert DocOk(NodeKey(e.id), s.db[NodeKey(e.id)]);
    }
    UpdateTakesOver(s.db, e.id, Amended(e, metadata, tops), now);
  }

  /** A read keeps the stored record for the request. */
  lemma {:induction false} ReadKeeps(s: State, k: nat, id: string)
    requires Enabled(s, ReadNode(k, id))
    ensures "node:" + id in s.db && s.db["node:" + id].NodeDoc?
    ensures Next(s, ReadNode(k, id)) == s.(drafts := s.drafts[k := s.db["node:" + id].node])
  {
    KeyText(id);
  }

  /** A removal takes out the one record it is for. */
  lemma {:induction false} RemovalsTakeEffect(s: State, id: string)
    requires id != ""
    ensures Next(s, DeRegister(id)) == s.(db := s.db - {"node:" + id})
    ensures Next(s, RemoveReplica(id)) == s.(db := s.db - {"replica:" + id})
    ensures Next(s, RemoveModel(id)) == s.(db := s.db - {"model:" + id})
  {
    KeyText(id);
  }

  /** A put stores the one record it is for. */
  lemma {:induction false} PutsTakeEffect(s: State, id: string, r: ReplicaInfo, m: ModelInfo)
    requires id != "" && (r.id == "" || r.id == id) && m.id == id
    ensures Next(s, PutReplica(id, r)) == s.(db := s.db["replica:" + id := ReplicaDoc(r.(id := id))])
    ensures Next(s, PutModel(id, m)) == s.(db := s.db["model:" + id := ModelDoc(m)])
  {
    KeyText(id);
  }

  /** A restart of the control plane keeps the store and forgets the sweep and the open requests. */
  lemma {:induction false} RestartForgets(s: State)
    ensures Next(s, Restart) == s.(sweeper := Between, pending := [], drafts := map[])
  {
  }

  /** What reaches an agent: a start, an assignment, a table. */
  lemma {:induction false} AgentStarts(s: State, x: Address, mine: seq<Assignment>, m: Assignment)
    ensures Next(s, Join(x, mine))
         == s.(net := s.net[x := AgentState(mine, map[], Cursor(-1, 0.0))], held := s.held - {x})
    ensures x in s.net ==>
              Next(s, Assign(x, m)) == s.(net := s.net[x := s.net[x].(mine := s.net[x].mine + [m])])
  {
  }

  lemma {:induction false} TableArrives(s: State, x: Address, b: nat)
    requires x in s.net && b < |s.builds|
    ensures s.builds[b].table == [] ==> Next(s, Deliver(x, b)) == s
    ensures s.builds[b].table != [] ==>
              Next(s, Deliver(x, b)) == s.(net := s.net[x := s.net[x].(cache := CacheOf(s.builds[b].table))],
                                           held := s.held[x := b])
  {
    assert s.net[x].(cache := s.net[x].cache) == s.net[x];
    assert s.net[x := s.net[x]] == s.net;
  }
}
