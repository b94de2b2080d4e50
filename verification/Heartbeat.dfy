/**
 * The control plane's heartbeat sweep and the endpoint table it sends.
 *
 * The remote call is a parameter: `polls` says, for each node ID, whether the node answered
 * and what the clock read.  One clock reading stands for all replica updates of one answer.
 */
module Heartbeat {
  import opened Types
  import opened Records
  import opened Registry

  /** 40 seconds. */
  const OFFLINE_AFTER: Time := 40_000_000_000

  datatype Report = Report(replicaId: string, status: string, errorCode: int, errorMessage: string)

  datatype Poll =
    | Unreachable(decidedAt: Time, markedAt: Time)
    | Answered(reports: seq<Report>, at: Time)

  function ConvertStatus(text: string): ReplicaStatus {
    if text == "pending" then Pending
    else if text == "running" then Running
    else if text == "failed" then Failed
    else UnknownReplica
  }

  /** The text an agent reports a status as. */
  function StatusText(status: ReplicaStatus): string {
    match status
    case Pending => "pending"
    case Running => "running"
    case Failed => "failed"
    case UnknownReplica => "unknown"
    case OtherReplicaStatus(text) => text
  }

  /** A reported status arrives as itself, and any text that names none of the four as unknown. */
  lemma {:induction false} StatusSurvivesReport(status: ReplicaStatus)
    ensures !status.OtherReplicaStatus? ==> ConvertStatus(StatusText(status)) == status
    ensures status.OtherReplicaStatus? && status.text !in {"pending", "running", "failed", "unknown"} ==>
              ConvertStatus(StatusText(status)) == UnknownReplica
  {
    assert "pending"[0] == 'p' && "running"[0] == 'r' && "failed"[0] == 'f' && "unknown"[0] == 'u';
  }

  /** The texts of the four statuses. */
  lemma {:induction false} StatusTexts()
    ensures ConvertStatus("pending") == Pending && ConvertStatus("running") == Running
    ensures ConvertStatus("failed") == Failed && ConvertStatus("unknown") == UnknownReplica
    ensures ConvertStatus("") == UnknownReplica && ConvertStatus("Running") == UnknownReplica
  {
    assert "pending"[0] == 'p' && "running"[0] == 'r' && "failed"[0] == 'f' && "unknown"[0] == 'u';
    assert "Running"[0] == 'R';
  }

  // ----- One answer -----

  function FirstReport(reports: seq<Report>, id: string): (r: Option<Report>)
    ensures r.None? <==> forall i :: 0 <= i < |reports| ==> reports[i].replicaId != id
    ensures r.Some? ==> exists i :: 0 <= i < |reports| && reports[i] == r.value && reports[i].replicaId == id
                                    && forall j :: 0 <= j < i ==> reports[j].replicaId != id
  {
    if reports == [] then None
    else if reports[0].replicaId == id then Some(reports[0])
    else
      var r := FirstReport(reports[1..], id);
      assert r.Some? ==> exists i :: 0 < i < |reports| && reports[i] == r.value && reports[i].replicaId == id
                                     && forall j :: 0 <= j < i ==> reports[j].replicaId != id by {
        if r.Some? {
          var i :| 0 <= i < |reports[1..]| && reports[1..][i] == r.value
                     && forall j :: 0 <= j < i ==> reports[1..][j].replicaId != id;
          assert reports[i + 1] == r.value;
          assert forall j :: 0 < j < i + 1 ==> reports[j] == reports[1..][j - 1];
        }
      }
      assert r.None? ==> forall i :: 0 < i < |reports| ==> reports[i] == reports[1..][i - 1];
      r
  }

  /** A reported replica takes over the report; one left out becomes unknown. */
  function Refreshed(info: ReplicaInfo, report: Option<Report>, at: Time): ReplicaInfo {
    match report
    case Some(p) =>
      info.(status := ConvertStatus(p.status), errorCode := p.errorCode, errorMessage := p.errorMessage,
            lastHeartbeat := at)
    case None => info.(status := UnknownReplica, lastHeartbeat := at)
  }

  function OrSame(r: Result<DB>, db: DB): DB {
    if r.Ok? then r.value else db
  }

  function RefreshOne(db: DB, id: string, reports: seq<Report>, at: Time): DB {
    match GetReplica(db, id)
    case Ok(Some(info)) => OrSame(PutReplicaSpec(db, id, Refreshed(info, FirstReport(reports, id), at)), db)
    case _ => db
  }

  function Refresh(db: DB, ids: seq<string>, reports: seq<Report>, at: Time): DB {
    if ids == [] then db
    else RefreshOne(Refresh(db, ids[..|ids| - 1], reports, at), ids[|ids| - 1], reports, at)
  }

  // ----- One sweep -----

  /** What a node that did not answer is marked as. */
  function MissedStatus(node: NodeInfo, decidedAt: Time): NodeStatus {
    if node.lastHeartbeat + OFFLINE_AFTER < decidedAt then Offline else Unknown
  }

  function PollNode(db: DB, node: NodeInfo, poll: Poll): DB {
    match poll
    case Unreachable(decidedAt, markedAt) =>
      OrSame(UpdateNodeStatusSpec(db, node.id, MissedStatus(node, decidedAt), markedAt), db)
    case Answered(reports, at) => Refresh(db, node.assignedModels, reports, at)
  }

  function Sweep(db: DB, nodes: seq<NodeInfo>, polls: string -> Poll): DB {
    if nodes == [] then db
    else
      var last := nodes[|nodes| - 1];
      PollNode(Sweep(db, nodes[..|nodes| - 1], polls), last, polls(last.id))
  }

  const POLLED: set<NodeStatus> := {Online, Unknown}

  /** `nodes` are the stored nodes in these statuses, in some listing order. */
  ghost predicate Listing(db: DB, statuses: set<NodeStatus>, nodes: seq<NodeInfo>) {
    exists keys, all :: ListsNodes(db, keys, all) && nodes == WithStatus(all, statuses)
  }

  method FindReport(reports: seq<Report>, id: string) returns (found: Option<Report>)
    ensures found == FirstReport(reports, id)
  {
    for i := 0 to |reports|
      invariant forall j :: 0 <= j < i ==> reports[j].replicaId != id
    {
      if reports[i].replicaId == id {
        return Some(reports[i]);
      }
    }
    return None;
  }

  /** Updates one listed replica, if it is stored. */
  method RefreshReplica(s: Store, id: string, reports: seq<Report>, at: Time)
    modifies s
    ensures s.failures >= old(s.failures)
    ensures s.failures == old(s.failures) ==> s.data == RefreshOne(old(s.data), id, reports, at)
    ensures old(s.Agrees()) && s.failures == old(s.failures) ==> s.Agrees()
    ensures old(s.Sound()) ==> s.Sound() && s.failures == old(s.failures)
  {
    var found := FindReport(reports, id);
    var existing := GetReplicaByID(s, id);
    if existing.Err? || existing.value.None? {
      return;
    }
    var info := existing.value.value;
    if found.Some? {
      info := info.(status := ConvertStatus(found.value.status), errorCode := found.value.errorCode,
                    errorMessage := found.value.errorMessage, lastHeartbeat := at);
    } else {
      info := info.(status := UnknownReplica, lastHeartbeat := at);
    }
    var r := UpdateReplicaInfo(s, id, info);
  }

  /** Updates the replicas a node lists; with no append failing the result is `Refresh`. */
  method RefreshReplicas(s: Store, node: NodeInfo, reports: seq<Report>, at: Time)
    modifies s
    ensures s.failures >= old(s.failures)
    ensures s.failures == old(s.failures) ==> s.data == Refresh(old(s.data), node.assignedModels, reports, at)
    ensures old(s.Agrees()) && s.failures == old(s.failures) ==> s.Agrees()
    ensures old(s.Sound()) ==> s.Sound() && s.failures == old(s.failures)
  {
    var ids := node.assignedModels;
    for i := 0 to |ids|
      invariant s.failures >= old(s.failures)
      invariant s.failures == old(s.failures) ==> s.data == Refresh(old(s.data), ids[..i], reports, at)
      invariant old(s.Agrees()) && s.failures == old(s.failures) ==> s.Agrees()
      invariant old(s.Sound()) ==> s.Sound() && s.failures == old(s.failures)
    {
      assert ids[..i + 1][..i] == ids[..i];
      RefreshReplica(s, ids[i], reports, at);
    }
    assert ids[..|ids|] == ids;
  }

  /** Handles one node's answer or failure to answer. */
  method PollOne(s: Store, node: NodeInfo, poll: Poll)
    modifies s
    ensures s.failures >= old(s.failures)
    ensures s.failures == old(s.failures) ==> s.data == PollNode(old(s.data), node, poll)
    ensures old(s.Agrees()) && s.failures == old(s.failures) ==> s.Agrees()
    ensures old(s.Sound()) ==> s.Sound() && s.failures == old(s.failures)
  {
    match poll {
      case Unreachable(decidedAt, markedAt) =>
        var status := if node.lastHeartbeat + OFFLINE_AFTER < decidedAt then Offline else Unknown;
        var marked := UpdateNodeStatus(s, node.id, status, markedAt);
      case Answered(reports, at) =>
        RefreshReplicas(s, node, reports, at);
    }
  }

  method PollAll(s: Store, nodes: seq<NodeInfo>, polls: string -> Poll)
    modifies s
    ensures s.failures >= old(s.failures)
    ensures s.failures == old(s.failures) ==> s.data == Sweep(old(s.data), nodes, polls)
    ensures old(s.Agrees()) && s.failures == old(s.failures) ==> s.Agrees()
    ensures old(s.Sound()) ==> s.Sound() && s.failures == old(s.failures)
  {
    for i := 0 to |nodes|
      invariant s.failures >= old(s.failures)
      invariant s.failures == old(s.failures) ==> s.data == Sweep(old(s.data), nodes[..i], polls)
      invariant old(s.Agrees()) && s.failures == old(s.failures) ==> s.Agrees()
      invariant old(s.Sound()) ==> s.Sound() && s.failures == old(s.failures)
    {
      assert nodes[..i + 1][..i] == nodes[..i];
      PollOne(s, nodes[i], polls(nodes[i].id));
    }
    assert nodes[..|nodes|] == nodes;
  }

  /**
   * One sweep: the table is built once and sent to every online or unknown node; a node that
   * fails to answer is marked, one that answers has its replicas refreshed.  With no append
   * failing the store becomes `Sweep` of what it was, and its log still agrees.
   */
  method HandleHeartbeat(s: Store, polls: string -> Poll)
    returns (r: Result<()>, table: seq<ServiceEndpoints>, ghost online: seq<NodeInfo>, ghost polled: seq<NodeInfo>)
    modifies s
    ensures r.Ok? <==> NodesDecode(old(s.data))
    ensures r.Ok? ==> Listing(old(s.data), {Online}, online) && IsTable(table, Entries(old(s.data), online))
    ensures r.Ok? ==> Listing(old(s.data), POLLED, polled)
    ensures r.Ok? && s.failures == old(s.failures) ==> s.data == Sweep(old(s.data), polled, polls)
    ensures old(s.Agrees()) && s.failures == old(s.failures) ==> s.Agrees()
    ensures old(s.Sound()) ==> s.Sound() && s.failures == old(s.failures)
    ensures r.Err? ==> s.data == old(s.data)
  {
    polled := [];
    table, online := BuildServiceEndpoints(s);
    var listed;
    ghost var keys, all;
    listed, keys, all := ListNodesByStatuses(s, POLLED);
    if listed.Err? {
      return Err, table, online, polled;
    }
    polled := listed.value;
    assert Listing(s.data, POLLED, polled);
    PollAll(s, listed.value, polls);
    r := Ok(());
  }

  /** A restart after a sweep whose appends succeeded reads back the swept store, if it opens. */
  method SweepThenRestart(s: Store, polls: string -> Poll, outcomes: nat -> Wal.AppendOutcome)
    returns (r: Result<Store>, ghost polled: seq<NodeInfo>)
    requires Wal.ValidCodec(s.codec) && s.Agrees() && NodesDecode(s.data)
    modifies s
    ensures Listing(old(s.data), POLLED, polled)
    ensures r.Ok? && s.failures == old(s.failures) ==> r.value.data == Sweep(old(s.data), polled, polls)
    ensures r.Ok? && old(s.Sound()) ==> r.value.data == Sweep(old(s.data), polled, polls)
  {
    var done, table;
    ghost var online;
    done, table, online, polled := HandleHeartbeat(s, polls);
    r := Wal.Store.New(s.codec, s.wal, outcomes);
  }

  // ----- The endpoint table -----

  function SumTops(tops: seq<Float>): real {
    if tops == [] then 0.0 else SumTops(tops[..|tops| - 1]) + ValueOf(tops[|tops| - 1])
  }

  function EndpointOf(node: NodeInfo, replicaId: string): EndpointDetail {
    EndpointDetail(node.id, replicaId, node.ip, node.port, true, SumTops(node.tops))
  }

  /** The TOPS of a node's devices are added up. */
  lemma {:induction false} TopsAddUp(a: seq<Float>, b: seq<Float>, f: Float)
    ensures SumTops([]) == 0.0 && SumTops([f]) == f.mantissa as real * PowerOfTwo(f.exponent)
    ensures SumTops(a + b) == SumTops(a) + SumTops(b)
  {
    var one := [f];
    assert one[..0] == [];
    assert SumTops(one) == SumTops([]) + ValueOf(f);
    if b == [] {
      assert a + b == a;
    } else {
      var last := |b| - 1;
      assert (a + b)[..|a + b| - 1] == a + b[..last] && (a + b)[|a + b| - 1] == b[last];
      TopsAddUp(a, b[..last], f);
    }
  }

  /** An endpoint is its node's address, healthy, and weighted by the TOPS of the node. */
  lemma {:induction false} EndpointFields(node: NodeInfo, replicaId: string)
    ensures var e := EndpointOf(node, replicaId);
            && e.nodeId == node.id && e.replicaId == replicaId && e.ip == node.ip && e.port == node.port
            && e.healthy && e.weight == SumTops(node.tops)
  {
  }

  /** A silent node is offline exactly if its last mark is more than 40 seconds old, else unknown. */
  lemma {:induction false} MissedAfter40Seconds(node: NodeInfo, decidedAt: Time)
    ensures MissedStatus(node, decidedAt)
         == if decidedAt - node.lastHeartbeat > 40 * 1_000_000_000 then Offline else Unknown
  {
  }

  /** A reported replica takes over status, error and time; one left out becomes unknown and keeps its error. */
  lemma {:induction false} RefreshedFields(info: ReplicaInfo, report: Option<Report>, at: Time)
    ensures var r := Refreshed(info, report, at);
            && r.id == info.id && r.modelId == info.modelId && r.name == info.name && r.lastHeartbeat == at
            && (report.Some? ==> && r.status == ConvertStatus(report.value.status)
                                 && r.errorCode == report.value.errorCode
                                 && r.errorMessage == report.value.errorMessage)
            && (report.None? ==> && r.status == UnknownReplica
                                 && r.errorCode == info.errorCode && r.errorMessage == info.errorMessage)
  {
  }

  type Entry = (string, EndpointDetail)

  /** The model and endpoint a node contributes for one replica ID it lists. */
  function EntryOf(db: DB, node: NodeInfo, id: string): seq<Entry> {
    match GetReplica(db, id)
    case Ok(Some(info)) => if info.status == Running then [(info.modelId, EndpointOf(node, info.id))] else []
    case _ => []
  }

  function NodeEntries(db: DB, node: NodeInfo, ids: seq<string>): seq<Entry> {
    if ids == [] then []
    else NodeEntries(db, node, ids[..|ids| - 1]) + EntryOf(db, node, ids[|ids| - 1])
  }

  function Entries(db: DB, nodes: seq<NodeInfo>): seq<Entry> {
    if nodes == [] then []
    else
      var last := nodes[|nodes| - 1];
      Entries(db, nodes[..|nodes| - 1]) + NodeEntries(db, last, last.assignedModels)
  }

  /** The endpoints of one model, in order. */
  function Select(es: seq<Entry>, modelId: string): seq<EndpointDetail> {
    if es == [] then []
    else Select(es[..|es| - 1], modelId) + (if es[|es| - 1].0 == modelId then [es[|es| - 1].1] else [])
  }

  lemma {:induction false} SelectConcat(a: seq<Entry>, b: seq<Entry>, modelId: string)
    ensures Select(a + b, modelId) == Select(a, modelId) + Select(b, modelId)
  {
    if b == [] {
      assert a + b == a;
    } else {
      assert (a + b)[..|a + b| - 1] == a + b[..|b| - 1];
      SelectConcat(a, b[..|b| - 1], modelId);
    }
  }

  /** One element per model that has endpoints, holding exactly its endpoints. */
  ghost predicate IsTable(table: seq<ServiceEndpoints>, es: seq<Entry>) {
    && (forall i, j :: 0 <= i < j < |table| ==> table[i].modelId != table[j].modelId)
    && (forall i :: 0 <= i < |table| ==> table[i].endpoints == Select(es, table[i].modelId) != [])
    && (forall m :: Select(es, m) != [] ==> exists i :: 0 <= i < |table| && table[i].modelId == m)
  }

  ghost predicate Grouped(byModel: map<string, seq<EndpointDetail>>, es: seq<Entry>) {
    && (forall m :: m in byModel <==> Select(es, m) != [])
    && (forall m :: m in byModel ==> byModel[m] == Select(es, m))
  }

  lemma {:induction false} GroupOneMore(byModel: map<string, seq<EndpointDetail>>, es: seq<Entry>, e: Entry)
    requires Grouped(byModel, es)
    ensures Grouped(byModel[e.0 := (if e.0 in byModel then byModel[e.0] else []) + [e.1]], es + [e])
  {
    assert (es + [e])[..|es + [e]| - 1] == es;
  }

  method TopsOf(node: NodeInfo) returns (tops: real)
    ensures tops == SumTops(node.tops)
  {
    tops := 0.0;
    for i := 0 to |node.tops|
      invariant tops == SumTops(node.tops[..i])
    {
      assert node.tops[..i + 1][..i] == node.tops[..i];
      tops := tops + ValueOf(node.tops[i]);
    }
    assert node.tops[..|node.tops|] == node.tops;
  }

  /** Adds one listed replica, if it is stored and running. */
  method AddReplica(
      s: Store, node: NodeInfo, tops: real, id: string, byModel: map<string, seq<EndpointDetail>>, ghost es: seq<Entry>)
    returns (grown: map<string, seq<EndpointDetail>>)
    requires Grouped(byModel, es) && tops == SumTops(node.tops)
    ensures Grouped(grown, es + EntryOf(s.data, node, id))
  {
    grown := byModel;
    assert es + [] == es;
    var r := GetReplicaByID(s, id);
    if r.Ok? && r.value.Some? && r.value.value.status == Running {
      var info := r.value.value;
      var endpoint := EndpointDetail(node.id, info.id, node.ip, node.port, true, tops);
      GroupOneMore(grown, es, (info.modelId, endpoint));
      grown := grown[info.modelId := (if info.modelId in grown then grown[info.modelId] else []) + [endpoint]];
    }
  }

  lemma {:induction false} NodeEntriesNext(db: DB, node: NodeInfo, ids: seq<string>, i: nat)
    requires i < |ids|
    ensures NodeEntries(db, node, ids[..i + 1]) == NodeEntries(db, node, ids[..i]) + EntryOf(db, node, ids[i])
  {
    assert ids[..i + 1][..i] == ids[..i];
  }

  /** Adds a node's running replicas to the table under construction. */
  method AddNode(s: Store, node: NodeInfo, byModel: map<string, seq<EndpointDetail>>, ghost es: seq<Entry>)
    returns (grown: map<string, seq<EndpointDetail>>)
    requires Grouped(byModel, es)
    ensures Grouped(grown, es + NodeEntries(s.data, node, node.assignedModels))
  {
    var tops := TopsOf(node);
    var ids := node.assignedModels;
    grown := byModel;
    ghost var done := es;
    for i := 0 to |ids|
      invariant Grouped(grown, done)
      invariant done == es + NodeEntries(s.data, node, ids[..i])
    {
      grown := AddReplica(s, node, tops, ids[i], grown, done);
      NodeEntriesNext(s.data, node, ids, i);
      done := done + EntryOf(s.data, node, ids[i]);
    }
    assert ids[..|ids|] == ids;
  }

  method AddNodes(s: Store, nodes: seq<NodeInfo>) returns (byModel: map<string, seq<EndpointDetail>>)
    ensures Grouped(byModel, Entries(s.data, nodes))
  {
    byModel := map[];
    for i := 0 to |nodes|
      invariant Grouped(byModel, Entries(s.data, nodes[..i]))
    {
      assert nodes[..i + 1][..i] == nodes[..i];
      byModel := AddNode(s, nodes[i], byModel, Entries(s.data, nodes[..i]));
    }
    assert nodes[..|nodes|] == nodes;
  }

  /** The list holds every element of the map once. */
  ghost predicate IsFlat(table: seq<ServiceEndpoints>, byModel: map<string, seq<EndpointDetail>>, models: set<string>) {
    && (forall i :: 0 <= i < |table| ==>
          table[i].modelId in models && table[i].modelId in byModel && table[i].endpoints == byModel[table[i].modelId])
    && (forall i, j :: 0 <= i < j < |table| ==> table[i].modelId != table[j].modelId)
    && (forall m :: m in models ==> exists i :: 0 <= i < |table| && table[i].modelId == m)
  }

  lemma {:induction false} FlatOneMore(
      table: seq<ServiceEndpoints>, byModel: map<string, seq<EndpointDetail>>, models: set<string>, m: string)
    requires IsFlat(table, byModel, models) && m in byModel && m !in models
    ensures IsFlat(table + [ServiceEndpoints(m, byModel[m])], byModel, models + {m})
  {
    var t := table + [ServiceEndpoints(m, byModel[m])];
    forall x | x in models + {m} ensures exists i :: 0 <= i < |t| && t[i].modelId == x {
      if x == m {
        assert t[|table|].modelId == m;
      } else {
        var i :| 0 <= i < |table| && table[i].modelId == x;
        assert t[i] == table[i];
      }
    }
  }

  /** The map as a list, in no particular order. */
  method Flatten(byModel: map<string, seq<EndpointDetail>>) returns (table: seq<ServiceEndpoints>)
    ensures IsFlat(table, byModel, byModel.Keys)
  {
    table := [];
    var left := byModel.Keys;
    while left != {}
      invariant left <= byModel.Keys
      invariant IsFlat(table, byModel, byModel.Keys - left)
      decreases left
    {
      var m :| m in left;
      FlatOneMore(table, byModel, byModel.Keys - left, m);
      assert byModel.Keys - left + {m} == byModel.Keys - (left - {m});
      table := table + [ServiceEndpoints(m, byModel[m])];
      left := left - {m};
    }
    assert byModel.Keys - left == byModel.Keys;
  }

  lemma {:induction false} FlatIsTable(
      table: seq<ServiceEndpoints>, byModel: map<string, seq<EndpointDetail>>, es: seq<Entry>)
    requires IsFlat(table, byModel, byModel.Keys) && Grouped(byModel, es)
    ensures IsTable(table, es)
  {
  }

  /** Compiles the running replicas of the online nodes; an unreadable node record gives no table. */
  method BuildServiceEndpoints(s: Store) returns (table: seq<ServiceEndpoints>, ghost online: seq<NodeInfo>)
    ensures NodesDecode(s.data) ==> Listing(s.data, {Online}, online) && IsTable(table, Entries(s.data, online))
    ensures !NodesDecode(s.data) ==> table == []
  {
    var listed;
    ghost var keys, all;
    listed, keys, all := ListNodesByStatuses(s, {Online});
    if listed.Err? {
      return [], [];
    }
    var nodes := listed.value;
    online := nodes;
    assert Listing(s.data, {Online}, online);
    var byModel := AddNodes(s, nodes);
    table := Flatten(byModel);
    FlatIsTable(table, byModel, Entries(s.data, nodes));
  }
}
