/**
 * Queries that join models, replicas and nodes, against relational specifications.
 */
module Queries {
  import opened Types
  import opened Records
  import opened Registry
  import opened Models

  // ----- Model status -----

  datatype ModelStatus = ModelPending | ModelRunning | ModelPartialRunning | ModelFailed

  datatype Breakdown = Breakdown(running: nat, pending: nat, failed: nat, unknown: nat)

  datatype ModelStatusResult = ModelStatusResult(
    modelName: string,
    modelId: string,
    status: ModelStatus,
    total: nat,
    breakdown: Breakdown)

  /** Every status other than running, pending and failed counts as unknown. */
  function Counted(status: ReplicaStatus): ReplicaStatus {
    if status in {Running, Pending, Failed} then status else UnknownReplica
  }

  /** The keys of a model's replica records that count under one status. */
  ghost function InStatus(db: DB, modelId: string, status: ReplicaStatus): set<string> {
    set k | k in ReplicaKeysOf(db, modelId) && Counted(db[k].replica.status) == status
  }

  /** The counters count replica records by status, and cover all of them. */
  ghost predicate CountsReplicas(db: DB, modelId: string, total: nat, b: Breakdown) {
    && total == |ReplicaKeysOf(db, modelId)|
    && b.running == |InStatus(db, modelId, Running)|
    && b.pending == |InStatus(db, modelId, Pending)|
    && b.failed == |InStatus(db, modelId, Failed)|
    && b.unknown == |InStatus(db, modelId, UnknownReplica)|
    && b.running + b.pending + b.failed + b.unknown == total
  }

  /** What the status says about the replicas. */
  ghost predicate StatusFits(db: DB, modelId: string, status: ModelStatus) {
    var all, run := ReplicaKeysOf(db, modelId), InStatus(db, modelId, Running);
    && (status == ModelRunning <==> all != {} && run == all)
    && (status == ModelPartialRunning <==> run != {} && run != all)
    && (status == ModelFailed <==> all != {} && InStatus(db, modelId, Failed) == all)
  }

  function DecideStatus(total: nat, b: Breakdown): ModelStatus {
    if total == 0 then ModelPending
    else if b.running == total then ModelRunning
    else if b.pending == total then ModelPending
    else if b.failed == total then ModelFailed
    else if b.running > 0 then ModelPartialRunning
    else ModelPending
  }

  /** Which records count, in terms of the store. */
  lemma {:induction false} CountedAre(db: DB, modelId: string, k: string)
    ensures k in ReplicaKeysOf(db, modelId)
            <==> && k in db && "replica:" <= k && !("node:" <= k) && !("model:" <= k)
                 && db[k].ReplicaDoc? && db[k].replica.modelId == modelId
    ensures k in ReplicaKeysOf(db, modelId) ==>
              && (k in InStatus(db, modelId, Running) <==> db[k].replica.status == Running)
              && (k in InStatus(db, modelId, Pending) <==> db[k].replica.status == Pending)
              && (k in InStatus(db, modelId, Failed) <==> db[k].replica.status == Failed)
              && (k in InStatus(db, modelId, UnknownReplica)
                  <==> db[k].replica.status != Running && db[k].replica.status != Pending
                       && db[k].replica.status != Failed)
    ensures forall status :: InStatus(db, modelId, status) <= ReplicaKeysOf(db, modelId)
  {
  }

  lemma {:induction false} DecisionIsRight(db: DB, modelId: string, total: nat, b: Breakdown)
    requires CountsReplicas(db, modelId, total, b)
    ensures StatusFits(db, modelId, DecideStatus(total, b))
  {
    var all := ReplicaKeysOf(db, modelId);
    SubsetSize(InStatus(db, modelId, Running), all);
    SubsetSize(InStatus(db, modelId, Failed), all);
    SubsetSize({}, InStatus(db, modelId, Running));
  }

  ghost function CountStatus(replicas: seq<ReplicaInfo>, status: ReplicaStatus): nat {
    if replicas == [] then 0
    else
      var last := |replicas| - 1;
      CountStatus(replicas[..last], status) + if Counted(replicas[last].status) == status then 1 else 0
  }

  /** Counts replicas by status. */
  ghost function Tally(replicas: seq<ReplicaInfo>): Breakdown {
    Breakdown(CountStatus(replicas, Running), CountStatus(replicas, Pending), CountStatus(replicas, Failed),
              CountStatus(replicas, UnknownReplica))
  }

  function Bump(b: Breakdown, status: ReplicaStatus): Breakdown {
    match status
    case Running => b.(running := b.running + 1)
    case Pending => b.(pending := b.pending + 1)
    case Failed => b.(failed := b.failed + 1)
    case _ => b.(unknown := b.unknown + 1)
  }

  lemma {:induction false} TallyNext(replicas: seq<ReplicaInfo>, i: nat)
    requires i < |replicas|
    ensures Tally(replicas[..i + 1]) == Bump(Tally(replicas[..i]), replicas[i].status)
  {
    assert replicas[..i + 1][..i] == replicas[..i];
  }

  method CountReplicas(replicas: seq<ReplicaInfo>) returns (b: Breakdown)
    ensures b.running == CountStatus(replicas, Running) && b.pending == CountStatus(replicas, Pending)
    ensures b.failed == CountStatus(replicas, Failed) && b.unknown == CountStatus(replicas, UnknownReplica)
    ensures b.running + b.pending + b.failed + b.unknown == |replicas|
  {
    b := Breakdown(0, 0, 0, 0);
    for i := 0 to |replicas|
      invariant b == Tally(replicas[..i])
      invariant b.running + b.pending + b.failed + b.unknown == i
    {
      TallyNext(replicas, i);
      match replicas[i].status {
        case Running => b := b.(running := b.running + 1);
        case Pending => b := b.(pending := b.pending + 1);
        case Failed => b := b.(failed := b.failed + 1);
        case _ => b := b.(unknown := b.unknown + 1);
      }
    }
    assert replicas[..|replicas|] == replicas;
  }

  /** `replicas` are the records under distinct `keys`. */
  ghost predicate Holds(db: DB, keys: seq<string>, replicas: seq<ReplicaInfo>) {
    && |keys| == |replicas|
    && (forall i, j :: 0 <= i < j < |keys| ==> keys[i] != keys[j])
    && (forall i :: 0 <= i < |keys| ==> keys[i] in db && db[keys[i]] == ReplicaDoc(replicas[i]))
  }

  /** The keys whose records count under the status. */
  ghost function ChosenKeys(keys: seq<string>, replicas: seq<ReplicaInfo>, status: ReplicaStatus): (r: set<string>)
    requires |keys| == |replicas|
    ensures forall k :: k in r ==> k in keys
  {
    if keys == [] then {}
    else
      var last := |keys| - 1;
      ChosenKeys(keys[..last], replicas[..last], status)
            + (if Counted(replicas[last].status) == status then {keys[last]} else {})
  }

  lemma {:induction false} ChosenSize(keys: seq<string>, replicas: seq<ReplicaInfo>, status: ReplicaStatus)
    requires |keys| == |replicas| && forall i, j :: 0 <= i < j < |keys| ==> keys[i] != keys[j]
    ensures |ChosenKeys(keys, replicas, status)| == CountStatus(replicas, status)
  {
    if keys == [] {
    } else {
      var last := |keys| - 1;
      ChosenSize(keys[..last], replicas[..last], status);
      assert keys[last] !in keys[..last];
      assert keys[last] !in ChosenKeys(keys[..last], replicas[..last], status);
    }
  }

  lemma {:induction false} ChosenAreInStatus(
      db: DB, keys: seq<string>, replicas: seq<ReplicaInfo>, status: ReplicaStatus, k: string)
    requires Holds(db, keys, replicas)
    ensures k in ChosenKeys(keys, replicas, status)
          <==> k in keys && k in db && db[k].ReplicaDoc? && Counted(db[k].replica.status) == status
  {
    if keys == [] {
    } else {
      var last := |keys| - 1;
      assert keys == keys[..last] + [keys[last]];
      ChosenAreInStatus(db, keys[..last], replicas[..last], status, k);
    }
  }

  lemma {:induction false} CountsAreRight(
      db: DB, modelId: string, keys: seq<string>, replicas: seq<ReplicaInfo>, status: ReplicaStatus)
    requires Holds(db, keys, replicas)
    requires forall k :: k in keys <==> k in ReplicaKeysOf(db, modelId)
    ensures CountStatus(replicas, status) == |InStatus(db, modelId, status)|
  {
    ChosenSize(keys, replicas, status);
    forall k ensures k in ChosenKeys(keys, replicas, status) <==> k in InStatus(db, modelId, status) {
      ChosenAreInStatus(db, keys, replicas, status, k);
    }
    assert ChosenKeys(keys, replicas, status) == InStatus(db, modelId, status);
  }

  lemma {:induction false} DistinctSize(keys: seq<string>, all: set<string>)
    requires forall i, j :: 0 <= i < j < |keys| ==> keys[i] != keys[j]
    requires forall k :: k in keys <==> k in all
    ensures |keys| == |all|
  {
    if keys == [] {
      assert all == {};
    } else {
      var last := keys[|keys| - 1];
      var rest := keys[..|keys| - 1];
      assert keys == rest + [last];
      DistinctSize(rest, all - {last});
    }
  }

  method GetModelStatus(s: Store, namespace: string, name: string) returns (r: Result<ModelStatusResult>)
    ensures r.Ok? ==>
              && (exists k :: IsNamed(s.data, k, namespace, name) && s.data[k].model.id == r.value.modelId)
              && r.value.modelName == name
              && CountsReplicas(s.data, r.value.modelId, r.value.total, r.value.breakdown)
              && StatusFits(s.data, r.value.modelId, r.value.status)
    ensures r.Err? && WellFormed(s.data) ==> name == "" || NameFree(s.data, namespace, name)
    ensures name == "" || NameFree(s.data, namespace, name) ==> r.Err?
  {
    if name == "" {
      return Err;
    }
    var model := GetModelByNamespaceAndName(s, namespace, name);
    if model.Err? || model.value.None? {
      return Err;
    }
    var info := model.value.value;
    ghost var k :| IsNamed(s.data, k, namespace, name) && s.data[k].model == info;
    if WellFormed(s.data) {
      assert DocOk(k, s.data[k]);
      WellFormedDecodes(s.data);
    }
    var replicas;
    ghost var keys;
    replicas, keys := ListReplicasByModelID(s, info.id);
    if replicas.Err? {
      return Err;
    }
    var b := CountReplicas(replicas.value);
    var total := |replicas.value|;
    CountsAreRight(s.data, info.id, keys, replicas.value, Running);
    CountsAreRight(s.data, info.id, keys, replicas.value, Pending);
    CountsAreRight(s.data, info.id, keys, replicas.value, Failed);
    CountsAreRight(s.data, info.id, keys, replicas.value, UnknownReplica);
    DistinctSize(keys, ReplicaKeysOf(s.data, info.id));
    DecisionIsRight(s.data, info.id, total, b);
    return Ok(ModelStatusResult(info.name, info.id, DecideStatus(total, b), total, b));
  }

  // ----- Nodes serving a model -----

  datatype NodeAddress = NodeAddress(nodeId: string, ip: string, port: int)

  function NodeAddressOf(n: NodeInfo): NodeAddress {
    NodeAddress(n.id, n.ip, n.port)
  }

  lemma {:induction false} AddressFields(n: NodeInfo)
    ensures var a := NodeAddressOf(n); a.nodeId == n.id && a.ip == n.ip && a.port == n.port
  {
  }

  ghost predicate IsNode(db: DB, n: NodeInfo) {
    NodeKey(n.id) in db && db[NodeKey(n.id)] == NodeDoc(n)
  }

  /** The node lists at least one stored replica of the model. */
  ghost predicate Serves(db: DB, n: NodeInfo, modelId: string) {
    exists id :: id in n.assignedModels && ReplicaKey(id) in ReplicaKeysOf(db, modelId)
  }

  /** `addresses` names each node that serves the model exactly once, and no other. */
  ghost predicate ServingNodes(db: DB, modelId: string, addresses: seq<NodeAddress>) {
    && (forall n :: IsNode(db, n) && Serves(db, n, modelId) ==> NodeAddressOf(n) in addresses)
    && (forall a :: a in addresses ==> exists n :: IsNode(db, n) && Serves(db, n, modelId) && NodeAddressOf(n) == a)
    && (forall i, j :: 0 <= i < j < |addresses| ==> addresses[i].nodeId != addresses[j].nodeId)
  }

  /** The IDs a model's replicas carry. */
  method ReplicaIds(replicas: seq<ReplicaInfo>) returns (ids: set<string>)
    ensures forall id :: id in ids <==> exists i :: 0 <= i < |replicas| && replicas[i].id == id
  {
    ids := {};
    for i := 0 to |replicas|
      invariant forall id :: id in ids <==> exists j :: 0 <= j < i && replicas[j].id == id
    {
      ids := ids + {replicas[i].id};
    }
  }

  method ListsAny(assignedModels: seq<string>, ids: set<string>) returns (found: bool)
    ensures found <==> exists id :: id in assignedModels && id in ids
  {
    for i := 0 to |assignedModels|
      invariant forall j :: 0 <= j < i ==> assignedModels[j] !in ids
    {
      if assignedModels[i] in ids {
        return true;
      }
    }
    return false;
  }

  /** The nodes, in listing order and once per ID, that list a replica ID in `ids`. */
  method CollectNodes(nodes: seq<NodeInfo>, ids: set<string>) returns (addresses: seq<NodeAddress>)
    ensures forall a :: a in addresses ==>
              exists i :: 0 <= i < |nodes| && NodeAddressOf(nodes[i]) == a
                          && exists id :: id in nodes[i].assignedModels && id in ids
    ensures forall i :: 0 <= i < |nodes| && (exists id :: id in nodes[i].assignedModels && id in ids) ==>
              exists a :: a in addresses && a.nodeId == nodes[i].id
    ensures forall i, j :: 0 <= i < j < |addresses| ==> addresses[i].nodeId != addresses[j].nodeId
  {
    addresses := [];
    var seen: set<string> := {};
    for i := 0 to |nodes|
      invariant forall a :: a in addresses ==>
                  exists j :: 0 <= j < i && NodeAddressOf(nodes[j]) == a
                              && exists id :: id in nodes[j].assignedModels && id in ids
      invariant forall j :: 0 <= j < i && (exists id :: id in nodes[j].assignedModels && id in ids) ==>
                  nodes[j].id in seen
      invariant forall x :: x in seen <==> exists a :: a in addresses && a.nodeId == x
      invariant forall a, b :: 0 <= a < b < |addresses| ==> addresses[a].nodeId != addresses[b].nodeId
    {
      var serves := ListsAny(nodes[i].assignedModels, ids);
      if serves && nodes[i].id !in seen {
        ghost var before := addresses;
        var a := NodeAddressOf(nodes[i]);
        addresses := addresses + [a];
        seen := seen + {nodes[i].id};
        assert addresses[|before|] == a;
        assert forall x :: x in before ==> x in addresses;
      }
    }
  }

  method GetNodesByModelName(s: Store, namespace: string, name: string) returns (r: Result<(string, seq<NodeAddress>)>)
    ensures r.Ok? ==> exists k :: IsNamed(s.data, k, namespace, name) && s.data[k].model.id == r.value.0
    ensures r.Ok? && WellFormed(s.data) ==> ServingNodes(s.data, r.value.0, r.value.1)
    ensures r.Err? && WellFormed(s.data) ==> name == "" || NameFree(s.data, namespace, name)
    ensures name == "" || NameFree(s.data, namespace, name) ==> r.Err?
  {
    if name == "" {
      return Err;
    }
    var model := GetModelByNamespaceAndName(s, namespace, name);
    if model.Err? || model.value.None? {
      return Err;
    }
    var info := model.value.value;
    ghost var k :| IsNamed(s.data, k, namespace, name) && s.data[k].model == info;
    if WellFormed(s.data) {
      assert DocOk(k, s.data[k]);
      WellFormedDecodes(s.data);
    }
    var replicas;
    ghost var replicaKeys, nodeKeys;
    replicas, replicaKeys := ListReplicasByModelID(s, info.id);
    if replicas.Err? {
      return Err;
    }
    var ids := ReplicaIds(replicas.value);
    var nodes;
    nodes, nodeKeys := ListNodes(s);
    if nodes.Err? {
      return Err;
    }
    var addresses := CollectNodes(nodes.value, ids);
    if WellFormed(s.data) {
      IdsAreKeys(s.data, info.id, replicas.value, replicaKeys, ids);
      CollectedServe(s.data, info.id, nodes.value, nodeKeys, ids, addresses);
    }
    return Ok((info.id, addresses));
  }

  lemma {:induction false} IdsAreKeys(
      db: DB, modelId: string, replicas: seq<ReplicaInfo>, keys: seq<string>, ids: set<string>)
    requires WellFormed(db) && |keys| == |replicas|
    requires forall k :: k in keys <==> k in ReplicaKeysOf(db, modelId)
    requires forall i :: 0 <= i < |keys| ==> keys[i] in db && db[keys[i]] == ReplicaDoc(replicas[i])
    requires forall id :: id in ids <==> exists i :: 0 <= i < |replicas| && replicas[i].id == id
    ensures forall id :: id in ids <==> ReplicaKey(id) in ReplicaKeysOf(db, modelId)
  {
    forall id ensures id in ids <==> ReplicaKey(id) in ReplicaKeysOf(db, modelId) {
      if id in ids {
        var i :| 0 <= i < |replicas| && replicas[i].id == id;
        assert keys[i] in keys;
        assert DocOk(keys[i], db[keys[i]]);
        KeyOfId(keys[i]);
      }
      if ReplicaKey(id) in ReplicaKeysOf(db, modelId) {
        var i :| 0 <= i < |keys| && keys[i] == ReplicaKey(id);
        assert DocOk(keys[i], db[keys[i]]);
        assert replicas[i].id == id;
      }
    }
  }

  /** A listed node is stored under its own ID. */
  lemma {:induction false} ListedIsNode(db: DB, keys: seq<string>, nodes: seq<NodeInfo>, i: nat)
    requires WellFormed(db) && ListsNodes(db, keys, nodes) && i < |nodes|
    ensures keys[i] == NodeKey(nodes[i].id) && IsNode(db, nodes[i])
  {
    assert keys[i] in keys;
    assert DocOk(keys[i], db[keys[i]]);
    KeyOfId(keys[i]);
  }

  lemma {:induction false} NodeIsListed(db: DB, keys: seq<string>, nodes: seq<NodeInfo>, n: NodeInfo) returns (i: nat)
    requires ListsNodes(db, keys, nodes) && IsNode(db, n)
    ensures i < |nodes| && nodes[i] == n
  {
    assert NodeKey(n.id) in keys;
    i :| 0 <= i < |keys| && keys[i] == NodeKey(n.id);
  }

  lemma {:induction false} CollectedServe(
      db: DB, modelId: string, nodes: seq<NodeInfo>, keys: seq<string>, ids: set<string>, addresses: seq<NodeAddress>)
    requires WellFormed(db) && ListsNodes(db, keys, nodes)
    requires forall id :: id in ids <==> ReplicaKey(id) in ReplicaKeysOf(db, modelId)
    requires forall a :: a in addresses ==>
               exists i :: 0 <= i < |nodes| && NodeAddressOf(nodes[i]) == a
                           && exists id :: id in nodes[i].assignedModels && id in ids
    requires forall i :: 0 <= i < |nodes| && (exists id :: id in nodes[i].assignedModels && id in ids) ==>
               exists a :: a in addresses && a.nodeId == nodes[i].id
    requires forall i, j :: 0 <= i < j < |addresses| ==> addresses[i].nodeId != addresses[j].nodeId
    ensures ServingNodes(db, modelId, addresses)
  {
    forall a | a in addresses ensures exists n :: IsNode(db, n) && Serves(db, n, modelId) && NodeAddressOf(n) == a {
      var i :| 0 <= i < |nodes| && NodeAddressOf(nodes[i]) == a
                 && exists id :: id in nodes[i].assignedModels && id in ids;
      ListedIsNode(db, keys, nodes, i);
    }
    forall n | IsNode(db, n) && Serves(db, n, modelId) ensures NodeAddressOf(n) in addresses {
      var i := NodeIsListed(db, keys, nodes, n);
      var id :| id in n.assignedModels && ReplicaKey(id) in ReplicaKeysOf(db, modelId);
      assert id in nodes[i].assignedModels && id in ids;
      var a :| a in addresses && a.nodeId == n.id;
      var m :| IsNode(db, m) && Serves(db, m, modelId) && NodeAddressOf(m) == a;
      assert m == n;
    }
  }
}
