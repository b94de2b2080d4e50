/**
 * The registry and replica layer over the store.
 *
 * Each operation has a specification on the stored map; the method refines it and may also
 * fail because the store could not append.  Each call is taken as atomic: the source checks
 * and then writes without holding one lock.
 */
module Registry {
  import opened Types
  import opened Records
  import Wal

  type Store = Wal.Store<Doc>

  /**
   * The call did what `spec` says, or reported an error and changed nothing; with no append
   * failing (`clean`), it succeeds exactly when `spec` does.
   */
  ghost predicate Refines(spec: Result<DB>, before: DB, after: DB, r: Result<()>, clean: bool) {
    && (r.Ok? ==> spec == Ok(after))
    && (r.Err? ==> after == before)
    && (clean ==> (r.Ok? <==> spec.Ok?))
  }

  // ----- Nodes -----

  function RegisteredNode(id: string, info: NodeInfo, now: Time): NodeInfo {
    info.(id := if info.id == "" then id else info.id,
          registeredAt := if info.registeredAt == ZERO_TIME then now else info.registeredAt,
          updatedAt := now,
          lastActivity := if info.lastActivity == ZERO_TIME then now else info.lastActivity)
  }

  function RegisterNodeSpec(db: DB, id: string, info: NodeInfo, now: Time): Result<DB> {
    if id == "" then Err else Ok(db[NodeKey(id) := NodeDoc(RegisteredNode(id, info, now))])
  }

  method RegisterNode(s: Store, id: string, info: NodeInfo, now: Time) returns (r: Result<()>)
    modifies s
    ensures s.failures >= old(s.failures)
    ensures Refines(RegisterNodeSpec(old(s.data), id, info, now), old(s.data), s.data, r, s.failures == old(s.failures))
    ensures old(s.Agrees()) && s.failures == old(s.failures) ==> s.Agrees()
    ensures old(s.Sound()) ==> s.Sound() && s.failures == old(s.failures)
  {
    if id == "" {
      return Err;
    }
    var stored := info;
    if stored.id == "" {
      stored := stored.(id := id);
    }
    if stored.registeredAt == ZERO_TIME {
      stored := stored.(registeredAt := now);
    }
    stored := stored.(updatedAt := now);
    if stored.lastActivity == ZERO_TIME {
      stored := stored.(lastActivity := now);
    }
    r := s.Put(NodeKey(id), NodeDoc(stored));
  }

  function DeRegisterNodeSpec(db: DB, id: string): Result<DB> {
    if id == "" then Err else Ok(db - {NodeKey(id)})
  }

  method DeRegisterNode(s: Store, id: string) returns (r: Result<()>)
    modifies s
    ensures s.failures >= old(s.failures)
    ensures Refines(DeRegisterNodeSpec(old(s.data), id), old(s.data), s.data, r, s.failures == old(s.failures))
    ensures old(s.Agrees()) && s.failures == old(s.failures) ==> s.Agrees()
    ensures old(s.Sound()) ==> s.Sound() && s.failures == old(s.failures)
  {
    if id == "" {
      return Err;
    }
    r := s.Delete(NodeKey(id));
  }

  /** Zero times are taken from the stored record, if there is one. */
  function UpdatedNode(existing: Option<NodeInfo>, id: string, info: NodeInfo, now: Time): NodeInfo {
    var kept := if existing.None? then info else
                  var e := existing.value;
                  info.(registeredAt := if info.registeredAt == ZERO_TIME then e.registeredAt else info.registeredAt,
                        lastHeartbeat := if info.lastHeartbeat == ZERO_TIME then e.lastHeartbeat
                                          else info.lastHeartbeat,
                        lastActivity := if info.lastActivity == ZERO_TIME then e.lastActivity else info.lastActivity);
    kept.(id := id, updatedAt := now, lastActivity := if kept.lastActivity == ZERO_TIME then now else kept.lastActivity)
  }

  function UpdateNodeInfoSpec(db: DB, id: string, info: NodeInfo, now: Time): Result<DB> {
    if id == "" || (info.id != "" && info.id != id) then Err
    else match Lookup(db, NodeKey(id))
      case None => Ok(db[NodeKey(id) := NodeDoc(UpdatedNode(None, id, info, now))])
      case Some(NodeDoc(e)) => Ok(db[NodeKey(id) := NodeDoc(UpdatedNode(Some(e), id, info, now))])
      case Some(_) => Err
  }

  method UpdateNodeInfo(s: Store, id: string, info: NodeInfo, now: Time) returns (r: Result<()>)
    modifies s
    ensures s.failures >= old(s.failures)
    ensures Refines(UpdateNodeInfoSpec(old(s.data), id, info, now), old(s.data), s.data, r,
                    s.failures == old(s.failures))
    ensures old(s.Agrees()) && s.failures == old(s.failures) ==> s.Agrees()
    ensures old(s.Sound()) ==> s.Sound() && s.failures == old(s.failures)
  {
    if id == "" || (info.id != "" && info.id != id) {
      return Err;
    }
    var stored := info.(id := id);
    var existing := s.Get(NodeKey(id));
    if existing.Some? {
      if !existing.value.NodeDoc? {
        return Err;
      }
      var e := existing.value.node;
      if stored.registeredAt == ZERO_TIME {
        stored := stored.(registeredAt := e.registeredAt);
      }
      if stored.lastHeartbeat == ZERO_TIME {
        stored := stored.(lastHeartbeat := e.lastHeartbeat);
      }
      if stored.lastActivity == ZERO_TIME {
        stored := stored.(lastActivity := e.lastActivity);
      }
    }
    stored := stored.(updatedAt := now);
    if stored.lastActivity == ZERO_TIME {
      stored := stored.(lastActivity := now);
    }
    r := s.Put(NodeKey(id), NodeDoc(stored));
  }

  /** An update that carries no times keeps the registration, heartbeat and activity times of the record. */
  lemma {:induction false} UpdateKeepsHistory(db: DB, id: string, e: NodeInfo, info: NodeInfo, now: Time)
    requires id != "" && Lookup(db, NodeKey(id)) == Some(NodeDoc(e)) && (info.id == "" || info.id == id)
    requires info.registeredAt == info.lastHeartbeat == info.lastActivity == ZERO_TIME
    ensures var r := UpdateNodeInfoSpec(db, id, info, now);
            && r.Ok? && r.value.Keys == db.Keys && r.value[NodeKey(id)].NodeDoc?
            && var n := r.value[NodeKey(id)].node;
               && n.id == id && n.registeredAt == e.registeredAt && n.lastHeartbeat == e.lastHeartbeat
               && n.updatedAt == now
               && (e.lastActivity != ZERO_TIME ==> n.lastActivity == e.lastActivity)
  {
    assert db[NodeKey(id) := NodeDoc(UpdatedNode(Some(e), id, info, now))].Keys == db.Keys;
  }

  /** Any status change also counts as a heartbeat. */
  function Marked(info: NodeInfo, status: NodeStatus, now: Time): NodeInfo {
    info.(status := status, updatedAt := now, lastHeartbeat := now,
          lastActivity := if info.lastActivity == ZERO_TIME then now else info.lastActivity)
  }

  function UpdateNodeStatusSpec(db: DB, id: string, status: NodeStatus, now: Time): Result<DB> {
    if id == "" then Err
    else match Lookup(db, NodeKey(id))
      case Some(NodeDoc(info)) => Ok(db[NodeKey(id) := NodeDoc(Marked(info, status, now))])
      case _ => Err
  }

  method UpdateNodeStatus(s: Store, id: string, status: NodeStatus, now: Time) returns (r: Result<()>)
    modifies s
    ensures s.failures >= old(s.failures)
    ensures Refines(UpdateNodeStatusSpec(old(s.data), id, status, now), old(s.data), s.data, r,
                    s.failures == old(s.failures))
    ensures old(s.Agrees()) && s.failures == old(s.failures) ==> s.Agrees()
    ensures old(s.Sound()) ==> s.Sound() && s.failures == old(s.failures)
  {
    if id == "" {
      return Err;
    }
    var raw := s.Get(NodeKey(id));
    if raw.None? || !raw.value.NodeDoc? {
      return Err;
    }
    var info := raw.value.node;
    info := info.(status := status, updatedAt := now);
    info := info.(lastHeartbeat := now);
    if info.lastActivity == ZERO_TIME {
      info := info.(lastActivity := now);
    }
    r := s.Put(NodeKey(id), NodeDoc(info));
  }

  ghost predicate NodesDecode(db: DB) {
    forall k :: k in db && KindOf(k) == NodeKind ==> db[k].NodeDoc?
  }

  ghost predicate ReplicasDecode(db: DB) {
    forall k :: k in db && KindOf(k) == ReplicaKind ==> db[k].ReplicaDoc?
  }

  lemma {:induction false} WellFormedDecodes(db: DB)
    requires WellFormed(db)
    ensures NodesDecode(db) && ReplicasDecode(db)
  {
    forall k | k in db
      ensures (KindOf(k) == NodeKind ==> db[k].NodeDoc?) && (KindOf(k) == ReplicaKind ==> db[k].ReplicaDoc?)
    {
      assert DocOk(k, db[k]);
    }
  }

  /** `keys` are the keys of a kind, each once. */
  ghost predicate KeysOfKind(db: DB, kind: Kind, keys: seq<string>) {
    && (forall k :: k in keys <==> k in db && KindOf(k) == kind)
    && (forall i, j :: 0 <= i < j < |keys| ==> keys[i] != keys[j])
  }

  /** `nodes` are the stored node records, one for each key. */
  ghost predicate ListsNodes(db: DB, keys: seq<string>, nodes: seq<NodeInfo>) {
    && KeysOfKind(db, NodeKind, keys)
    && |nodes| == |keys|
    && forall i :: 0 <= i < |keys| ==> db[keys[i]] == NodeDoc(nodes[i])
  }

  ghost predicate ListsReplicas(db: DB, keys: seq<string>, replicas: seq<ReplicaInfo>) {
    && KeysOfKind(db, ReplicaKind, keys)
    && |replicas| == |keys|
    && forall i :: 0 <= i < |keys| ==> db[keys[i]] == ReplicaDoc(replicas[i])
  }

  /** The keys of one kind, in the order the store lists them. */
  method KeysOf(s: Store, kind: Kind) returns (keys: seq<string>)
    ensures KeysOfKind(s.data, kind, keys)
  {
    var all := s.Keys();
    keys := [];
    for i := 0 to |all|
      invariant forall k :: k in keys <==> k in all[..i] && KindOf(k) == kind
      invariant forall a, b :: 0 <= a < b < |keys| ==> keys[a] != keys[b]
    {
      assert all[..i + 1] == all[..i] + [all[i]];
      assert all[i] !in all[..i];
      if KindOf(all[i]) == kind {
        keys := keys + [all[i]];
      }
    }
    assert all[..|all|] == all;
  }

  method ListNodes(s: Store) returns (r: Result<seq<NodeInfo>>, ghost keys: seq<string>)
    ensures r.Ok? ==> ListsNodes(s.data, keys, r.value)
    ensures r.Ok? <==> NodesDecode(s.data)
  {
    var ks := KeysOf(s, NodeKind);
    var nodes := [];
    for i := 0 to |ks|
      invariant |nodes| == i
      invariant forall j :: 0 <= j < i ==> s.data[ks[j]] == NodeDoc(nodes[j])
    {
      var raw := s.Get(ks[i]);
      assert ks[i] in s.data;
      if !raw.value.NodeDoc? {
        return Err, ks;
      }
      nodes := nodes + [raw.value.node];
    }
    return Ok(nodes), ks;
  }

  function WithStatus(nodes: seq<NodeInfo>, statuses: set<NodeStatus>): (r: seq<NodeInfo>)
    ensures forall n :: n in r <==> n in nodes && n.status in statuses
  {
    if nodes == [] then []
    else
      var last := nodes[|nodes| - 1];
      WithStatus(nodes[..|nodes| - 1], statuses) + (if last.status in statuses then [last] else [])
  }

  method ListNodesByStatuses(s: Store, statuses: set<NodeStatus>)
    returns (r: Result<seq<NodeInfo>>, ghost keys: seq<string>, ghost all: seq<NodeInfo>)
    ensures r.Ok? ==> ListsNodes(s.data, keys, all) && r.value == WithStatus(all, statuses)
    ensures r.Ok? <==> NodesDecode(s.data)
  {
    var nodes;
    nodes, keys := ListNodes(s);
    if nodes.Err? {
      return Err, keys, [];
    }
    all := nodes.value;
    var chosen := [];
    for i := 0 to |nodes.value|
      invariant chosen == WithStatus(nodes.value[..i], statuses)
    {
      assert nodes.value[..i + 1][..i] == nodes.value[..i];
      if nodes.value[i].status in statuses {
        chosen := chosen + [nodes.value[i]];
      }
    }
    assert nodes.value[..|nodes.value|] == nodes.value;
    return Ok(chosen), keys, all;
  }

  // ----- Replicas -----

  function PutReplicaSpec(db: DB, id: string, info: ReplicaInfo): Result<DB> {
    if id == "" || (info.id != "" && info.id != id) then Err
    else Ok(db[ReplicaKey(id) := ReplicaDoc(info.(id := id))])
  }

  method CreateReplica(s: Store, id: string, info: ReplicaInfo) returns (r: Result<()>)
    modifies s
    ensures s.failures >= old(s.failures)
    ensures Refines(PutReplicaSpec(old(s.data), id, info), old(s.data), s.data, r, s.failures == old(s.failures))
    ensures old(s.Agrees()) && s.failures == old(s.failures) ==> s.Agrees()
    ensures old(s.Sound()) ==> s.Sound() && s.failures == old(s.failures)
  {
    if id == "" {
      return Err;
    }
    var stored := info;
    if stored.id == "" {
      stored := stored.(id := id);
    } else if stored.id != id {
      return Err;
    }
    r := s.Put(ReplicaKey(id), ReplicaDoc(stored));
  }

  method UpdateReplicaInfo(s: Store, id: string, info: ReplicaInfo) returns (r: Result<()>)
    modifies s
    ensures s.failures >= old(s.failures)
    ensures Refines(PutReplicaSpec(old(s.data), id, info), old(s.data), s.data, r, s.failures == old(s.failures))
    ensures old(s.Agrees()) && s.failures == old(s.failures) ==> s.Agrees()
    ensures old(s.Sound()) ==> s.Sound() && s.failures == old(s.failures)
  {
    if id == "" || (info.id != "" && info.id != id) {
      return Err;
    }
    r := s.Put(ReplicaKey(id), ReplicaDoc(info.(id := id)));
  }

  function DeleteReplicaSpec(db: DB, id: string): Result<DB> {
    if id == "" then Err else Ok(db - {ReplicaKey(id)})
  }

  method DeleteReplica(s: Store, id: string) returns (r: Result<()>)
    modifies s
    ensures s.failures >= old(s.failures)
    ensures Refines(DeleteReplicaSpec(old(s.data), id), old(s.data), s.data, r, s.failures == old(s.failures))
    ensures old(s.Agrees()) && s.failures == old(s.failures) ==> s.Agrees()
    ensures old(s.Sound()) ==> s.Sound() && s.failures == old(s.failures)
  {
    if id == "" {
      return Err;
    }
    r := s.Delete(ReplicaKey(id));
  }

  /** A replica by ID: an error for an empty ID or a value that does not decode. */
  function GetReplica(db: DB, id: string): Result<Option<ReplicaInfo>> {
    if id == "" then Err
    else match Lookup(db, ReplicaKey(id))
      case None => Ok(None)
      case Some(ReplicaDoc(info)) => Ok(Some(info))
      case Some(_) => Err
  }

  method GetReplicaByID(s: Store, id: string) returns (r: Result<Option<ReplicaInfo>>)
    ensures r == GetReplica(s.data, id)
  {
    if id == "" {
      return Err;
    }
    var raw := s.Get(ReplicaKey(id));
    match raw {
      case None => return Ok(None);
      case Some(ReplicaDoc(info)) => return Ok(Some(info));
      case Some(_) => return Err;
    }
  }

  method ListReplicas(s: Store) returns (r: Result<seq<ReplicaInfo>>, ghost keys: seq<string>)
    ensures r.Ok? ==> ListsReplicas(s.data, keys, r.value)
    ensures r.Ok? <==> ReplicasDecode(s.data)
  {
    var ks := KeysOf(s, ReplicaKind);
    var replicas := [];
    for i := 0 to |ks|
      invariant |replicas| == i
      invariant forall j :: 0 <= j < i ==> s.data[ks[j]] == ReplicaDoc(replicas[j])
    {
      var raw := s.Get(ks[i]);
      assert ks[i] in s.data;
      if !raw.value.ReplicaDoc? {
        return Err, ks;
      }
      replicas := replicas + [raw.value.replica];
    }
    return Ok(replicas), ks;
  }

  /** The keys of a model's replica records. */
  ghost function ReplicaKeysOf(db: DB, modelId: string): set<string> {
    set k | k in db && KindOf(k) == ReplicaKind && db[k].ReplicaDoc? && db[k].replica.modelId == modelId
  }

  /** Returns the replica records of a model, one for each key. */
  method ListReplicasByModelID(s: Store, modelId: string) returns (r: Result<seq<ReplicaInfo>>, ghost keys: seq<string>)
    ensures r.Ok? ==> |keys| == |r.value|
    ensures r.Ok? ==> forall i, j :: 0 <= i < j < |keys| ==> keys[i] != keys[j]
    ensures r.Ok? ==> forall k :: k in keys <==> k in ReplicaKeysOf(s.data, modelId)
    ensures r.Ok? ==> forall i :: 0 <= i < |keys| ==> keys[i] in s.data && s.data[keys[i]] == ReplicaDoc(r.value[i])
    ensures r.Ok? <==> modelId != "" && ReplicasDecode(s.data)
  {
    keys := [];
    if modelId == "" {
      return Err, [];
    }
    var all;
    ghost var allKeys;
    all, allKeys := ListReplicas(s);
    if all.Err? {
      return Err, [];
    }
    var replicas := [];
    for i := 0 to |all.value|
      invariant |keys| == |replicas|
      invariant forall k :: k in keys <==>
                  k in allKeys[..i] && k in s.data && s.data[k].ReplicaDoc? && s.data[k].replica.modelId == modelId
      invariant forall a, b :: 0 <= a < b < |keys| ==> keys[a] != keys[b]
      invariant forall a :: 0 <= a < |keys| ==> keys[a] in s.data && s.data[keys[a]] == ReplicaDoc(replicas[a])
    {
      assert allKeys[..i + 1] == allKeys[..i] + [allKeys[i]];
      assert allKeys[i] !in allKeys[..i];
      assert allKeys[i] in allKeys;
      if all.value[i].modelId == modelId {
        replicas := replicas + [all.value[i]];
        keys := keys + [allKeys[i]];
      }
    }
    assert allKeys[..|allKeys|] == allKeys;
    return Ok(replicas), keys;
  }

  // ----- The stored records, field by field -----

  /** What a node is and has, apart from its ID and times. */
  predicate SameNode(n: NodeInfo, m: NodeInfo) {
    && n.name == m.name && n.ip == m.ip && n.port == m.port && n.metadata == m.metadata && n.tops == m.tops
    && n.assignedModels == m.assignedModels
  }

  /** Registration fills in a missing ID and missing registration and activity times. */
  lemma {:induction false} RegisterFillsIn(db: DB, id: string, info: NodeInfo, now: Time)
    ensures RegisterNodeSpec(db, id, info, now).Err? <==> id == ""
    ensures id != "" ==>
              var t, k := RegisterNodeSpec(db, id, info, now).value, "node:" + id;
              && OnlyAt(db, t, k) && k in t && t[k].NodeDoc?
              && var n := t[k].node;
                 && SameNode(n, info) && n.status == info.status && n.lastHeartbeat == info.lastHeartbeat
                 && n.id == (if info.id == "" then id else info.id)
                 && n.updatedAt == now
                 && n.registeredAt == (if info.registeredAt == 0 then now else info.registeredAt)
                 && n.lastActivity == (if info.lastActivity == 0 then now else info.lastActivity)
  {
  }

  lemma {:induction false} DeRegisterRemoves(db: DB, id: string)
    ensures DeRegisterNodeSpec(db, id).Err? <==> id == ""
    ensures id != "" ==> var t := DeRegisterNodeSpec(db, id).value; OnlyAt(db, t, "node:" + id) && "node:" + id !in t
  {
  }

  /** An update takes over what the request carries; times it leaves out are kept, or filled in. */
  lemma {:induction false} UpdateTakesOver(db: DB, id: string, info: NodeInfo, now: Time)
    ensures var k := "node:" + id;
            UpdateNodeInfoSpec(db, id, info, now).Ok?
            <==> id != "" && (info.id == "" || info.id == id) && (k in db ==> db[k].NodeDoc?)
    ensures UpdateNodeInfoSpec(db, id, info, now).Ok? ==>
              var t, k := UpdateNodeInfoSpec(db, id, info, now).value, "node:" + id;
              && OnlyAt(db, t, k) && k in t && t[k].NodeDoc?
              && var n := t[k].node;
                 && SameNode(n, info) && n.status == info.status && n.id == id && n.updatedAt == now
                 && (info.registeredAt != 0 ==> n.registeredAt == info.registeredAt)
                 && (info.lastHeartbeat != 0 ==> n.lastHeartbeat == info.lastHeartbeat)
                 && (info.lastActivity != 0 ==> n.lastActivity == info.lastActivity)
                 && (k !in db ==>
                       && (info.registeredAt == 0 ==> n.registeredAt == 0)
                       && (info.lastHeartbeat == 0 ==> n.lastHeartbeat == 0)
                       && (info.lastActivity == 0 ==> n.lastActivity == now))
                 && (k in db ==>
                       && (info.registeredAt == 0 ==> n.registeredAt == db[k].node.registeredAt)
                       && (info.lastHeartbeat == 0 ==> n.lastHeartbeat == db[k].node.lastHeartbeat)
                       && (info.lastActivity == 0 ==>
                             n.lastActivity == if db[k].node.lastActivity == 0 then now else db[k].node.lastActivity))
  {
  }

  /** A status update of a stored node sets the status and counts as a heartbeat and an update. */
  lemma {:induction false} StatusIsSet(db: DB, id: string, status: NodeStatus, now: Time)
    ensures var k := "node:" + id;
            UpdateNodeStatusSpec(db, id, status, now).Ok? <==> id != "" && k in db && db[k].NodeDoc?
    ensures UpdateNodeStatusSpec(db, id, status, now).Ok? ==>
              var t, k := UpdateNodeStatusSpec(db, id, status, now).value, "node:" + id;
              && OnlyAt(db, t, k) && k in t && t[k].NodeDoc?
              && var n, was := t[k].node, db[k].node;
                 && SameNode(n, was) && n.id == was.id && n.registeredAt == was.registeredAt
                 && n.status == status && n.updatedAt == now && n.lastHeartbeat == now
                 && n.lastActivity == (if was.lastActivity == 0 then now else was.lastActivity)
  {
  }

  /** A replica is stored as given, under its ID; another ID in the record is refused. */
  lemma {:induction false} ReplicaIsPut(db: DB, id: string, info: ReplicaInfo)
    ensures PutReplicaSpec(db, id, info).Ok? <==> id != "" && (info.id == "" || info.id == id)
    ensures PutReplicaSpec(db, id, info).Ok? ==>
              var t, k := PutReplicaSpec(db, id, info).value, "replica:" + id;
              && OnlyAt(db, t, k) && k in t && t[k].ReplicaDoc?
              && var r := t[k].replica;
                 && r.id == id && r.modelId == info.modelId && r.name == info.name && r.status == info.status
                 && r.errorCode == info.errorCode && r.errorMessage == info.errorMessage
                 && r.lastHeartbeat == info.lastHeartbeat
  {
  }

  lemma {:induction false} ReplicaIsDeleted(db: DB, id: string)
    ensures DeleteReplicaSpec(db, id).Err? <==> id == ""
    ensures id != "" ==>
              var t := DeleteReplicaSpec(db, id).value; OnlyAt(db, t, "replica:" + id) && "replica:" + id !in t
  {
  }

  lemma {:induction false} ReplicaIsFound(db: DB, id: string)
    ensures var k := "replica:" + id;
            && (GetReplica(db, id).Err? <==> id == "" || (k in db && !db[k].ReplicaDoc?))
            && (GetReplica(db, id) == Ok(None) <==> id != "" && k !in db)
            && (id != "" && k in db && db[k].ReplicaDoc? ==> GetReplica(db, id) == Ok(Some(db[k].replica)))
  {
  }
}
