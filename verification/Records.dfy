/**
 * The records the control plane keeps in its store, and the keys it keeps them under.
 *
 * A stored value is modelled as the record its JSON decodes to; `Corrupt` is a value that
 * does not decode.  Times count from Go's zero time, in nanoseconds.
 */
module Records {
  import opened Types

  type Time = int

  const ZERO_TIME: Time := 0

  /** A finite float64: mantissa times a power of two. */
  datatype Float = Float(mantissa: int, exponent: int)

  function PowerOfTwo(e: int): real
    decreases if e < 0 then -e else e
  {
    if e == 0 then 1.0 else if e > 0 then 2.0 * PowerOfTwo(e - 1) else PowerOfTwo(e + 1) / 2.0
  }

  function ValueOf(f: Float): real {
    f.mantissa as real * PowerOfTwo(f.exponent)
  }

  datatype NodeStatus = Online | Unknown | Offline | OtherStatus(text: string)

  datatype ReplicaStatus = Pending | Running | Failed | UnknownReplica | OtherReplicaStatus(text: string)

  /** `tops` lists the TOPS of the compute devices; `assignedModels` lists replica IDs. */
  datatype NodeInfo = NodeInfo(
    id: string,
    name: string,
    ip: string,
    port: int,
    metadata: string,
    tops: seq<Float>,
    status: NodeStatus,
    assignedModels: seq<string>,
    registeredAt: Time,
    updatedAt: Time,
    lastHeartbeat: Time,
    lastActivity: Time)

  datatype ModelInfo = ModelInfo(id: string, name: string, namespace: string, filePath: string, replicas: int)

  datatype ReplicaInfo = ReplicaInfo(
    id: string,
    modelId: string,
    name: string,
    status: ReplicaStatus,
    errorCode: int,
    errorMessage: string,
    lastHeartbeat: Time)

  datatype Doc = NodeDoc(node: NodeInfo) | ModelDoc(model: ModelInfo) | ReplicaDoc(replica: ReplicaInfo) | Corrupt

  type DB = map<string, Doc>

  // ----- Keys -----

  datatype Kind = NodeKind | ModelKind | ReplicaKind | NoKind

  function KindOf(k: string): Kind {
    if "node:" <= k then NodeKind
    else if "model:" <= k then ModelKind
    else if "replica:" <= k then ReplicaKind
    else NoKind
  }

  function IdOf(k: string): string {
    match KindOf(k)
    case NodeKind => k[5..]
    case ModelKind => k[6..]
    case ReplicaKind => k[8..]
    case NoKind => ""
  }

  function NodeKey(id: string): (k: string)
    ensures KindOf(k) == NodeKind && IdOf(k) == id && k != ""
  {
    "node:" + id
  }

  function ModelKey(id: string): (k: string)
    ensures KindOf(k) == ModelKind && IdOf(k) == id && k != ""
  {
    assert ("model:" + id)[0] == 'm';
    "model:" + id
  }

  function ReplicaKey(id: string): (k: string)
    ensures KindOf(k) == ReplicaKind && IdOf(k) == id && k != ""
  {
    assert ("replica:" + id)[0] == 'r';
    "replica:" + id
  }

  /** Every key of the three kinds is the kind's key for its ID. */
  lemma {:induction false} KeyOfId(k: string)
    ensures KindOf(k) == NodeKind ==> k == NodeKey(IdOf(k))
    ensures KindOf(k) == ModelKind ==> k == ModelKey(IdOf(k))
    ensures KindOf(k) == ReplicaKind ==> k == ReplicaKey(IdOf(k))
  {
  }

  /** The keys in text. */
  lemma {:induction false} KeyText(id: string)
    ensures NodeKey(id) == "node:" + id && ModelKey(id) == "model:" + id && ReplicaKey(id) == "replica:" + id
  {
  }

  /** Powers of two, for every exponent. */
  lemma {:induction false} PowerOfTwoSteps(e: int)
    ensures PowerOfTwo(0) == 1.0 && PowerOfTwo(e + 1) == 2.0 * PowerOfTwo(e)
  {
  }

  /** Nothing but the value under this key has changed. */
  ghost predicate OnlyAt(before: DB, after: DB, k: string) {
    forall l :: l != k ==> (l in after <==> l in before) && (l in before ==> after[l] == before[l])
  }

  // ----- Well-formed stores -----

  /** The value decodes as the kind its key says, and carries the ID in its key. */
  predicate DocOk(k: string, d: Doc) {
    match KindOf(k)
    case NodeKind => d.NodeDoc? && d.node.id == IdOf(k) != ""
    case ModelKind => d.ModelDoc? && d.model.id == IdOf(k) != ""
    case ReplicaKind => d.ReplicaDoc? && d.replica.id == IdOf(k) != ""
    case NoKind => true
  }

  ghost predicate WellFormed(db: DB) {
    forall k :: k in db ==> DocOk(k, db[k])
  }

  function Lookup(db: DB, k: string): Option<Doc> {
    if k in db then Some(db[k]) else None
  }
}
