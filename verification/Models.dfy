/**
 * Model records: names are unique within a namespace, and lookup by name is well defined.
 */
module Models {
  import opened Types
  import opened Records
  import opened Registry

  /** Key `k` holds a model of this name. */
  ghost predicate IsNamed(db: DB, k: string, namespace: string, name: string) {
    && k in db && KindOf(k) == ModelKind && db[k].ModelDoc?
    && db[k].model.namespace == namespace && db[k].model.name == name
  }

  ghost predicate ModelsDecode(db: DB) {
    forall k :: k in db && KindOf(k) == ModelKind ==> db[k].ModelDoc?
  }

  ghost predicate NameFree(db: DB, namespace: string, name: string) {
    forall k :: !IsNamed(db, k, namespace, name)
  }

  ghost predicate UniqueNames(db: DB) {
    forall k, l, namespace, name :: IsNamed(db, k, namespace, name) && IsNamed(db, l, namespace, name) ==> k == l
  }

  /** The model of a name, if names are unique. */
  ghost function NamedModel(db: DB, namespace: string, name: string): Option<ModelInfo> {
    if k :| IsNamed(db, k, namespace, name) then Some(db[k].model) else None
  }

  /** Scans the model records, in whatever order the store lists them, for the first of this name. */
  method GetModelByNamespaceAndName(s: Store, namespace: string, name: string) returns (r: Result<Option<ModelInfo>>)
    ensures r.Err? ==> name == "" || !ModelsDecode(s.data)
    ensures name == "" ==> r.Err?
    ensures r == Ok(None) ==> ModelsDecode(s.data) && NameFree(s.data, namespace, name)
    ensures r.Ok? && r.value.Some? ==>
              exists k :: IsNamed(s.data, k, namespace, name) && s.data[k].model == r.value.value
    ensures name != "" && ModelsDecode(s.data) && UniqueNames(s.data) ==> r == Ok(NamedModel(s.data, namespace, name))
  {
    if name == "" {
      return Err;
    }
    var keys := KeysOf(s, ModelKind);
    for i := 0 to |keys|
      invariant forall j :: 0 <= j < i ==> s.data[keys[j]].ModelDoc? && !IsNamed(s.data, keys[j], namespace, name)
    {
      assert keys[i] in keys;
      var raw := s.Get(keys[i]);
      if !raw.value.ModelDoc? {
        return Err;
      }
      if raw.value.model.namespace == namespace && raw.value.model.name == name {
        assert IsNamed(s.data, keys[i], namespace, name);
        return Ok(Some(raw.value.model));
      }
    }
    assert NameFree(s.data, namespace, name);
    return Ok(None);
  }

  // ----- Writes -----

  ghost function RegisterModelSpec(db: DB, id: string, info: ModelInfo): Result<DB> {
    if id == "" || info.name == "" || !ModelsDecode(db) || !NameFree(db, info.namespace, info.name)
       || (info.id != "" && info.id != id) then Err
    else Ok(db[ModelKey(id) := ModelDoc(info.(id := id))])
  }

  method RegisterModel(s: Store, id: string, info: ModelInfo) returns (r: Result<()>)
    modifies s
    ensures s.failures >= old(s.failures)
    ensures Refines(RegisterModelSpec(old(s.data), id, info), old(s.data), s.data, r, s.failures == old(s.failures))
    ensures old(s.Agrees()) && s.failures == old(s.failures) ==> s.Agrees()
    ensures old(s.Sound()) ==> s.Sound() && s.failures == old(s.failures)
  {
    if id == "" || info.name == "" {
      return Err;
    }
    var existing := GetModelByNamespaceAndName(s, info.namespace, info.name);
    if existing.Err? || existing.value.Some? {
      return Err;
    }
    var stored := info;
    if stored.id == "" {
      stored := stored.(id := id);
    } else if stored.id != id {
      return Err;
    }
    r := s.Put(ModelKey(id), ModelDoc(stored));
  }

  function DeRegisterModelSpec(db: DB, id: string): Result<DB> {
    if id == "" then Err else Ok(db - {ModelKey(id)})
  }

  method DeRegisterModel(s: Store, id: string) returns (r: Result<()>)
    modifies s
    ensures s.failures >= old(s.failures)
    ensures Refines(DeRegisterModelSpec(old(s.data), id), old(s.data), s.data, r, s.failures == old(s.failures))
    ensures old(s.Agrees()) && s.failures == old(s.failures) ==> s.Agrees()
    ensures old(s.Sound()) ==> s.Sound() && s.failures == old(s.failures)
  {
    if id == "" {
      return Err;
    }
    r := s.Delete(ModelKey(id));
  }

  function UpdateModelInfoSpec(db: DB, id: string, info: ModelInfo): Result<DB> {
    if id == "" || (info.id != "" && info.id != id) then Err
    else Ok(db[ModelKey(id) := ModelDoc(info.(id := id))])
  }

  method UpdateModelInfo(s: Store, id: string, info: ModelInfo) returns (r: Result<()>)
    modifies s
    ensures s.failures >= old(s.failures)
    ensures Refines(UpdateModelInfoSpec(old(s.data), id, info), old(s.data), s.data, r, s.failures == old(s.failures))
    ensures old(s.Agrees()) && s.failures == old(s.failures) ==> s.Agrees()
    ensures old(s.Sound()) ==> s.Sound() && s.failures == old(s.failures)
  {
    if id == "" || (info.id != "" && info.id != id) {
      return Err;
    }
    r := s.Put(ModelKey(id), ModelDoc(info.(id := id)));
  }

  // ----- Uniqueness over runs -----

  /** Registry operations that touch models, and any other write of the control plane. */
  datatype Op =
    | Register(id: string, info: ModelInfo)
    | DeRegister(id: string)
    | Update(id: string, info: ModelInfo)
    | OtherPut(key: string, doc: Doc)
    | OtherDelete(key: string)

  ghost function OpSpec(db: DB, op: Op): Result<DB> {
    match op
    case Register(id, info) => RegisterModelSpec(db, id, info)
    case DeRegister(id) => DeRegisterModelSpec(db, id)
    case Update(id, info) => UpdateModelInfoSpec(db, id, info)
    case OtherPut(k, d) => if KindOf(k) == ModelKind || !DocOk(k, d) then Err else Ok(db[k := d])
    case OtherDelete(k) => if KindOf(k) == ModelKind then Err else Ok(db - {k})
  }

  ghost function After(db: DB, op: Op): DB {
    var r := OpSpec(db, op);
    if r.Ok? then r.value else db
  }

  /** No other record holds the name. */
  ghost predicate NotTaken(db: DB, id: string, info: ModelInfo) {
    forall k :: IsNamed(db, k, info.namespace, info.name) ==> k == ModelKey(id)
  }

  /** Updates, which do not check names, must not take one that another record holds. */
  ghost predicate Polite(db: DB, op: Op) {
    op.Update? && OpSpec(db, op).Ok? ==> NotTaken(db, op.id, op.info)
  }

  ghost predicate AllPolite(db: DB, ops: seq<Op>)
    decreases |ops|
  {
    ops == [] || (Polite(db, ops[0]) && AllPolite(After(db, ops[0]), ops[1..]))
  }

  ghost function Run(db: DB, ops: seq<Op>): DB
    decreases |ops|
  {
    if ops == [] then db else Run(After(db, ops[0]), ops[1..])
  }

  lemma {:induction false} NamedAfterPut(
      db: DB, id: string, info: ModelInfo, k: string, namespace: string, name: string)
    ensures IsNamed(db[ModelKey(id) := ModelDoc(info)], k, namespace, name)
       <==> if k == ModelKey(id) then info.namespace == namespace && info.name == name
            else IsNamed(db, k, namespace, name)
  {
  }

  /** Storing a model keeps names unique exactly when no other record holds its name. */
  lemma {:induction false} PutKeepsUnique(db: DB, id: string, info: ModelInfo)
    requires UniqueNames(db)
    ensures UniqueNames(db[ModelKey(id) := ModelDoc(info)]) <==> NotTaken(db, id, info)
  {
    var t := db[ModelKey(id) := ModelDoc(info)];
    if NotTaken(db, id, info) {
      forall k, l, ns, n | IsNamed(t, k, ns, n) && IsNamed(t, l, ns, n) ensures k == l {
        NamedAfterPut(db, id, info, k, ns, n);
        NamedAfterPut(db, id, info, l, ns, n);
      }
    } else {
      var k :| IsNamed(db, k, info.namespace, info.name) && k != ModelKey(id);
      NamedAfterPut(db, id, info, k, info.namespace, info.name);
      NamedAfterPut(db, id, info, ModelKey(id), info.namespace, info.name);
    }
  }

  /** An update keeps names unique if and only if it does not take a name another record holds. */
  lemma {:induction false} UpdateKeepsUnique(db: DB, id: string, info: ModelInfo)
    requires UniqueNames(db) && UpdateModelInfoSpec(db, id, info).Ok?
    ensures UniqueNames(UpdateModelInfoSpec(db, id, info).value) <==> NotTaken(db, id, info)
  {
    PutKeepsUnique(db, id, info.(id := id));
  }

  /** What a lookup by name can see is not disturbed by records of other kinds. */
  lemma {:induction false} OtherWritesKeepNames(db: DB, k: string, d: Doc, l: string, namespace: string, name: string)
    requires KindOf(k) != ModelKind
    ensures IsNamed(db[k := d], l, namespace, name) <==> IsNamed(db, l, namespace, name)
    ensures IsNamed(db - {k}, l, namespace, name) <==> IsNamed(db, l, namespace, name)
  {
  }

  lemma {:induction false} SameNamesSameModel(db: DB, t: DB, namespace: string, name: string)
    requires UniqueNames(db)
    requires forall l :: IsNamed(t, l, namespace, name) <==> IsNamed(db, l, namespace, name)
    requires forall l :: IsNamed(db, l, namespace, name) ==> l in t && t[l] == db[l]
    ensures NamedModel(t, namespace, name) == NamedModel(db, namespace, name)
  {
    if m :| IsNamed(db, m, namespace, name) {
      assert IsNamed(t, m, namespace, name);
    }
  }

  /** Lookup by name gives the same model before and after any write of another kind. */
  lemma {:induction false} LookupUndisturbed(db: DB, k: string, d: Doc, namespace: string, name: string)
    requires UniqueNames(db) && KindOf(k) != ModelKind
    ensures NamedModel(db[k := d], namespace, name) == NamedModel(db, namespace, name)
    ensures NamedModel(db - {k}, namespace, name) == NamedModel(db, namespace, name)
  {
    forall l ensures IsNamed(db[k := d], l, namespace, name) <==> IsNamed(db, l, namespace, name) {
      OtherWritesKeepNames(db, k, d, l, namespace, name);
    }
    SameNamesSameModel(db, db[k := d], namespace, name);
    forall l ensures IsNamed(db - {k}, l, namespace, name) <==> IsNamed(db, l, namespace, name) {
      OtherWritesKeepNames(db, k, d, l, namespace, name);
    }
    SameNamesSameModel(db, db - {k}, namespace, name);
  }

  lemma {:induction false} StepKeepsNames(db: DB, op: Op)
    requires WellFormed(db) && UniqueNames(db)
    ensures WellFormed(After(db, op)) && (UniqueNames(After(db, op)) <==> Polite(db, op))
  {
    if OpSpec(db, op).Ok? {
      var t := After(db, op);
      match op
      case Register(id, info) => PutKeepsUnique(db, id, info.(id := id));
      case Update(id, info) => PutKeepsUnique(db, id, info.(id := id));
      case DeRegister(id) =>
        forall k, ns, n | IsNamed(t, k, ns, n) ensures IsNamed(db, k, ns, n) {
        }
      case OtherPut(x, d) =>
        forall k, ns, n | IsNamed(t, k, ns, n) ensures IsNamed(db, k, ns, n) {
          OtherWritesKeepNames(db, x, d, k, ns, n);
        }
      case OtherDelete(x) =>
        forall k, ns, n | IsNamed(t, k, ns, n) ensures IsNamed(db, k, ns, n) {
        }
    }
  }

  /** Names are unique after every operation of the run. */
  ghost predicate AlwaysUnique(db: DB, ops: seq<Op>)
    decreases |ops|
  {
    ops == [] || (UniqueNames(After(db, ops[0])) && AlwaysUnique(After(db, ops[0]), ops[1..]))
  }

  /**
   * Every run keeps each record's ID equal to its key's, and keeps names unique throughout if and
   * only if no update takes a name that another record holds.
   */
  lemma {:induction false} NamesStayUnique(db: DB, ops: seq<Op>)
    requires WellFormed(db) && UniqueNames(db)
    ensures WellFormed(Run(db, ops))
    ensures AlwaysUnique(db, ops) <==> AllPolite(db, ops)
    ensures AllPolite(db, ops) ==> UniqueNames(Run(db, ops))
    decreases |ops|
  {
    if ops == [] {
    } else {
      StepKeepsNames(db, ops[0]);
      if Polite(db, ops[0]) {
        NamesStayUnique(After(db, ops[0]), ops[1..]);
      } else {
        RunStaysWellFormed(After(db, ops[0]), ops[1..]);
      }
    }
  }

  lemma {:induction false} StepStaysWellFormed(db: DB, op: Op)
    requires WellFormed(db)
    ensures WellFormed(After(db, op))
  {
    forall k | k in After(db, op) ensures DocOk(k, After(db, op)[k]) {
      assert k in db ==> DocOk(k, db[k]);
    }
  }

  lemma {:induction false} RunStaysWellFormed(db: DB, ops: seq<Op>)
    requires WellFormed(db)
    ensures WellFormed(Run(db, ops))
    decreases |ops|
  {
    if ops == [] {
    } else {
      StepStaysWellFormed(db, ops[0]);
      RunStaysWellFormed(After(db, ops[0]), ops[1..]);
    }
  }

  /** The code's updates do not check names: two registrations and one update give two models one name. */
  lemma {:induction false} UpdateCanDuplicateName()
    ensures var a, b := ModelInfo("", "a", "ns", "", 1), ModelInfo("", "b", "ns", "", 1);
            !UniqueNames(Run(map[], [Register("1", a), Register("2", b), Update("2", a)]))
  {
    var a, b := ModelInfo("", "a", "ns", "", 1), ModelInfo("", "b", "ns", "", 1);
    var db: DB := map[];
    var db1 := After(db, Register("1", a));
    assert db1 == map[ModelKey("1") := ModelDoc(a.(id := "1"))];
    assert IdOf(ModelKey("1")) != IdOf(ModelKey("2"));
    assert NameFree(db1, "ns", "b");
    var db2 := After(db1, Register("2", b));
    assert db2 == db1[ModelKey("2") := ModelDoc(b.(id := "2"))];
    var db3 := After(db2, Update("2", a));
    assert IsNamed(db3, ModelKey("1"), "ns", "a") && IsNamed(db3, ModelKey("2"), "ns", "a");
    var ops := [Register("1", a), Register("2", b), Update("2", a)];
    assert ops[1..] == [Register("2", b), Update("2", a)];
    assert ops[1..][1..] == [Update("2", a)];
    assert ops[1..][1..][1..] == [];
    assert Run(db, ops) == Run(db1, ops[1..]) == Run(db2, ops[1..][1..]) == Run(db3, ops[1..][1..][1..]);
  }

  // ----- The stored records, field by field -----

  /** The stored value is this model under this ID. */
  predicate IsModel(d: Doc, id: string, info: ModelInfo) {
    && d.ModelDoc? && d.model.id == id && d.model.name == info.name && d.model.namespace == info.namespace
    && d.model.filePath == info.filePath && d.model.replicas == info.replicas
  }

  /**
   * A model is registered exactly if it has an ID and a name, every stored model decodes, none in its
   * namespace has its name, and it carries no other ID; it is then stored as given.
   */
  lemma {:induction false} RegisterOutcome(db: DB, id: string, info: ModelInfo)
    ensures RegisterModelSpec(db, id, info).Ok?
            <==> && id != "" && info.name != "" && (info.id == "" || info.id == id)
                 && (forall k :: k in db && "model:" <= k && !("node:" <= k) ==>
                       && db[k].ModelDoc?
                       && !(db[k].model.namespace == info.namespace && db[k].model.name == info.name))
    ensures RegisterModelSpec(db, id, info).Ok? ==>
              var t, k := RegisterModelSpec(db, id, info).value, "model:" + id;
              OnlyAt(db, t, k) && k in t && IsModel(t[k], id, info)
  {
    assert forall k :: k in db ==> (IsNamed(db, k, info.namespace, info.name) <==>
      && "model:" <= k && !("node:" <= k) && db[k].ModelDoc?
      && db[k].model.namespace == info.namespace && db[k].model.name == info.name);
  }

  lemma {:induction false} UpdateOutcome(db: DB, id: string, info: ModelInfo)
    ensures UpdateModelInfoSpec(db, id, info).Ok? <==> id != "" && (info.id == "" || info.id == id)
    ensures UpdateModelInfoSpec(db, id, info).Ok? ==>
              var t, k := UpdateModelInfoSpec(db, id, info).value, "model:" + id;
              OnlyAt(db, t, k) && k in t && IsModel(t[k], id, info)
  {
  }

  lemma {:induction false} DeRegisterOutcome(db: DB, id: string)
    ensures DeRegisterModelSpec(db, id).Err? <==> id == ""
    ensures id != "" ==>
              var t := DeRegisterModelSpec(db, id).value; OnlyAt(db, t, "model:" + id) && "model:" + id !in t
  {
  }
}
