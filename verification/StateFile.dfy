/** The console's state file: keys in order, at every depth. */
module StateFile {
  import opened Wrappers
  import opened Dicts
  import opened Names
  import opened JsonValues
  import opened Blueprints
  import opened Codec
  import opened CodecProofs

  // ---- dicts in key order -----------------------------------------------------

  predicate InOrder<V>(d: Dict<V>) {
    forall i, j :: 0 <= i < j < |d| ==> Before(d[i].0, d[j].0)
  }

  function Slot<V>(d: Dict<V>, e: (string, V)): Dict<V> {
    if d == [] || Before(e.0, d[0].0) then [e] + d else [d[0]] + Slot(d[1..], e)
  }

  /** `dict(sorted(d.items()))` */
  function SortDict<V>(d: Dict<V>): Dict<V> {
    if d == [] then [] else Slot(SortDict(d[1..]), d[0])
  }

  lemma {:induction false} SlotFacts<V>(d: Dict<V>, e: (string, V))
    requires InOrder(d) && e.0 !in Keys(d)
    ensures InOrder(Slot(d, e)) && Keys(Slot(d, e)) == Keys(d) + {e.0}
    ensures |Slot(d, e)| == |d| + 1
  {
    if d != [] && !Before(e.0, d[0].0) {
      var rest := Slot(d[1..], e);
      assert Slot(d, e)[1..] == rest;
      SlotFacts(d[1..], e);
      BeforeIsTotal(e.0, d[0].0);
      forall j | 0 <= j < |rest| ensures Before(d[0].0, rest[j].0) {
        KeysByIndex(rest, rest[j].0);
        KeysByIndex(d[1..], rest[j].0);
        if rest[j].0 != e.0 {
          var k :| 0 <= k < |d[1..]| && d[1..][k].0 == rest[j].0;
          assert d[k + 1].0 == rest[j].0;
        }
      }
    } else if d != [] {
      assert Slot(d, e)[1..] == d;
      forall j | 0 <= j < |d| ensures Before(e.0, d[j].0) {
        if j > 0 { BeforeChains(e.0, d[0].0, d[j].0); }
      }
    } else {
      assert [e][1..] == [];
    }
  }

  lemma {:induction false} OrderedIsDistinct<V>(d: Dict<V>)
    requires InOrder(d)
    ensures Distinct(d)
  {
    if d != [] {
      OrderedIsDistinct(d[1..]);
      KeysByIndex(d[1..], d[0].0);
      BeforeIsStrict(d[0].0);
    }
  }

  lemma {:induction false} GetSlot<V>(d: Dict<V>, e: (string, V), k: string)
    requires e.0 !in Keys(d)
    ensures Get(Slot(d, e), k) == if k == e.0 then Some(e.1) else Get(d, k)
  {
    if d != [] && !Before(e.0, d[0].0) {
      GetSlot(d[1..], e, k);
      assert Slot(d, e)[1..] == Slot(d[1..], e);
    } else {
      assert Slot(d, e)[1..] == d;
    }
  }

  /** Sorting keeps every entry, and only their order changes. */
  lemma {:induction false} SortFacts<V>(d: Dict<V>)
    requires Distinct(d)
    ensures InOrder(SortDict(d)) && Distinct(SortDict(d)) && Keys(SortDict(d)) == Keys(d) && |SortDict(d)| == |d|
    ensures forall k :: Get(SortDict(d), k) == Get(d, k)
  {
    if d != [] {
      SortFacts(d[1..]);
      SlotFacts(SortDict(d[1..]), d[0]);
      OrderedIsDistinct(SortDict(d));
      forall k ensures Get(SortDict(d), k) == Get(d, k) { GetSlot(SortDict(d[1..]), d[0], k); }
    }
  }

  lemma {:induction false} SortedStays<V>(d: Dict<V>)
    requires InOrder(d)
    ensures SortDict(d) == d
  {
    if d != [] { SortedStays(d[1..]); }
  }

  /** Sorting leaves a dict as it is exactly when its keys ascend. */
  lemma {:induction false} SortIsIdentityExactlyWhen<V>(d: Dict<V>)
    requires Distinct(d)
    ensures SortDict(d) == d <==> InOrder(d)
  {
    SortFacts(d);
    if InOrder(d) { SortedStays(d); }
  }

  lemma {:induction false} SortedEntry<V>(d: Dict<V>, i: nat)
    requires Distinct(d) && i < |d|
    ensures |SortDict(d)| == |d|
    ensures SortDict(d)[i] in d && d[i] in SortDict(d)
  {
    var s := SortDict(d);
    SortFacts(d);
    GetAt(s, i);
    GetIsEntry(d, s[i].0);
    GetAt(d, i);
    GetIsEntry(s, d[i].0);
  }

  /** A dict in key order is determined by what it maps. */
  lemma {:induction false} OrderedIsUnique<V>(a: Dict<V>, b: Dict<V>)
    requires InOrder(a) && InOrder(b) && forall k :: Get(a, k) == Get(b, k)
    ensures a == b
  {
    assert a != [] ==> Get(b, a[0].0) == Get(a, a[0].0);
    assert b != [] ==> Get(a, b[0].0) == Get(b, b[0].0);
    if a != [] && b != [] {
      LeastKey(a, b[0].0);
      LeastKey(b, a[0].0);
      OrderedIsDistinct(a);
      OrderedIsDistinct(b);
      forall k ensures Get(a[1..], k) == Get(b[1..], k) {
        assert Get(a, k) == Get(b, k);
      }
      OrderedIsUnique(a[1..], b[1..]);
      assert a == [a[0]] + a[1..] && b == [b[0]] + b[1..];
    }
  }

  lemma {:induction false} LeastKey<V>(a: Dict<V>, k: string)
    requires InOrder(a) && a != [] && k in Keys(a)
    ensures k == a[0].0 || Before(a[0].0, k)
    ensures !Before(k, a[0].0)
  {
    KeysByIndex(a, k);
    BeforeIsStrict(k);
    if Before(k, a[0].0) && Before(a[0].0, k) { BeforeChains(k, a[0].0, k); }
  }

  // ---- the bytes on disk, read back -------------------------------------------

  /** A value as it reads back from `json.dumps(..., sort_keys=True)`. */
  function Filed(j: Json): Json
    decreases j, 1
  {
    match j
    case Arr(items) => Arr(FiledItems(items))
    case Obj(fields) => Obj(SortDict(FiledFields(fields)))
    case _ => j
  }

  function FiledItems(items: seq<Json>): seq<Json>
    decreases items, 0
  {
    if items == [] then [] else [Filed(items[0])] + FiledItems(items[1..])
  }

  function FiledFields(d: Dict<Json>): Dict<Json>
    decreases d, 0
  {
    if d == [] then [] else assert d[0].1 < d[0]; [(d[0].0, Filed(d[0].1))] + FiledFields(d[1..])
  }

  function FiledMaybe(j: Option<Json>): Option<Json> {
    if j.None? then None else Some(Filed(j.value))
  }

  lemma {:induction false} FiledFieldsFacts(d: Dict<Json>)
    ensures Keys(FiledFields(d)) == Keys(d) && |FiledFields(d)| == |d|
    ensures Distinct(d) ==> Distinct(FiledFields(d))
    ensures forall k :: Get(FiledFields(d), k) == FiledMaybe(Get(d, k))
  {
    if d != [] {
      FiledFieldsFacts(d[1..]);
      assert FiledFields(d)[1..] == FiledFields(d[1..]);
    }
  }

  /** A filed object has the same keys, each with its filed value. */
  lemma {:induction false} FiledObject(d: Dict<Json>)
    requires Distinct(d)
    ensures var f := SortDict(FiledFields(d));
      Keys(f) == Keys(d) && Distinct(f) && forall k :: Get(f, k) == FiledMaybe(Get(d, k))
  {
    FiledFieldsFacts(d);
    SortFacts(FiledFields(d));
  }

  // ---- key order does not matter inside entries -------------------------------

  lemma {:induction false} FiledStrings(items: seq<Json>)
    ensures Strings(FiledItems(items)) == Strings(items)
  {
    if items != [] {
      FiledStrings(items[1..]);
      assert FiledItems(items)[1..] == FiledItems(items[1..]);
    }
  }

  /** Typed reads of one field see through filing. */
  lemma {:induction false} FiledReads(d: Dict<Json>, key: string, default: string)
    requires Distinct(d)
    ensures var f := SortDict(FiledFields(d));
      && OptionalString(f, key, default) == OptionalString(d, key, default)
      && RequiredString(Get(f, key)) == RequiredString(Get(d, key))
      && DecodeEstimate(Get(f, key)) == DecodeEstimate(Get(d, key))
      && OptionalList(f, key) == (match OptionalList(d, key) case Ok(js) => Ok(FiledItems(js)) case Err(e) => Err(e))
  {
    FiledObject(d);
  }

  lemma {:induction false} ProperAt(d: Dict<Json>, key: string)
    requires ProperFields(d) && key in Keys(d)
    ensures Proper(Get(d, key).value)
  {
    if d[0].0 != key { ProperAt(d[1..], key); }
  }

  lemma {:induction false} FiledExecution(j: Option<Json>)
    requires j.Some? ==> Proper(j.value)
    ensures DecodeExecution(FiledMaybe(j)) == DecodeExecution(j)
  {
    if j.Some? && j.value.Obj? {
      var d := j.value.fields;
      FiledObject(d);
      FiledReads(d, "assignment_ids", "");
      FiledReads(d, "active_assignment_id", "");
      FiledReads(d, "updated_at", "");
      if OptionalList(d, "assignment_ids").Ok? { FiledStrings(OptionalList(d, "assignment_ids").value); }
    }
  }

  /** The two objects answer every plain read of a task alike. */
  predicate ReadAlike(d: Dict<Json>, f: Dict<Json>) {
    && Keys(f) == Keys(d)
    && RequiredString(Get(f, "id")) == RequiredString(Get(d, "id"))
    && OptionalString(f, "status", "not_started") == OptionalString(d, "status", "not_started")
    && OptionalString(f, "priority", "medium") == OptionalString(d, "priority", "medium")
    && DecodeEstimate(Get(f, "estimated_minutes")) == DecodeEstimate(Get(d, "estimated_minutes"))
    && OptionalString(f, "title", "") == OptionalString(d, "title", "")
    && OptionalString(f, "description", "") == OptionalString(d, "description", "")
  }

  lemma {:induction false} FiledReadsAlike(d: Dict<Json>)
    requires Distinct(d)
    ensures ReadAlike(d, SortDict(FiledFields(d)))
  {
    FiledObject(d);
    FiledReads(d, "id", "");
    FiledReads(d, "status", "not_started");
    FiledReads(d, "priority", "medium");
    FiledReads(d, "estimated_minutes", "");
    FiledReads(d, "title", "");
    FiledReads(d, "description", "");
  }

  function Subtasks(fields: Dict<Json>): Decoded<seq<Item>> {
    var raw :- OptionalList(fields, "subtasks");
    if raw == [] then Ok([]) else DecodeItems(raw)
  }

  lemma {:induction false} DecodedAlike(d: Dict<Json>, f: Dict<Json>, legacy: bool)
    requires ReadAlike(d, f)
    requires Subtasks(f) == Subtasks(d) && DecodeExecution(Get(f, "execution")) == DecodeExecution(Get(d, "execution"))
    ensures DecodeItem(Obj(f), legacy) == DecodeItem(Obj(d), legacy)
  {
  }

  /** Decoding a task, of either schema and any depth, does not depend on the order of keys. */
  lemma {:induction false} FiledItem(j: Json, legacy: bool)
    requires Proper(j)
    ensures DecodeItem(Filed(j), legacy) == DecodeItem(j, legacy)
    decreases j, 1
  {
    if j.Obj? {
      var d := j.fields;
      FiledReadsAlike(d);
      FiledObject(d);
      if Get(d, "execution").Some? { ProperAt(d, "execution"); }
      FiledExecution(Get(d, "execution"));
      FiledReads(d, "subtasks", "");
      var raw := OptionalList(d, "subtasks");
      if raw.Ok? && raw.value != [] {
        ProperAt(d, "subtasks");
        GetIsEntry(d, "subtasks");
        var i :| 0 <= i < |d| && d[i] == ("subtasks", Get(d, "subtasks").value);
        assert d[i].1 < d[i];
        FiledTasks(raw.value);
      }
      DecodedAlike(d, SortDict(FiledFields(d)), legacy);
    }
  }

  lemma {:induction false} FiledTasks(js: seq<Json>)
    requires ProperItems(js)
    ensures DecodeItems(FiledItems(js)) == DecodeItems(js)
    decreases js, 0
  {
    if js != [] {
      FiledItem(js[0], false);
      FiledTasks(js[1..]);
      assert FiledItems(js)[1..] == FiledItems(js[1..]);
    }
  }

  lemma {:induction false} FiledPlan(j: Json)
    requires Proper(j)
    ensures DecodePlan(Filed(j)) == DecodePlan(j)
  {
    if j.Obj? {
      var d := j.fields;
      FiledObject(d);
      FiledReads(d, "goal", "");
      FiledReads(d, "summary", "");
      FiledReads(d, "tasks", "");
      FiledReads(d, "updated_at", "");
      if OptionalList(d, "tasks").Ok? && Get(d, "tasks").Some? {
        ProperAt(d, "tasks");
        FiledTasks(OptionalList(d, "tasks").value);
      }
    }
  }

  lemma {:induction false} FiledWorker(name: string, j: Json)
    requires Proper(j)
    ensures DecodeWorker(name, Filed(j)) == DecodeWorker(name, j)
  {
    if j.Obj? {
      FiledObject(j.fields);
      FiledReads(j.fields, "name", name);
      FiledReads(j.fields, "system_prompt", "");
      FiledReads(j.fields, "role", "worker");
    }
  }

  lemma {:induction false} FiledEdges(js: seq<Json>)
    requires ProperItems(js)
    ensures DecodeEdges(FiledItems(js)) == DecodeEdges(js)
  {
    if js != [] {
      FiledEdges(js[1..]);
      assert FiledItems(js)[1..] == FiledItems(js[1..]);
      if js[0].Obj? {
        FiledObject(js[0].fields);
        FiledReads(js[0].fields, "source", "");
        FiledReads(js[0].fields, "target", "");
      }
    }
  }

  // ---- what the console writes has each key once ------------------------------

  lemma {:induction false} ProperFromEntries(d: Dict<Json>)
    requires forall i, j :: 0 <= i < j < |d| ==> d[i].0 != d[j].0
    requires forall i :: 0 <= i < |d| ==> Proper(d[i].1)
    ensures Proper(Obj(d))
  {
    DistinctByIndex(d);
    EntriesProper(d);
  }

  lemma {:induction false} EntriesProper(d: Dict<Json>)
    requires forall i :: 0 <= i < |d| ==> Proper(d[i].1)
    ensures ProperFields(d)
  {
    if d != [] { EntriesProper(d[1..]); }
  }

  lemma {:induction false} ProperStrings(ss: seq<string>)
    ensures Proper(Arr(EncodeStrings(ss)))
  {
    if ss != [] {
      ProperStrings(ss[1..]);
      assert EncodeStrings(ss)[1..] == EncodeStrings(ss[1..]);
    }
  }

  lemma {:induction false} ProperExecution(e: Option<Execution>)
    ensures Proper(EncodeExecution(e))
  {
    if e.Some? {
      ProperStrings(e.value.assignmentIds);
      ProperFromEntries(EncodeExecution(e).fields);
    }
  }

  lemma {:induction false} ProperItem(item: Item)
    requires ProperItems(EncodeItems(item.subtasks))
    ensures Proper(EncodeItem(item))
  {
    ProperExecution(item.execution);
    var d := EncodeItem(item).fields;
    ProperFromEntries(d);
  }

  lemma {:induction false} ProperTasks(items: seq<Item>)
    ensures ProperItems(EncodeItems(items))
  {
    if items != [] {
      ProperTasks(items[0].subtasks);
      ProperItem(items[0]);
      ProperTasks(items[1..]);
      assert EncodeItems(items)[1..] == EncodeItems(items[1..]);
    }
  }

  lemma {:induction false} ProperPlan(p: Plan)
    ensures Proper(EncodePlan(p))
  {
    ProperTasks(p.tasks);
    ProperFromEntries(EncodePlan(p).fields);
  }

  lemma ProperWorker(w: Worker)
    ensures Proper(EncodeWorker(w))
  {
    ProperFromEntries(EncodeWorker(w).fields);
  }

  lemma {:induction false} ProperEdges(edges: seq<Edge>)
    ensures ProperItems(EncodeEdges(edges))
  {
    if edges != [] {
      ProperEdges(edges[1..]);
      assert EncodeEdges(edges)[1..] == EncodeEdges(edges[1..]);
      ProperFromEntries(EncodeEdges(edges)[0].fields);
    }
  }

  // ---- sorting commutes with encoding values ----------------------------------

  lemma {:induction false} SlotEncodes<V>(d: Dict<V>, e: (string, V), enc: V -> Json)
    ensures Slot(EncodeMap(d, enc), (e.0, enc(e.1))) == EncodeMap(Slot(d, e), enc)
  {
    if d != [] && !Before(e.0, d[0].0) {
      SlotEncodes(d[1..], e, enc);
      assert EncodeMap(d, enc)[1..] == EncodeMap(d[1..], enc);
      assert EncodeMap(Slot(d, e), enc)[1..] == EncodeMap(Slot(d[1..], e), enc);
    }
  }

  lemma {:induction false} SortEncodes<V>(d: Dict<V>, enc: V -> Json)
    ensures SortDict(EncodeMap(d, enc)) == EncodeMap(SortDict(d), enc)
  {
    if d != [] {
      SortEncodes(d[1..], enc);
      assert EncodeMap(d, enc)[1..] == EncodeMap(d[1..], enc);
      SlotEncodes(SortDict(d[1..]), d[0], enc);
    }
  }

  lemma {:induction false} FiledEncodes<V>(d: Dict<V>, enc: V -> Json)
    ensures FiledFields(EncodeMap(d, enc)) == EncodeMap(d, (v: V) => Filed(enc(v)))
  {
    if d != [] {
      FiledEncodes(d[1..], enc);
      assert EncodeMap(d, enc)[1..] == EncodeMap(d[1..], enc);
    }
  }

  /** A dict of entries that decode after filing reads back in key order. */
  lemma {:induction false} FiledMapInverse<V>(d: Dict<V>, enc: V -> Json, f: (string, Json) -> Decoded<V>)
    requires Distinct(d)
    requires forall i :: 0 <= i < |d| ==> f(d[i].0, Filed(enc(d[i].1))) == Ok(d[i].1)
    ensures Filed(Obj(EncodeMap(d, enc))).Obj?
    ensures DecodeMap(Filed(Obj(EncodeMap(d, enc))).fields, f) == Ok(SortDict(d))
  {
    var filed := (v: V) => Filed(enc(v));
    FiledEncodes(d, enc);
    SortEncodes(d, filed);
    SortFacts(d);
    var s := SortDict(d);
    forall i | 0 <= i < |s| ensures f(s[i].0, filed(s[i].1)) == Ok(s[i].1) {
      GetAt(s, i);
      GetIsEntry(d, s[i].0);
    }
    MapInverse(s, filed, f);
  }

  // ---- the whole file ---------------------------------------------------------

  /** `to_json`, written with sorted keys and read again. */
  function Stored(b: Blueprint): Json { Filed(Encode(b)) }

  /** The blueprint with its four dicts in key order. */
  function Reloaded(b: Blueprint): Blueprint {
    b.(workers := SortDict(b.workers), mappers := SortDict(b.mappers),
       routers := SortDict(b.routers), plans := SortDict(b.plans))
  }

  predicate AllInOrder(b: Blueprint) {
    InOrder(b.workers) && InOrder(b.mappers) && InOrder(b.routers) && InOrder(b.plans)
  }

  lemma {:induction false} FiledMaps(b: Blueprint)
    requires Storable(b)
    ensures DecodeMap(Filed(Obj(EncodeMap(b.workers, EncodeWorker))).fields, DecodeWorker) == Ok(SortDict(b.workers))
    ensures DecodeMap(Filed(Obj(EncodeMap(b.mappers, EncodeMode))).fields, DecodeMode) == Ok(SortDict(b.mappers))
    ensures DecodeMap(Filed(Obj(EncodeMap(b.routers, EncodeTargets))).fields, DecodeTargets) == Ok(SortDict(b.routers))
    ensures DecodeMap(Filed(Obj(EncodeMap(b.plans, EncodePlan))).fields, DecodePlanAt) == Ok(SortDict(b.plans))
  {
    forall i | 0 <= i < |b.workers|
      ensures DecodeWorker(b.workers[i].0, Filed(EncodeWorker(b.workers[i].1))) == Ok(b.workers[i].1)
    {
      WorkerInverse(b.workers[i].1);
      ProperWorker(b.workers[i].1);
      FiledWorker(b.workers[i].0, EncodeWorker(b.workers[i].1));
    }
    FiledMapInverse(b.workers, EncodeWorker, DecodeWorker);
    FiledMapInverse(b.mappers, EncodeMode, DecodeMode);
    forall i | 0 <= i < |b.routers|
      ensures DecodeTargets(b.routers[i].0, Filed(EncodeTargets(b.routers[i].1))) == Ok(b.routers[i].1)
    {
      StringsInverse(b.routers[i].1);
      FiledStrings(EncodeStrings(b.routers[i].1));
    }
    FiledMapInverse(b.routers, EncodeTargets, DecodeTargets);
    forall i | 0 <= i < |b.plans|
      ensures DecodePlanAt(b.plans[i].0, Filed(EncodePlan(b.plans[i].1))) == Ok(b.plans[i].1)
    {
      PlanInverse(b.plans[i].1);
      ProperPlan(b.plans[i].1);
      FiledPlan(EncodePlan(b.plans[i].1));
    }
    FiledMapInverse(b.plans, EncodePlan, DecodePlanAt);
  }

  lemma {:induction false} TopIsDistinct(b: Blueprint)
    ensures Distinct(Encode(b).fields)
  {
    DistinctByIndex(Encode(b).fields);
  }

  lemma {:induction false} FiledTop(b: Blueprint)
    ensures Stored(b).Obj?
    ensures var f := Stored(b).fields;
      && Keys(f) <= FIELDS_V2
      && Get(f, "workers") == Some(Filed(Obj(EncodeMap(b.workers, EncodeWorker))))
      && Get(f, "connections") == Some(Arr(FiledItems(EncodeEdges(b.connections))))
      && Get(f, "mappers") == Some(Filed(Obj(EncodeMap(b.mappers, EncodeMode))))
      && Get(f, "routers") == Some(Filed(Obj(EncodeMap(b.routers, EncodeTargets))))
      && Get(f, "plans") == Some(Filed(Obj(EncodeMap(b.plans, EncodePlan))))
      && Get(f, "schema_version") == Some(Int(b.schemaVersion))
  {
    TopFields(b);
    TopIsDistinct(b);
    FiledObject(Encode(b).fields);
  }

  /** The state file decodes to the blueprint with its dicts in key order. */
  lemma {:induction false} ReloadSorts(b: Blueprint)
    requires Storable(b)
    ensures Decode(Stored(b)) == Ok(Reloaded(b))
  {
    FiledTop(b);
    FiledMaps(b);
    EdgesInverse(b.connections);
    ProperEdges(b.connections);
    FiledEdges(EncodeEdges(b.connections));
    assert DecodePlans(Stored(b).fields, 2) == Ok(SortDict(b.plans));
  }

  /** It decodes to the very blueprint exactly when its dicts are in key order already. */
  lemma {:induction false} ReloadIsIdentityExactlyWhen(b: Blueprint)
    requires Storable(b)
    ensures Decode(Stored(b)) == Ok(b) <==> AllInOrder(b)
    ensures Reloaded(Reloaded(b)) == Reloaded(b)
  {
    ReloadSorts(b);
    SortIsIdentityExactlyWhen(b.workers);
    SortIsIdentityExactlyWhen(b.mappers);
    SortIsIdentityExactlyWhen(b.routers);
    SortIsIdentityExactlyWhen(b.plans);
    SortFacts(b.workers);
    SortFacts(b.mappers);
    SortFacts(b.routers);
    SortFacts(b.plans);
    SortedStays(SortDict(b.workers));
    SortedStays(SortDict(b.mappers));
    SortedStays(SortDict(b.routers));
    SortedStays(SortDict(b.plans));
  }
}
