/** Round trips. */
module CodecProofs {
  import opened Wrappers
  import opened Dicts
  import opened Blueprints
  import opened JsonValues
  import opened Codec

  // ---- which blueprints are storable ------------------------------------------

  predicate ItemsOk(items: seq<Item>) {
    items != [] ==>
      && items[0].id != "" && items[0].priority in PRIORITIES
      && (items[0].estimate.Some? ==> items[0].estimate.value >= 0.0)
      && ItemsOk(items[0].subtasks) && ItemsOk(items[1..])
  }

  /** The blueprints the decoder can produce. */
  ghost predicate Storable(b: Blueprint) {
    && b.schemaVersion == SCHEMA_VERSION
    && Distinct(b.workers) && Distinct(b.mappers) && Distinct(b.routers) && Distinct(b.plans)
    && (forall i :: 0 <= i < |b.workers| ==>
          IsName(b.workers[i].0) && b.workers[i].1.name == b.workers[i].0)
    && (forall i :: 0 <= i < |b.plans| ==> ItemsOk(b.plans[i].1.tasks))
  }

  // ---- reading back fields ----------------------------------------------------

  lemma {:induction false} GetFirst<V>(d: Dict<V>, i: nat)
    requires i < |d| && forall j :: 0 <= j < i ==> d[j].0 != d[i].0
    ensures Get(d, d[i].0) == Some(d[i].1)
  {
    if i > 0 { GetFirst(d[1..], i - 1); }
  }

  lemma {:induction false} FieldsWithin<V>(d: Dict<V>, allowed: set<string>)
    requires forall i :: 0 <= i < |d| ==> d[i].0 in allowed
    ensures Keys(d) <= allowed
  {
    if d != [] { FieldsWithin(d[1..], allowed); }
  }

  lemma {:induction false} StringsInverse(ss: seq<string>)
    ensures Strings(EncodeStrings(ss)) == Ok(ss)
  {
    if ss != [] {
      StringsInverse(ss[1..]);
      assert EncodeStrings(ss)[1..] == EncodeStrings(ss[1..]);
      assert ss == [ss[0]] + ss[1..];
    }
  }

  lemma {:induction false} MapInverse<V>(d: Dict<V>, enc: V -> Json, f: (string, Json) -> Decoded<V>)
    requires Distinct(d)
    requires forall i :: 0 <= i < |d| ==> f(d[i].0, enc(d[i].1)) == Ok(d[i].1)
    ensures DecodeMap(EncodeMap(d, enc), f) == Ok(d)
  {
    if d != [] {
      var init, last := d[..|d| - 1], d[|d| - 1];
      assert d == init + [last];
      DistinctAppend(init, [last]);
      KeysAppend(init, [last]);
      MapInverse(init, enc, f);
      assert EncodeMap(d, enc)[..|d| - 1] == EncodeMap(init, enc);
      assert last.0 in Keys([last]);
    }
  }

  lemma WorkerInverse(w: Worker)
    requires IsName(w.name)
    ensures DecodeWorker(w.name, EncodeWorker(w)) == Ok(w)
  {
    var d := EncodeWorker(w).fields;
    FieldsWithin(d, WORKER_FIELDS);
    GetFirst(d, 0);
    GetFirst(d, 1);
    GetFirst(d, 2);
  }

  lemma {:induction false} EdgeFields(edges: seq<Edge>)
    requires edges != []
    ensures EncodeEdges(edges)[0].Obj?
    ensures var d := EncodeEdges(edges)[0].fields;
      && Keys(d) <= CONNECTION_FIELDS
      && Get(d, "source") == Some(Str(edges[0].source)) && Get(d, "target") == Some(Str(edges[0].target))
  {
    var d := EncodeEdges(edges)[0].fields;
    FieldsWithin(d, CONNECTION_FIELDS);
    GetFirst(d, 0);
    GetFirst(d, 1);
  }

  lemma {:induction false} EdgesInverse(edges: seq<Edge>)
    ensures DecodeEdges(EncodeEdges(edges)) == Ok(edges)
  {
    if edges != [] {
      EdgesInverse(edges[1..]);
      EdgeFields(edges);
      assert EncodeEdges(edges)[1..] == EncodeEdges(edges[1..]);
      assert edges == [edges[0]] + edges[1..];
    }
  }

  lemma ExecutionInverse(e: Option<Execution>)
    ensures DecodeExecution(Some(EncodeExecution(e))) == Ok(e)
  {
    if e.Some? {
      var d := EncodeExecution(e).fields;
      FieldsWithin(d, EXECUTION_FIELDS);
      StringsInverse(e.value.assignmentIds);
      GetFirst(d, 0);
      GetFirst(d, 1);
      GetFirst(d, 2);
    }
  }

  lemma {:induction false} ItemFields(item: Item)
    ensures var d := EncodeItem(item).fields;
      && Keys(d) <= ITEM_FIELDS
      && Get(d, "id") == Some(Str(item.id))
      && Get(d, "title") == Some(Str(item.title))
      && Get(d, "description") == Some(Str(item.description))
      && Get(d, "status") == Some(Str(StatusText(item.status)))
      && Get(d, "priority") == Some(Str(item.priority))
      && Get(d, "estimated_minutes") == Some(if item.estimate.None? then Null else Real(item.estimate.value))
      && Get(d, "subtasks") == Some(Arr(EncodeItems(item.subtasks)))
      && Get(d, "execution") == Some(EncodeExecution(item.execution))
  {
    ItemFieldsFirst(item);
    ItemFieldsNext(item);
    ItemFieldsLast(item);
  }

  lemma {:induction false} ItemFieldsFirst(item: Item)
    ensures var d := EncodeItem(item).fields;
      && Keys(d) <= ITEM_FIELDS
      && Get(d, "id") == Some(Str(item.id))
      && Get(d, "title") == Some(Str(item.title))
      && Get(d, "description") == Some(Str(item.description))
      && Get(d, "status") == Some(Str(StatusText(item.status)))
  {
    var d := EncodeItem(item).fields;
    FieldsWithin(d, ITEM_FIELDS);
    GetFirst(d, 0);
    GetFirst(d, 1);
    GetFirst(d, 2);
    GetFirst(d, 3);
  }

  lemma {:induction false} ItemFieldsNext(item: Item)
    ensures var d := EncodeItem(item).fields;
      && Get(d, "priority") == Some(Str(item.priority))
      && Get(d, "estimated_minutes") == Some(if item.estimate.None? then Null else Real(item.estimate.value))
  {
    var d := EncodeItem(item).fields;
    GetFirst(d, 4);
    GetFirst(d, 5);
  }

  lemma {:induction false} ItemFieldsLast(item: Item)
    ensures var d := EncodeItem(item).fields;
      && Get(d, "subtasks") == Some(Arr(EncodeItems(item.subtasks)))
      && Get(d, "execution") == Some(EncodeExecution(item.execution))
  {
    var d := EncodeItem(item).fields;
    GetFirst(d, 6);
    GetFirst(d, 7);
  }

  /** What the decoder reads from the encoding of a task, field by field. */
  lemma {:induction false} ItemParts(item: Item)
    requires item.estimate.Some? ==> item.estimate.value >= 0.0
    ensures Mapping(EncodeItem(item), ITEM_FIELDS) == Ok(EncodeItem(item).fields)
    ensures var d := EncodeItem(item).fields;
      && RequiredString(Get(d, "id")) == Ok(item.id)
      && OptionalString(d, "title", "") == Ok(item.title)
      && OptionalString(d, "description", "") == Ok(item.description)
      && OptionalString(d, "status", "not_started") == Ok(StatusText(item.status))
      && OptionalString(d, "priority", "medium") == Ok(item.priority)
      && DecodeEstimate(Get(d, "estimated_minutes")) == Ok(item.estimate)
      && OptionalList(d, "subtasks") == Ok(EncodeItems(item.subtasks))
      && DecodeExecution(Get(d, "execution")) == Ok(item.execution)
  {
    ItemFields(item);
    ExecutionInverse(item.execution);
  }

  lemma {:induction false} ItemInverse(item: Item)
    requires item.id != "" && item.priority in PRIORITIES
    requires item.estimate.Some? ==> item.estimate.value >= 0.0
    requires DecodeItems(EncodeItems(item.subtasks)) == Ok(item.subtasks)
    ensures DecodeItem(EncodeItem(item), false).Ok?
    ensures DecodeItem(EncodeItem(item), false).value == item
  {
    ItemParts(item);
    assert ParseStatus(StatusText(item.status)) == Some(item.status);
    assert EncodeItems(item.subtasks) == [] ==> item.subtasks == [];
  }

  /** Arbitrarily deep plans survive, every field of every task included. */
  lemma {:induction false} ItemsInverse(items: seq<Item>)
    requires ItemsOk(items)
    ensures DecodeItems(EncodeItems(items)) == Ok(items)
  {
    if items != [] {
      var head := items[0];
      ItemsInverse(head.subtasks);
      ItemsInverse(items[1..]);
      ItemInverse(head);
      DecodeFirst(EncodeItem(head), EncodeItems(items[1..]), head, items[1..]);
      assert items == [head] + items[1..];
    }
  }

  lemma {:induction false} DecodeFirst(j: Json, js: seq<Json>, item: Item, items: seq<Item>)
    requires DecodeItem(j, false) == Ok(item) && DecodeItems(js) == Ok(items)
    ensures DecodeItems([j] + js) == Ok([item] + items)
  {
    assert ([j] + js)[0] == j && ([j] + js)[1..] == js;
  }

  lemma {:induction false} PlanInverse(p: Plan)
    requires ItemsOk(p.tasks)
    ensures DecodePlan(EncodePlan(p)) == Ok(p)
  {
    var d := EncodePlan(p).fields;
    FieldsWithin(d, PLAN_FIELDS);
    ItemsInverse(p.tasks);
    GetFirst(d, 0);
    GetFirst(d, 1);
    GetFirst(d, 2);
    GetFirst(d, 3);
  }

  lemma TopFields(b: Blueprint)
    ensures var d := Encode(b).fields;
      && Keys(d) <= FIELDS_V2
      && Get(d, "workers") == Some(Obj(EncodeMap(b.workers, EncodeWorker)))
      && Get(d, "connections") == Some(Arr(EncodeEdges(b.connections)))
      && Get(d, "mappers") == Some(Obj(EncodeMap(b.mappers, EncodeMode)))
      && Get(d, "routers") == Some(Obj(EncodeMap(b.routers, EncodeTargets)))
      && Get(d, "plans") == Some(Obj(EncodeMap(b.plans, EncodePlan)))
      && Get(d, "schema_version") == Some(Int(b.schemaVersion))
  {
    var d := Encode(b).fields;
    FieldsWithin(d, FIELDS_V2);
    GetFirst(d, 0);
    GetFirst(d, 1);
    GetFirst(d, 2);
    GetFirst(d, 3);
    GetFirst(d, 4);
    GetFirst(d, 5);
  }

  lemma MapsInverse(b: Blueprint)
    requires Storable(b)
    ensures DecodeMap(EncodeMap(b.workers, EncodeWorker), DecodeWorker) == Ok(b.workers)
    ensures DecodeMap(EncodeMap(b.mappers, EncodeMode), DecodeMode) == Ok(b.mappers)
    ensures DecodeMap(EncodeMap(b.routers, EncodeTargets), DecodeTargets) == Ok(b.routers)
    ensures DecodeMap(EncodeMap(b.plans, EncodePlan), DecodePlanAt) == Ok(b.plans)
  {
    forall i | 0 <= i < |b.workers|
      ensures DecodeWorker(b.workers[i].0, EncodeWorker(b.workers[i].1)) == Ok(b.workers[i].1)
    {
      WorkerInverse(b.workers[i].1);
    }
    MapInverse(b.workers, EncodeWorker, DecodeWorker);
    MapInverse(b.mappers, EncodeMode, DecodeMode);
    forall i | 0 <= i < |b.routers|
      ensures DecodeTargets(b.routers[i].0, EncodeTargets(b.routers[i].1)) == Ok(b.routers[i].1)
    {
      StringsInverse(b.routers[i].1);
    }
    MapInverse(b.routers, EncodeTargets, DecodeTargets);
    forall i | 0 <= i < |b.plans|
      ensures DecodePlanAt(b.plans[i].0, EncodePlan(b.plans[i].1)) == Ok(b.plans[i].1)
    {
      PlanInverse(b.plans[i].1);
    }
    MapInverse(b.plans, EncodePlan, DecodePlanAt);
  }

  /** Decoding the encoding of a storable blueprint gives it back. */
  lemma {:induction false} RoundTrip(b: Blueprint)
    requires Storable(b)
    ensures Decode(Encode(b)) == Ok(b)
  {
    TopFields(b);
    MapsInverse(b);
    EdgesInverse(b.connections);
    assert DecodePlans(Encode(b).fields, 2) == Ok(b.plans);
  }

  // ---- the decoder only produces storable blueprints --------------------------

  ghost predicate Produced<V>(f: (string, Json) -> Decoded<V>, entry: (string, V)) {
    exists j :: f(entry.0, j) == Ok(entry.1)
  }

  lemma {:induction false} DecodedEntries<V>(fields: Dict<Json>, f: (string, Json) -> Decoded<V>)
    requires DecodeMap(fields, f).Ok?
    ensures var d := DecodeMap(fields, f).value; forall i :: 0 <= i < |d| ==> Produced(f, d[i])
  {
    if fields != [] {
      var init, last := fields[..|fields| - 1], fields[|fields| - 1];
      DecodedEntries(init, f);
      var before := DecodeMap(init, f).value;
      assert f(last.0, last.1).Ok?;
      var v := f(last.0, last.1).value;
      assert Produced(f, (last.0, v));
      assert DecodeMap(fields, f).value == Put(before, last.0, v);
      forall i | 0 <= i < |Put(before, last.0, v)| ensures Produced(f, Put(before, last.0, v)[i]) {
        PutEntries(before, last.0, v, i);
      }
    }
  }

  lemma {:induction false} DecodedItemOk(j: Json, legacy: bool)
    requires DecodeItem(j, legacy).Ok?
    ensures var item := DecodeItem(j, legacy).value;
      && item.id != "" && item.priority in PRIORITIES
      && (item.estimate.Some? ==> item.estimate.value >= 0.0)
      && ItemsOk(item.subtasks)
    decreases j, 1
  {
    var raw := OptionalList(j.fields, "subtasks").value;
    if raw != [] { DecodedItemsOk(raw); }
  }

  lemma {:induction false} DecodedItemsOk(js: seq<Json>)
    requires DecodeItems(js).Ok?
    ensures ItemsOk(DecodeItems(js).value)
    decreases js, 0
  {
    if js != [] {
      DecodedItemOk(js[0], false);
      DecodedItemsOk(js[1..]);
      assert DecodeItems(js).value[1..] == DecodeItems(js[1..]).value;
    }
  }

  lemma {:induction false} ItemsOkAppend(items: seq<Item>, last: Item)
    requires ItemsOk(items) && ItemsOk([last])
    ensures ItemsOk(items + [last])
  {
    if items == [] {
      assert items + [last] == [last];
    } else {
      assert (items + [last])[1..] == items[1..] + [last];
      ItemsOkAppend(items[1..], last);
    }
  }

  lemma {:induction false} GroupedOk(js: seq<Json>)
    requires Grouped(js).Ok?
    ensures var g := Grouped(js).value; forall i :: 0 <= i < |g| ==> ItemsOk(g[i].1)
  {
    if js != [] {
      var init, last := js[..|js| - 1], js[|js| - 1];
      GroupedOk(init);
      DecodedItemOk(last, true);
      var before, owner, item := Grouped(init).value, Owner(last).value, DecodeItem(last, true).value;
      var mine := if owner in Keys(before) then Get(before, owner).value else [];
      if owner in Keys(before) { GetIsEntry(before, owner); }
      assert [item][1..] == [];
      ItemsOkAppend(mine, item);
      var g := Grouped(js).value;
      forall i | 0 <= i < |g| ensures ItemsOk(g[i].1) {
        PutEntries(before, owner, mine + [item], i);
      }
    }
  }

  lemma {:induction false} SameKeys(groups: Dict<seq<Item>>)
    ensures Keys(AsPlans(groups)) == Keys(groups)
    ensures Distinct(groups) ==> Distinct(AsPlans(groups))
  {
    if groups != [] {
      SameKeys(groups[1..]);
      assert AsPlans(groups)[1..] == AsPlans(groups[1..]);
    }
  }

  lemma {:induction false} ProducedPlan(entry: (string, Plan))
    requires Produced(DecodePlanAt, entry)
    ensures ItemsOk(entry.1.tasks)
  {
    var j :| DecodePlanAt(entry.0, j) == Ok(entry.1);
    DecodedItemsOk(OptionalList(j.fields, "tasks").value);
  }

  lemma {:induction false} DecodedPlansOk(fields: Dict<Json>, version: int)
    requires DecodePlans(fields, version).Ok?
    ensures var plans := DecodePlans(fields, version).value;
      Distinct(plans) && forall i :: 0 <= i < |plans| ==> ItemsOk(plans[i].1.tasks)
  {
    var plans := OptionalMap(fields, "plans", DecodePlanAt).value;
    if version == 1 && plans == [] {
      var raw := OptionalList(fields, "plan").value;
      GroupedOk(raw);
      SameKeys(Grouped(raw).value);
    } else if Get(fields, "plans").Some? {
      DecodedEntries(Get(fields, "plans").value.fields, DecodePlanAt);
      forall i | 0 <= i < |plans| ensures ItemsOk(plans[i].1.tasks) { ProducedPlan(plans[i]); }
    }
  }

  lemma {:induction false} DecodedWorkersOk(fields: Dict<Json>)
    requires OptionalMap(fields, "workers", DecodeWorker).Ok?
    ensures var workers := OptionalMap(fields, "workers", DecodeWorker).value;
      forall i :: 0 <= i < |workers| ==> IsName(workers[i].0) && workers[i].1.name == workers[i].0
  {
    if Get(fields, "workers").Some? { WorkersInOk(Get(fields, "workers").value.fields); }
  }

  lemma {:induction false} ProducedWorker(entry: (string, Worker))
    requires Produced(DecodeWorker, entry)
    ensures IsName(entry.0) && entry.1.name == entry.0
  {
    var j :| DecodeWorker(entry.0, j) == Ok(entry.1);
  }

  lemma {:induction false} WorkersInOk(inner: Dict<Json>)
    requires DecodeMap(inner, DecodeWorker).Ok?
    ensures var workers := DecodeMap(inner, DecodeWorker).value;
      forall i :: 0 <= i < |workers| ==> IsName(workers[i].0) && workers[i].1.name == workers[i].0
  {
    var workers := DecodeMap(inner, DecodeWorker).value;
    DecodedEntries(inner, DecodeWorker);
    forall i | 0 <= i < |workers| ensures IsName(workers[i].0) && workers[i].1.name == workers[i].0 {
      ProducedWorker(workers[i]);
    }
  }

  /** Whatever document is accepted, of either schema, decodes to a storable blueprint. */
  lemma {:induction false} DecodedIsStorable(j: Json)
    requires Decode(j).Ok?
    ensures Storable(Decode(j).value)
  {
    DecodedWorkersOk(j.fields);
    DecodedPlansOk(j.fields, Version(j.fields).value);
  }

  /** Re-encoding an accepted document, migrated or not, and decoding it again is stable. */
  lemma {:induction false} DecodeIsStable(j: Json)
    requires Decode(j).Ok?
    ensures Decode(Encode(Decode(j).value)) == Decode(j)
  {
    DecodedIsStorable(j);
    RoundTrip(Decode(j).value);
  }

  /** The decoder accepts exactly what the writer can produce: the storable blueprints. */
  lemma {:induction false} StorableExactlyWhenDecodable(b: Blueprint)
    ensures Storable(b) <==> exists j :: Decode(j) == Ok(b)
  {
    if Storable(b) {
      RoundTrip(b);
    } else if exists j :: Decode(j) == Ok(b) {
      var j :| Decode(j) == Ok(b);
      DecodedIsStorable(j);
    }
  }

  // ---- the schema-1 migration -------------------------------------------------

  /** The entries of the flat list that name this owner, in their original order. */
  function OwnedBy(js: seq<Json>, owner: string): seq<Json> {
    if js == [] then []
    else
      var init, last := OwnedBy(js[..|js| - 1], owner), js[|js| - 1];
      if Owner(last) == Ok(owner) then init + [last] else init
  }

  function LegacyItems(js: seq<Json>): Decoded<seq<Item>> {
    if js == [] then Ok([])
    else
      var init :- LegacyItems(js[..|js| - 1]);
      var item :- DecodeItem(js[|js| - 1], true);
      Ok(init + [item])
  }

  /** Every owner's plan is that owner's entries, each decoded, in their original order. */
  lemma {:induction false} GroupedByOwner(js: seq<Json>, owner: string)
    requires Grouped(js).Ok?
    ensures var mine := Get(Grouped(js).value, owner);
      && LegacyItems(OwnedBy(js, owner)) == Ok(if mine.Some? then mine.value else [])
      && (mine.Some? <==> OwnedBy(js, owner) != [])
  {
    if js != [] {
      var init, last := js[..|js| - 1], js[|js| - 1];
      GroupedByOwner(init, owner);
      var before, whose, item := Grouped(init).value, Owner(last).value, DecodeItem(last, true).value;
      var mine := if whose in Keys(before) then Get(before, whose).value else [];
      GetPut(before, whose, mine + [item], owner);
      if whose == owner {
        assert OwnedBy(js, owner)[..|OwnedBy(js, owner)| - 1] == OwnedBy(init, owner);
      }
    }
  }

  function TotalTasks(groups: Dict<seq<Item>>): nat {
    if groups == [] then 0 else |groups[0].1| + TotalTasks(groups[1..])
  }

  lemma {:induction false} TotalAfterPut(groups: Dict<seq<Item>>, owner: string, item: Item)
    requires Distinct(groups)
    ensures var mine := if owner in Keys(groups) then Get(groups, owner).value else [];
      TotalTasks(Put(groups, owner, mine + [item])) == TotalTasks(groups) + 1
  {
    if groups != [] {
      var mine := if owner in Keys(groups) then Get(groups, owner).value else [];
      var r := Put(groups, owner, mine + [item]);
      if groups[0].0 == owner {
        assert r[1..] == groups[1..];
      } else {
        TotalAfterPut(groups[1..], owner, item);
        assert r[1..] == Put(groups[1..], owner, mine + [item]);
      }
    }
  }

  /** No entry is lost or doubled by the migration. */
  lemma {:induction false} GroupingConserves(js: seq<Json>)
    requires Grouped(js).Ok?
    ensures TotalTasks(Grouped(js).value) == |js|
  {
    if js != [] {
      var init, last := js[..|js| - 1], js[|js| - 1];
      GroupingConserves(init);
      TotalAfterPut(Grouped(init).value, Owner(last).value, DecodeItem(last, true).value);
    }
  }

  lemma {:induction false} GetAsPlans(groups: Dict<seq<Item>>, owner: string)
    ensures Get(AsPlans(groups), owner)
         == if owner in Keys(groups) then Some(Plan("", "", Get(groups, owner).value, "")) else None
  {
    if groups != [] {
      assert AsPlans(groups)[1..] == AsPlans(groups[1..]);
      GetAsPlans(groups[1..], owner);
    }
  }

  /** An accepted schema-1 document carries exactly the plans of its grouped flat list. */
  lemma {:induction false} LegacyPlansAreGrouped(j: Json)
    requires Decode(j).Ok? && Get(j.fields, "schema_version") != Some(Int(2))
    ensures OptionalList(j.fields, "plan").Ok? && Grouped(OptionalList(j.fields, "plan").value).Ok?
    ensures Decode(j).value.plans == AsPlans(Grouped(OptionalList(j.fields, "plan").value).value)
  {
    assert Keys(j.fields) <= FIELDS_V1;
    assert Get(j.fields, "plans").None?;
    assert Decode(j).value.plans == DecodePlans(j.fields, 1).value;
  }

  /** Each entry lands in its owner's plan, in order, and nowhere else. */
  lemma {:induction false} MigrationPartitions(js: seq<Json>, owner: string)
    requires Grouped(js).Ok?
    ensures LegacyItems(OwnedBy(js, owner)).Ok?
    ensures Get(AsPlans(Grouped(js).value), owner)
         == if OwnedBy(js, owner) == [] then None
            else Some(Plan("", "", LegacyItems(OwnedBy(js, owner)).value, ""))
    ensures forall e <- js :: Owner(e).Ok?
  {
    GroupedByOwner(js, owner);
    GetAsPlans(Grouped(js).value, owner);
    EveryEntryHasAnOwner(js);
  }

  lemma {:induction false} EveryEntryHasAnOwner(js: seq<Json>)
    requires Grouped(js).Ok?
    ensures forall e <- js :: Owner(e).Ok?
  {
    if js != [] {
      var init, last := js[..|js| - 1], js[|js| - 1];
      EveryEntryHasAnOwner(init);
      forall e | e in js ensures Owner(e).Ok? {
        if e !in init { assert e == last; }
      }
    }
  }

  /** The decoder does not re-check the graph: a cycle between unknown agents is accepted. */
  lemma DecoderAcceptsCycles()
    ensures exists j :: Decode(j).Ok? && Decode(j).value.workers == []
                     && Decode(j).value.connections == [Edge("a", "b"), Edge("b", "a")]
  {
    var b := EMPTY.(connections := [Edge("a", "b"), Edge("b", "a")]);
    RoundTrip(b);
  }

  /** Nor the names: a worker called like the coordinator is accepted. */
  lemma DecoderAcceptsCoordinatorWorker()
    ensures exists j :: Decode(j).Ok? && COORDINATOR in Keys(Decode(j).value.workers)
  {
    var b := EMPTY.(workers := [(COORDINATOR, Worker(COORDINATOR, "", "worker"))]);
    assert b.workers[1..] == [];
    RoundTrip(b);
  }
}
