/** Which documents are accepted, of either schema, and what blueprint each of them stands for. */
module CodecDocuments {
  import opened Wrappers
  import opened Dicts
  import opened Blueprints
  import opened JsonValues
  import opened Codec
  import opened CodecReads

  // ---- the flat list of schema 1 ----------------------------------------------

  /** The tasks of one owner, in order. */
  function Picked(owners: seq<string>, items: seq<Item>, name: string): seq<Item>
    requires |owners| == |items|
  {
    if owners == [] then []
    else
      var n := |owners| - 1;
      Picked(owners[..n], items[..n], name) + if owners[n] == name then [items[n]] else []
  }

  /** One group an owner, in the order in which the owners first occur. */
  function Groups(owners: seq<string>, items: seq<Item>): Dict<seq<Item>>
    requires |owners| == |items|
  {
    var names := Dedup(owners);
    seq(|names|, i requires 0 <= i < |names| => (names[i], Picked(owners, items, names[i])))
  }

  predicate IsOwned(j: Json, owner: string, item: Item) {
    IsTask(j, item, {"agent"}) && IsText(j.fields, "agent", COORDINATOR, owner)
  }

  /** The entries of the list are these tasks of these owners; who names no agent is the coordinator's. */
  ghost predicate AreOwned(js: seq<Json>, owners: seq<string>, items: seq<Item>) {
    && |owners| == |items| == |js|
    && forall i :: 0 <= i < |js| ==> IsOwned(js[i], owners[i], items[i])
  }

  lemma PickedMore(owners: seq<string>, items: seq<Item>, owner: string, item: Item, name: string)
    requires |owners| == |items|
    ensures Picked(owners + [owner], items + [item], name)
      == if owner == name then Picked(owners, items, name) + [item] else Picked(owners, items, name)
  {
    var before := Picked(owners, items, name);
    assert before + [] == before;
    assert (owners + [owner])[..|owners|] == owners && (items + [item])[..|items|] == items;
  }

  lemma DedupMore(s: seq<string>, x: string)
    ensures Dedup(s + [x]) == if x in Dedup(s) then Dedup(s) else Dedup(s) + [x]
  {
    assert (s + [x])[..|s|] == s;
  }

  lemma {:induction false} GroupAt(owners: seq<string>, items: seq<Item>, i: nat)
    requires |owners| == |items| && i < |Dedup(owners)|
    ensures |Groups(owners, items)| == |Dedup(owners)|
    ensures Groups(owners, items)[i] == (Dedup(owners)[i], Picked(owners, items, Dedup(owners)[i]))
  {
  }

  lemma SameGroups(g: Dict<seq<Item>>, h: Dict<seq<Item>>)
    requires |g| == |h| && forall i :: 0 <= i < |g| ==> g[i] == h[i]
    ensures g == h
  {
  }

  lemma {:induction false} KnownOwner(owners: seq<string>, items: seq<Item>, owner: string, item: Item, k: nat)
    requires |owners| == |items| && k < |Dedup(owners)| && Dedup(owners)[k] == owner
    ensures var g := Groups(owners, items);
      && k < |g| && g[k].0 == owner
      && Groups(owners + [owner], items + [item]) == g[k := (owner, Picked(owners, items, owner) + [item])]
  {
    var g, names := Groups(owners, items), Dedup(owners);
    var h, after := Groups(owners + [owner], items + [item]), g[k := (owner, Picked(owners, items, owner) + [item])];
    DedupFacts(owners);
    DedupMore(owners, owner);
    forall i | 0 <= i < |names| ensures h[i] == after[i] {
      GroupAt(owners, items, i);
      GroupAt(owners + [owner], items + [item], i);
      PickedMore(owners, items, owner, item, names[i]);
      assert i != k ==> names[i] != names[k];
    }
    SameGroups(h, after);
  }

  lemma {:induction false} NewOwner(owners: seq<string>, items: seq<Item>, owner: string, item: Item)
    requires |owners| == |items| && owner !in owners
    ensures Groups(owners + [owner], items + [item]) == Groups(owners, items) + [(owner, [item])]
  {
    var g, names := Groups(owners, items), Dedup(owners);
    var h, after := Groups(owners + [owner], items + [item]), g + [(owner, [item])];
    DedupFacts(owners);
    DedupMore(owners, owner);
    PickedNothing(owners, items, owner);
    forall i | 0 <= i < |h| ensures h[i] == after[i] {
      GroupAt(owners + [owner], items + [item], i);
      PickedMore(owners, items, owner, item, Dedup(owners + [owner])[i]);
      if i < |names| {
        GroupAt(owners, items, i);
        assert names[i] in names && after[i] == g[i];
      } else {
        assert [] + [item] == [item];
      }
    }
    SameGroups(h, after);
  }

  lemma {:induction false} GroupsGrow(owners: seq<string>, items: seq<Item>, owner: string, item: Item)
    requires |owners| == |items|
    ensures var mine := Get(Groups(owners, items), owner);
      Groups(owners + [owner], items + [item])
      == Put(Groups(owners, items), owner, (if mine.Some? then mine.value else []) + [item])
  {
    var g := Groups(owners, items);
    DedupFacts(owners);
    GroupsAreDistinct(owners, items);
    if owner in owners {
      var k :| 0 <= k < |Dedup(owners)| && Dedup(owners)[k] == owner;
      KnownOwner(owners, items, owner, item, k);
      GroupAt(owners, items, k);
      GetAt(g, k);
      PutAt(g, k, Picked(owners, items, owner) + [item]);
    } else {
      NewOwner(owners, items, owner, item);
    }
  }

  lemma {:induction false} GroupsAreDistinct(owners: seq<string>, items: seq<Item>)
    requires |owners| == |items|
    ensures Distinct(Groups(owners, items))
    ensures forall name :: name in Keys(Groups(owners, items)) <==> name in owners
  {
    DedupFacts(owners);
    var g := Groups(owners, items);
    DistinctByIndex(g);
    forall name ensures name in Keys(g) <==> name in owners {
      KeysByIndex(g, name);
      if name in Dedup(owners) {
        var k :| 0 <= k < |Dedup(owners)| && Dedup(owners)[k] == name;
        assert g[k].0 == name;
      }
    }
  }

  lemma {:induction false} PickedNothing(owners: seq<string>, items: seq<Item>, name: string)
    requires |owners| == |items| && name !in owners
    ensures Picked(owners, items, name) == []
  {
    if owners != [] { PickedNothing(owners[..|owners| - 1], items[..|items| - 1], name); }
  }

  lemma {:induction false} OwnedReads(j: Json, owner: string, item: Item)
    ensures Owner(j) == Ok(owner) && DecodeItem(j, true) == Ok(item) <==> IsOwned(j, owner, item)
  {
    TaskReads(j, item, true);
    if j.Obj? { TextReads(j.fields, "agent", COORDINATOR, owner); }
  }

  lemma {:induction false} GroupedLast(init: seq<Json>, last: Json, g: Dict<seq<Item>>, owner: string, item: Item)
    requires Grouped(init) == Ok(g) && Owner(last) == Ok(owner) && DecodeItem(last, true) == Ok(item)
    ensures var mine := Get(g, owner);
      Grouped(init + [last]) == Ok(Put(g, owner, (if mine.Some? then mine.value else []) + [item]))
  {
    assert (init + [last])[..|init|] == init;
  }

  lemma NoGroups()
    ensures Groups([], []) == []
  {
  }

  lemma {:induction false} OwnedStep(init: seq<Json>, last: Json, owners: seq<string>, items: seq<Item>, owner: string,
                                     item: Item)
    requires |owners| == |items| && Grouped(init) == Ok(Groups(owners, items)) && IsOwned(last, owner, item)
    ensures Grouped(init + [last]) == Ok(Groups(owners + [owner], items + [item]))
  {
    OwnedReads(last, owner, item);
    GroupsGrow(owners, items, owner, item);
    GroupedLast(init, last, Groups(owners, items), owner, item);
  }

  /** What a readable list holds. */
  lemma {:induction false} GroupedIs(js: seq<Json>) returns (owners: seq<string>, items: seq<Item>)
    requires Grouped(js).Ok?
    ensures AreOwned(js, owners, items) && Grouped(js) == Ok(Groups(owners, items))
  {
    owners, items := [], [];
    NoGroups();
    if js != [] {
      var init, last := js[..|js| - 1], js[|js| - 1];
      assert js == init + [last];
      owners, items := GroupedIs(init);
      var owner, item := Owner(last).value, DecodeItem(last, true).value;
      OwnedReads(last, owner, item);
      OwnedStep(init, last, owners, items, owner, item);
      OwnedMore(init, owners, items, last, owner, item);
      owners, items := owners + [owner], items + [item];
    }
  }

  lemma {:induction false} OwnedIsGrouped(js: seq<Json>, owners: seq<string>, items: seq<Item>)
    requires AreOwned(js, owners, items)
    ensures Grouped(js) == Ok(Groups(owners, items))
  {
    NoGroups();
    if js != [] {
      var n := |js| - 1;
      OwnedLess(js, owners, items, n);
      OwnedIsGrouped(js[..n], owners[..n], items[..n]);
      OwnedStep(js[..n], js[n], owners[..n], items[..n], owners[n], items[n]);
    }
  }

  lemma OwnedLess(js: seq<Json>, owners: seq<string>, items: seq<Item>, n: nat)
    requires AreOwned(js, owners, items) && |js| == n + 1
    ensures AreOwned(js[..n], owners[..n], items[..n]) && IsOwned(js[n], owners[n], items[n])
    ensures js == js[..n] + [js[n]] && owners == owners[..n] + [owners[n]] && items == items[..n] + [items[n]]
  {
  }

  lemma OwnedMore(js: seq<Json>, owners: seq<string>, items: seq<Item>, j: Json, owner: string, item: Item)
    requires AreOwned(js, owners, items) && IsOwned(j, owner, item)
    ensures AreOwned(js + [j], owners + [owner], items + [item])
  {
  }

  /** One plan an owner, without goal and summary, with that owner's tasks in order. */
  ghost predicate AreMigrated(js: seq<Json>, plans: Dict<Plan>) {
    exists owners: seq<string>, items: seq<Item> ::
      AreOwned(js, owners, items) && plans == AsPlans(Groups(owners, items))
  }

  lemma {:induction false} FlatListReads(js: seq<Json>, plans: Dict<Plan>)
    ensures Grouped(js).Ok? && AsPlans(Grouped(js).value) == plans <==> AreMigrated(js, plans)
  {
    if Grouped(js).Ok? {
      var owners, items := GroupedIs(js);
    }
    if AreMigrated(js, plans) {
      var owners: seq<string>, items: seq<Item> :|
        AreOwned(js, owners, items) && plans == AsPlans(Groups(owners, items));
      OwnedIsGrouped(js, owners, items);
    }
  }

  // ---- whole documents --------------------------------------------------------

  function Inner(fields: Dict<Json>, key: string): Dict<Json> {
    if Get(fields, key).Some? && Get(fields, key).value.Obj? then Get(fields, key).value.fields else []
  }

  function Items(fields: Dict<Json>, key: string): seq<Json> {
    if Get(fields, key).Some? && Get(fields, key).value.Arr? then Get(fields, key).value.items else []
  }

  /** An object, or nothing, whose entries stand for these. */
  ghost predicate IsMap<V>(fields: Dict<Json>, key: string, d: Dict<V>, means: (string, Json, V) -> bool) {
    IsObject(fields, key, Inner(fields, key)) && AreEntries(Inner(fields, key), d, means)
  }

  /** The plans of a document: those it maps agents to under schema 2, those of its flat list under schema 1,
      which is also the schema of a document that names none. */
  ghost predicate HasPlans(j: Json, plans: Dict<Plan>)
    requires j.Obj?
  {
    if Get(j.fields, "schema_version") == Some(Int(2)) then
      && OnlyFields(j, {"schema_version", "workers", "connections", "mappers", "routers", "plans"})
      && IsMap(j.fields, "plans", plans, IsPlan)
    else
      && (Get(j.fields, "schema_version").None? || Get(j.fields, "schema_version") == Some(Int(1)))
      && OnlyFields(j, {"schema_version", "workers", "connections", "mappers", "routers", "plan"})
      && IsList(j.fields, "plan", Items(j.fields, "plan")) && AreMigrated(Items(j.fields, "plan"), plans)
  }

  ghost predicate HasGraph(fields: Dict<Json>, b: Blueprint) {
    && IsMap(fields, "workers", b.workers, IsWorker)
    && IsList(fields, "connections", Items(fields, "connections"))
    && AreEdges(Items(fields, "connections"), b.connections)
    && IsMap(fields, "mappers", b.mappers, IsMode)
    && IsMap(fields, "routers", b.routers, IsTargets)
  }

  /** The document stands for the blueprint. */
  ghost predicate Stands(j: Json, b: Blueprint) {
    j.Obj? && b.schemaVersion == 2 && HasGraph(j.fields, b) && HasPlans(j, b.plans)
  }

  lemma {:induction false} ProperInner(fields: Dict<Json>, key: string)
    requires ProperFields(fields)
    ensures Distinct(Inner(fields, key))
  {
    if key in Keys(fields) && fields[0].0 != key { ProperInner(fields[1..], key); }
  }

  lemma {:induction false} MapFieldReads<V(!new)>(fields: Dict<Json>, key: string, f: (string, Json) -> Decoded<V>,
                                                  means: (string, Json, V) -> bool, d: Dict<V>)
    requires ProperFields(fields) && forall k, j, v :: f(k, j) == Ok(v) <==> means(k, j, v)
    ensures OptionalMap(fields, key, f) == Ok(d) <==> IsMap(fields, key, d, means)
  {
    ProperInner(fields, key);
    MapReads(Inner(fields, key), f, means, d);
  }

  lemma {:induction false} GraphReads(fields: Dict<Json>, b: Blueprint)
    requires ProperFields(fields)
    ensures HasGraph(fields, b) <==>
      && OptionalMap(fields, "workers", DecodeWorker) == Ok(b.workers)
      && OptionalList(fields, "connections").Ok?
      && DecodeEdges(OptionalList(fields, "connections").value) == Ok(b.connections)
      && OptionalMap(fields, "mappers", DecodeMode) == Ok(b.mappers)
      && OptionalMap(fields, "routers", DecodeTargets) == Ok(b.routers)
  {
    forall k, j, v ensures DecodeWorker(k, j) == Ok(v) <==> IsWorker(k, j, v) { WorkerReads(k, j, v); }
    forall k, j, v ensures DecodeMode(k, j) == Ok(v) <==> IsMode(k, j, v) { ModeReads(k, j, v); }
    forall k, j, v ensures DecodeTargets(k, j) == Ok(v) <==> IsTargets(k, j, v) { TargetsRead(k, j, v); }
    MapFieldReads(fields, "workers", DecodeWorker, IsWorker, b.workers);
    MapFieldReads(fields, "mappers", DecodeMode, IsMode, b.mappers);
    MapFieldReads(fields, "routers", DecodeTargets, IsTargets, b.routers);
    EdgesRead(Items(fields, "connections"), b.connections);
  }

  lemma {:induction false} MappedPlansRead(fields: Dict<Json>, plans: Dict<Plan>)
    requires ProperFields(fields)
    ensures OptionalMap(fields, "plans", DecodePlanAt) == Ok(plans) <==> IsMap(fields, "plans", plans, IsPlan)
  {
    forall k, x, v ensures DecodePlanAt(k, x) == Ok(v) <==> IsPlan(k, x, v) { PlanReads(k, x, v); }
    MapFieldReads(fields, "plans", DecodePlanAt, IsPlan, plans);
  }

  lemma FieldSets()
    ensures FIELDS_V1 == {"schema_version", "workers", "connections", "mappers", "routers", "plan"}
    ensures FIELDS_V2 == {"schema_version", "workers", "connections", "mappers", "routers", "plans"}
  {
  }

  lemma VersionIs(fields: Dict<Json>)
    ensures Version(fields) == Ok(2) <==> Get(fields, "schema_version") == Some(Int(2))
    ensures Version(fields) == Ok(1) <==>
      Get(fields, "schema_version").None? || Get(fields, "schema_version") == Some(Int(1))
    ensures Version(fields).Ok? ==> Version(fields).value in {1, 2}
  {
  }

  lemma {:induction false} MappedPlansAre(j: Json, plans: Dict<Plan>)
    requires j.Obj? && ProperFields(j.fields) && Get(j.fields, "schema_version") == Some(Int(2))
    ensures HasPlans(j, plans) <==> OnlyFields(j, FIELDS_V2) && DecodePlans(j.fields, 2) == Ok(plans)
  {
    FieldSets();
    MappedPlansRead(j.fields, plans);
  }

  lemma {:induction false} FlatDecodes(fields: Dict<Json>, plans: Dict<Plan>)
    requires "plans" !in Keys(fields)
    ensures DecodePlans(fields, 1) == Ok(plans) <==>
      && IsList(fields, "plan", Items(fields, "plan"))
      && Grouped(Items(fields, "plan")).Ok? && AsPlans(Grouped(Items(fields, "plan")).value) == plans
  {
    assert OptionalMap(fields, "plans", DecodePlanAt) == Ok([]);
  }

  lemma {:induction false} FlatPlansAre(j: Json, plans: Dict<Plan>)
    requires j.Obj?
    requires Get(j.fields, "schema_version").None? || Get(j.fields, "schema_version") == Some(Int(1))
    ensures HasPlans(j, plans) <==> OnlyFields(j, FIELDS_V1) && DecodePlans(j.fields, 1) == Ok(plans)
  {
    FieldSets();
    FlatListReads(Items(j.fields, "plan"), plans);
    if OnlyFields(j, FIELDS_V1) { FlatDecodes(j.fields, plans); }
  }

  lemma {:induction false} PlansRead(j: Json, plans: Dict<Plan>)
    requires j.Obj? && ProperFields(j.fields)
    ensures HasPlans(j, plans) <==>
      && Version(j.fields).Ok?
      && OnlyFields(j, if Version(j.fields).value == 1 then FIELDS_V1 else FIELDS_V2)
      && DecodePlans(j.fields, Version(j.fields).value) == Ok(plans)
  {
    VersionIs(j.fields);
    if Version(j.fields) == Ok(2) { MappedPlansAre(j, plans); }
    if Version(j.fields) == Ok(1) { FlatPlansAre(j, plans); }
  }

  /** A document decodes to exactly the blueprint it stands for; one that stands for none is refused. */
  lemma {:induction false} DecodesExactly(j: Json, b: Blueprint)
    requires Proper(j)
    ensures Decode(j) == Ok(b) <==> Stands(j, b)
  {
    if j.Obj? {
      GraphReads(j.fields, b);
      PlansRead(j, b.plans);
    }
  }

  lemma {:induction false} AcceptedExactlyWhen(j: Json)
    requires Proper(j)
    ensures Decode(j).Ok? <==> exists b: Blueprint :: Stands(j, b)
  {
    if Decode(j).Ok? { DecodesExactly(j, Decode(j).value); }
    if b: Blueprint :| Stands(j, b) { DecodesExactly(j, b); }
  }
}
