/** Whole runs of `AddZone` and `RemoveZone`: what every reachable state satisfies, and how much of
    it depends on the history. */
module ZoneHistory {
  import opened Wrappers
  import opened DomainNames
  import opened ZoneGraph
  import opened ZoneFiling
  import opened ZoneSerials
  import opened ZoneInversion

  /** `id` is the identity a new zone object would get. */
  datatype Op<R> = AddOp(id: R, data: ZoneData) | RemoveOp(key: ZoneKey)

  ghost function Ids<R>(ops: seq<Op<R>>): set<R> {
    set i | 0 <= i < |ops| && ops[i].AddOp? :: ops[i].id
  }

  /** New zone objects are distinct from all earlier ones. */
  ghost predicate FreshIds<R>(ops: seq<Op<R>>) {
    forall i, j | 0 <= i < j < |ops| && ops[i].AddOp? && ops[j].AddOp? :: ops[i].id != ops[j].id
  }

  ghost function Init<R>(): State<R> {
    State(map[], map[], map[], map[], map[], map[], map[])
  }

  ghost function Step<R>(st: State<R>, op: Op<R>, filing: Filing): (st1: State<R>)
    requires Valid(st) && (op.AddOp? ==> op.id !in st.key)
    requires filing.Corrected? ==> Sound(st)
    ensures Valid(st1) && (filing.Corrected? ==> Sound(st1))
    ensures st1.key.Keys <= if op.AddOp? then st.key.Keys + {op.id} else st.key.Keys
  {
    match op
    case AddOp(id, d) =>
      AddKeeps(st, id, d, filing);
      AddedZone(st, id, d, filing);
      assert filing.Corrected? ==> Sound(Add(st, id, d, filing)) by {
        if filing.Corrected? { AddIntendedKeeps(st, id, d); }
      }
      Add(st, id, d, filing)
    case RemoveOp(key) =>
      RemoveKeeps(st, key, filing);
      assert filing.Corrected? ==> Sound(Remove(st, key, filing)) by {
        if filing.Corrected? { RemoveIntendedKeeps(st, key); }
      }
      Remove(st, key, filing)
  }

  /** The state after a run that starts with an empty model. In every reachable state the parent
      pointers are coherent; with the intended filing the child maps are exact as well. */
  ghost function Run<R>(ops: seq<Op<R>>, filing: Filing): (st: State<R>)
    requires FreshIds(ops)
    ensures Valid(st) && (filing.Corrected? ==> Sound(st))
    ensures st.key.Keys <= Ids(ops)
    decreases |ops|
  {
    if ops == [] then Init()
    else
      var n := |ops| - 1;
      var st := Run(ops[..n], filing);
      assert ops[n].AddOp? ==> ops[n].id !in Ids(ops[..n]) && ops[n].id in Ids(ops);
      assert Ids(ops[..n]) <= Ids(ops) by {
        assert forall i | 0 <= i < n :: ops[..n][i] == ops[i];
      }
      Step(st, ops[n], filing)
  }

  /** In front of every call of `AddZone` the loop over the ancestors was sure to end. */
  ghost predicate SafeRun<R>(ops: seq<Op<R>>, filing: Filing)
    requires FreshIds(ops)
  {
    forall i {:trigger ops[i]} | 0 <= i < |ops| && ops[i].AddOp? :: SafeToAdd(Run(ops[..i], filing), ops[i].data)
  }

  /** If so the pointers of all zone objects, known or removed, have no cycle after the run. */
  lemma {:induction false} RunAcyclic<R>(ops: seq<Op<R>>, filing: Filing)
    requires FreshIds(ops) && SafeRun(ops, filing)
    ensures Acyclic(Run(ops, filing).parent)
    decreases |ops|
  {
    if ops != [] {
      var n := |ops| - 1;
      forall i | 0 <= i < n && ops[..n][i].AddOp?
        ensures SafeToAdd(Run(ops[..n][..i], filing), ops[..n][i].data)
      {
        assert ops[..n][..i] == ops[..i] && ops[..n][i] == ops[i];
      }
      RunAcyclic(ops[..n], filing);
      StepAcyclic(ops, filing);
    }
  }

  lemma StepAcyclic<R>(ops: seq<Op<R>>, filing: Filing)
    requires FreshIds(ops) && ops != [] && Acyclic(Run(ops[..|ops| - 1], filing).parent)
    requires var n := |ops| - 1; ops[n].AddOp? ==> SafeToAdd(Run(ops[..n], filing), ops[n].data)
    ensures Acyclic(Run(ops, filing).parent)
  {
    var n := |ops| - 1;
    var st := Run(ops[..n], filing);
    assert ops[n].AddOp? ==> ops[n].id !in Ids(ops[..n]);
    if ops[n].AddOp? {
      AcyclicKept(st, ops[n].id, ops[n].data, filing);
    }
  }

  // ----- what the cluster says ----------------------------------------------------------------

  /** The objects a run leaves in the model: for every known zone the last one added. */
  ghost function Specs<R>(ops: seq<Op<R>>): map<ZoneKey, ZoneData>
    decreases |ops|
  {
    if ops == [] then map[] else SpecStep(Specs(ops[..|ops| - 1]), ops[|ops| - 1])
  }

  ghost function SpecStep<R>(specs: map<ZoneKey, ZoneData>, op: Op<R>): map<ZoneKey, ZoneData> {
    match op
    case AddOp(_, d) => specs[d.key := d]
    case RemoveOp(key) => specs - {key}
  }

  /** The model knows the zones of `specs`, each with the data of its object. */
  ghost predicate Records<R>(st: State<R>, specs: map<ZoneKey, ZoneData>)
    requires Closed(st)
  {
    && st.zones.Keys == specs.Keys
    && forall k {:trigger specs[k]} | k in specs ::
         specs[k].key == k
         && st.names[st.zones[k]] == specs[k].names
         && st.parentName[st.zones[k]] == specs[k].parentRef
  }

  lemma AddRecords<R>(st: State<R>, id: R, d: ZoneData, filing: Filing, specs: map<ZoneKey, ZoneData>)
    requires Valid(st) && (d.key in st.zones || id !in st.key) && Records(st, specs)
    requires Valid(Add(st, id, d, filing))
    ensures Records(Add(st, id, d, filing), specs[d.key := d])
  {
    AddedZone(st, id, d, filing);
    RecordsUpdated(st, Add(st, id, d, filing), d, if d.key in st.zones then st.zones[d.key] else id, specs);
  }

  lemma RecordsUpdated<R>(st: State<R>, st1: State<R>, d: ZoneData, t: R, specs: map<ZoneKey, ZoneData>)
    requires Closed(st) && Closed(st1) && Records(st, specs)
    requires st1.zones == st.zones[d.key := t]
    requires st1.names == st.names[t := d.names] && st1.parentName == st.parentName[t := d.parentRef]
    requires if d.key in st.zones then t == st.zones[d.key] else t !in st.key
    ensures Records(st1, specs[d.key := d])
  {
    var specs1 := specs[d.key := d];
    forall k | k in specs1
      ensures specs1[k].key == k
        && st1.names[st1.zones[k]] == specs1[k].names && st1.parentName[st1.zones[k]] == specs1[k].parentRef
    {
      if k != d.key {
        assert st1.zones[k] == st.zones[k] && st.zones[k] != t && specs1[k] == specs[k];
      }
    }
  }

  lemma {:induction false} RunRecords<R>(ops: seq<Op<R>>, filing: Filing)
    requires FreshIds(ops)
    ensures Records(Run(ops, filing), Specs(ops))
    decreases |ops|
  {
    if ops != [] {
      var n := |ops| - 1;
      RunRecords(ops[..n], filing);
      assert ops[n].AddOp? ==> ops[n].id !in Ids(ops[..n]);
      StepRecords(Run(ops[..n], filing), ops[n], filing, Specs(ops[..n]));
    }
  }

  lemma StepRecords<R>(st: State<R>, op: Op<R>, filing: Filing, specs: map<ZoneKey, ZoneData>)
    requires Valid(st) && (op.AddOp? ==> op.id !in st.key) && (filing.Corrected? ==> Sound(st)) && Records(st, specs)
    ensures Records(Step(st, op, filing), SpecStep(specs, op))
  {
    match op
    case AddOp(id, d) =>
      AddKeeps(st, id, d, filing);
      AddRecords(st, id, d, filing, specs);
    case RemoveOp(key) =>
      RemoveKeeps(st, key, filing);
      RemoveRecords(st, key, filing, specs);
  }

  lemma RemoveRecords<R>(st: State<R>, key: ZoneKey, filing: Filing, specs: map<ZoneKey, ZoneData>)
    requires Valid(st) && Records(st, specs) && Closed(Remove(st, key, filing))
    ensures Records(Remove(st, key, filing), specs - {key})
  {
  }

  // ----- the tree, seen from outside ----------------------------------------------------------

  /** A zone by keys: names, parent (if known), children. */
  datatype ZoneView = ZoneView(names: seq<string>, parent: Option<ZoneKey>, children: map<string, ZoneKey>)

  ghost function KnownParent<R>(st: State<R>, k: ZoneKey): Option<ZoneKey>
    requires Closed(st) && k in st.zones
  {
    var o := st.parent[st.zones[k]];
    if o.Some? && Present(st, o.value) then Some(st.key[o.value]) else None
  }

  ghost function KnownChildren<R>(st: State<R>, k: ZoneKey): map<string, ZoneKey>
    requires Closed(st) && k in st.zones
  {
    map n | n in st.children[st.zones[k]] :: st.key[st.children[st.zones[k]][n]]
  }

  ghost function ViewOf<R>(st: State<R>): map<ZoneKey, ZoneView>
    requires Closed(st)
  {
    map k | k in st.zones :: ZoneView(st.names[st.zones[k]], KnownParent(st, k), KnownChildren(st, k))
  }

  ghost function SpecParent(specs: map<ZoneKey, ZoneData>, k: ZoneKey): Option<ZoneKey>
    requires k in specs
  {
    if specs[k].parentRef != "" && specs[k].ParentKey() in specs then Some(specs[k].ParentKey()) else None
  }

  ghost function SpecChildren(specs: map<ZoneKey, ZoneData>, k: ZoneKey): map<string, ZoneKey> {
    map n | n in KnownNames(specs) && k.For(n) in specs && SpecParent(specs, k.For(n)) == Some(k) :: k.For(n)
  }

  /** The tree the objects describe, the model aside. */
  ghost function TreeOf(specs: map<ZoneKey, ZoneData>): map<ZoneKey, ZoneView> {
    map k | k in specs :: ZoneView(specs[k].names, SpecParent(specs, k), SpecChildren(specs, k))
  }

  /** In every reachable state of the code as written a zone's parent is the one its object names. */
  lemma ParentsFollowSpecs<R>(st: State<R>, specs: map<ZoneKey, ZoneData>, k: ZoneKey)
    requires Valid(st) && Records(st, specs) && k in specs
    ensures KnownParent(st, k) == SpecParent(specs, k)
  {
    var z := st.zones[k];
    assert specs[k].key == k && st.ParentKey(z) == specs[k].ParentKey();
    if st.parent[z].Some? {
      assert st.Refers(z, st.key[st.parent[z].value]);
    }
  }

  lemma ChildrenFollowSpecs<R>(st: State<R>, specs: map<ZoneKey, ZoneData>, k: ZoneKey)
    requires Sound(st) && Records(st, specs) && k in specs
    ensures KnownChildren(st, k) == SpecChildren(specs, k)
  {
    var have, want := KnownChildren(st, k), SpecChildren(specs, k);
    forall n | n in have ensures n in want && have[n] == want[n] {
      var c := st.children[st.zones[k]][n];
      assert Listed(st, st.zones[k], n, c);
      assert st.parent[c].value == st.zones[k] && st.Refers(c, k);
      assert st.key[c] == k.For(n) && st.zones[k.For(n)] == c;
      ParentsFollowSpecs(st, specs, k.For(n));
      assert k.For(n).name == n;
    }
    forall n | n in want ensures n in have {
      ParentsFollowSpecs(st, specs, k.For(n));
      var c := st.zones[k.For(n)];
      assert st.parent[st.zones[k.For(n)]] == Some(st.zones[k]) && Present(st, st.zones[k]);
      assert Lists(st, k.For(n));
    }
  }

  /** With the intended filing the tree after any run is the one the objects describe. */
  lemma TreeFollowsSpecs<R>(ops: seq<Op<R>>)
    requires FreshIds(ops)
    ensures ViewOf(Run(ops, Corrected)) == TreeOf(Specs(ops))
  {
    RunRecords(ops, Corrected);
    ViewFollows(Run(ops, Corrected), Specs(ops));
  }

  lemma ViewFollows<R>(st: State<R>, specs: map<ZoneKey, ZoneData>)
    requires Sound(st) && Records(st, specs)
    ensures ViewOf(st) == TreeOf(specs)
  {
    forall k | k in specs ensures ViewOf(st)[k] == TreeOf(specs)[k] {
      ParentsFollowSpecs(st, specs, k);
      ChildrenFollowSpecs(st, specs, k);
    }
  }

  /** Hence two runs that end with the same objects end with the same tree, whatever came before. */
  lemma HistoryDoesNotMatter<R>(ops: seq<Op<R>>, others: seq<Op<R>>)
    requires FreshIds(ops) && FreshIds(others) && Specs(ops) == Specs(others)
    ensures ViewOf(Run(ops, Corrected)) == ViewOf(Run(others, Corrected))
  {
    TreeFollowsSpecs(ops);
    TreeFollowsSpecs(others);
  }

  /** As written this much remains: known zones, their names and parents are those of the objects. */
  lemma ParentsFollowRun<R>(ops: seq<Op<R>>)
    requires FreshIds(ops)
    ensures var view, tree := ViewOf(Run(ops, AsWritten)), TreeOf(Specs(ops));
      view.Keys == tree.Keys
      && forall k | k in view :: view[k].names == tree[k].names && view[k].parent == tree[k].parent
  {
    RunRecords(ops, AsWritten);
    forall k | k in Specs(ops)
      ensures KnownParent(Run(ops, AsWritten), k) == SpecParent(Specs(ops), k)
    {
      ParentsFollowSpecs(Run(ops, AsWritten), Specs(ops), k);
    }
  }

  // ----- adding the same zones in any order -----------------------------------------------------

  /** Every zone is added once and none is removed. */
  ghost predicate AddsOnce<R>(ops: seq<Op<R>>) {
    && (forall i | 0 <= i < |ops| :: ops[i].AddOp?)
    && forall i, j | 0 <= i < j < |ops| :: ops[i].data.key != ops[j].data.key
  }

  lemma {:induction false} SpecsOfAdds<R>(ops: seq<Op<R>>)
    requires AddsOnce(ops)
    ensures forall k {:trigger k in Specs(ops)} | k in Specs(ops) :: exists i :: 0 <= i < |ops| && ops[i].data.key == k
    ensures forall i | 0 <= i < |ops| :: ops[i].data.key in Specs(ops) && Specs(ops)[ops[i].data.key] == ops[i].data
    decreases |ops|
  {
    if ops != [] {
      var n := |ops| - 1;
      SpecsOfAdds(ops[..n]);
      assert forall i | 0 <= i < n :: ops[..n][i] == ops[i];
      assert ops[n].data.key in Specs(ops);
    }
  }

  /** Every object added by the first run is added by the second. */
  ghost predicate Within<R>(ops: seq<Op<R>>, others: seq<Op<R>>) {
    forall i | 0 <= i < |ops| && ops[i].AddOp? ::
      exists j :: 0 <= j < |others| && others[j].AddOp? && others[j].data == ops[i].data
  }

  lemma Covers<R>(ops: seq<Op<R>>, others: seq<Op<R>>)
    requires AddsOnce(ops) && AddsOnce(others) && Within(ops, others)
    ensures forall k {:trigger k in Specs(ops)} | k in Specs(ops) ::
      k in Specs(others) && Specs(others)[k] == Specs(ops)[k]
  {
    SpecsOfAdds(ops);
    SpecsOfAdds(others);
    forall k | k in Specs(ops) ensures k in Specs(others) && Specs(others)[k] == Specs(ops)[k] {
      var i :| 0 <= i < |ops| && ops[i].data.key == k;
      assert ops[i].AddOp?;
      var j :| 0 <= j < |others| && others[j].AddOp? && others[j].data == ops[i].data;
    }
  }

  /** Adding the same zones in any order yields the same tree. */
  lemma OrderDoesNotMatter<R>(ops: seq<Op<R>>, others: seq<Op<R>>)
    requires FreshIds(ops) && FreshIds(others) && AddsOnce(ops) && AddsOnce(others)
    requires Within(ops, others) && Within(others, ops)
    ensures ViewOf(Run(ops, Corrected)) == ViewOf(Run(others, Corrected))
  {
    Covers(ops, others);
    Covers(others, ops);
    assert Specs(ops) == Specs(others);
    HistoryDoesNotMatter(ops, others);
  }

  // ----- zones called like the root of all names ----------------------------------------------------

  ghost predicate Rootless<R>(st: State<R>) {
    forall z {:trigger st.names[z]} | z in st.names :: "." !in st.names[z]
  }

  /** The model calls a zone "." only for a root object with a domain name that is empty or ".". */
  lemma RootNameIff(zone: HostedZone)
    ensures "." in ZoneNames(zone) <==> zone.parentRef == "" && ("." in zone.domainNames || "" in zone.domainNames)
  {
    var names := ZoneNames(zone);
    forall i | 0 <= i < |names| ensures names[i] == "." <==>
      zone.parentRef == "" && (zone.domainNames[i] == "." || zone.domainNames[i] == "")
    {
      if zone.parentRef != "" { assert !EndsWithDot(names[i]); }
    }
  }

  lemma StepRootless<R>(st: State<R>, op: Op<R>, filing: Filing)
    requires Valid(st) && (op.AddOp? ==> op.id !in st.key && "." !in op.data.names)
    requires (filing.Corrected? ==> Sound(st)) && Rootless(st)
    ensures Rootless(Step(st, op, filing))
  {
    if op.AddOp? { AddedZone(st, op.id, op.data, filing); }
  }

  /** Without such objects no descent meets such a zone, in any reachable state. */
  lemma {:induction false} RunRootless<R>(ops: seq<Op<R>>, filing: Filing)
    requires FreshIds(ops) && forall i | 0 <= i < |ops| && ops[i].AddOp? :: "." !in ops[i].data.names
    ensures Rootless(Run(ops, filing)) && NoNestedRoot(Run(ops, filing))
    decreases |ops|
  {
    if ops != [] {
      var n := |ops| - 1;
      RunRootless(ops[..n], filing);
      assert ops[n].AddOp? ==> ops[n].id !in Ids(ops[..n]);
      StepRootless(Run(ops[..n], filing), ops[n], filing);
    }
  }
}
