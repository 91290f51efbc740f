/** Short runs from an empty model, on a handful of objects, in which the code as written departs
    from its intent. */
module ZoneExamples {
  import opened Wrappers
  import opened DomainNames
  import opened ZoneGraph
  import opened ZoneFiling
  import opened ZoneSerials
  import opened ZoneHistory
  import opened ZoneInversion
  import opened ZoneLookup
  import opened ZoneForest

  /** A zone in one namespace of one cluster, called after itself. */
  function Zone(name: string, parentRef: string): ZoneData {
    DataOf("cluster", HostedZone("default", name, "1", [name], parentRef))
  }

  function Added(id: nat, name: string, parentRef: string): Op<nat> {
    AddOp(id, Zone(name, parentRef))
  }

  lemma ZoneIs(name: string, parentRef: string)
    ensures var d := Zone(name, parentRef);
      d.key == ZoneKey("cluster", "default", name) && d.parentRef == parentRef
      && d.ParentKey() == ZoneKey("cluster", "default", parentRef)
  {
  }

  /** One more call at the end of a run. */
  lemma RunNext(ops: seq<Op<nat>>, op: Op<nat>)
    requires FreshIds(ops + [op]) && op.AddOp?
    ensures FreshIds(ops) && op.id !in Run(ops, AsWritten).key && op.id !in Ids(ops)
    ensures Run(ops + [op], AsWritten) == Add(Run(ops, AsWritten), op.id, op.data, AsWritten)
  {
    var all := ops + [op];
    assert all[..|ops|] == ops && all[|ops|] == op;
    forall i, j | 0 <= i < j < |ops| && ops[i].AddOp? && ops[j].AddOp? ensures ops[i].id != ops[j].id {
      assert all[i].id != all[j].id;
    }
    forall i | 0 <= i < |ops| && ops[i].AddOp? ensures ops[i].id != op.id {
      assert all[i].id != all[|ops|].id;
    }
  }

  lemma KnownIgnoresId<R>(st: State<R>, i: R, j: R, d: ZoneData)
    requires Closed(st) && d.key in st.zones
    ensures Add(st, i, d, AsWritten) == Add(st, j, d, AsWritten)
  {
  }

  lemma FirstCall(op: Op<nat>)
    requires op.AddOp?
    ensures FreshIds([op]) && Run([op], AsWritten) == Add(Init<nat>(), op.id, op.data, AsWritten)
  {
    assert [] + [op] == [op];
    RunNext([], op);
  }

  /** After the first call of all the zone is known, a root, and alone. */
  lemma FirstZone(id: nat, name: string)
    ensures var st := Run([Added(id, name, "")], AsWritten);
      Valid(st) && st.zones == map[Zone(name, "").key := id] && st.key.Keys == {id}
      && st.parentName[id] == ""
  {
    var op := Added(id, name, "");
    ZoneIs(name, "");
    FirstCall(op);
    AddedZone(Init<nat>(), id, op.data, AsWritten);
  }

  /** "b" is a root, "a" is added below it, becomes a root, and "b" goes below "a": in the end the two
      zones are children of each other, and the recursion of the reverse lookup is not bounded. */
  lemma ChildCycleHappens()
    ensures var ops := [Added(0, "b", ""), Added(1, "a", "b"), Added(2, "a", ""), Added(3, "b", "a")];
      FreshIds(ops) && ChildOf(Run(ops, AsWritten), 0, 1) && ChildOf(Run(ops, AsWritten), 1, 0)
      && !NoneBelowItself(Run(ops, AsWritten), 0)
  {
    var o0, o1, o2, o3 := Added(0, "b", ""), Added(1, "a", "b"), Added(2, "a", ""), Added(3, "b", "a");
    var one, two, three := [o0], [o0] + [o1], [o0] + [o1] + [o2];
    assert [o0, o1, o2, o3] == three + [o3];
    RunNext(three, o3);
    RunNext(two, o2);
    RunNext(one, o1);
    FirstZone(0, "b");
    var st, st1 := Run(one, AsWritten), Run(two, AsWritten);
    var st2, st3 := Run(three, AsWritten), Run(three + [o3], AsWritten);
    AddedZone(st, 1, o1.data, AsWritten);
    AddedZone(st1, 2, o2.data, AsWritten);
    KnownIgnoresId(st1, 2, 1, o2.data);
    KnownIgnoresId(st2, 3, 0, o3.data);
    ChildCycle(st, o0.data.key, o1.data, o2.data, o3.data, 1, st1, st2, st3);
    NoRankInCycle(st3, 0, 1);
  }

  /** Two zones are added below the same root: the first is no child of it any more. */
  lemma SiblingsCollideHappens()
    ensures var ops := [Added(0, "root", ""), Added(1, "a", "root"), Added(2, "b", "root")];
      FreshIds(ops) && Lost(Run(ops, AsWritten), 0, 1)
  {
    var o0, o1, o2 := Added(0, "root", ""), Added(1, "a", "root"), Added(2, "b", "root");
    var one, two := [o0], [o0] + [o1];
    assert [o0, o1, o2] == two + [o2];
    RunNext(two, o2);
    RunNext(one, o1);
    FirstZone(0, "root");
    var st, st1, st2 := Run(one, AsWritten), Run(two, AsWritten), Run(two + [o2], AsWritten);
    AddedZone(st, 1, o1.data, AsWritten);
    SiblingsCollide(st, 1, 2, o1.data, o2.data, st1, st2);
  }

  /** "a" names "b" before "b" is in the model; when "b" is added and names "a", the call never ends. */
  lemma EndlessWalkHappens()
    ensures var ops := [Added(0, "a", "b")];
      FreshIds(ops) && !SafeToAdd(Run(ops, AsWritten), Zone("b", "a"))
  {
    var o0 := Added(0, "a", "b");
    FirstCall(o0);
    ZoneIs("a", "b");
    ZoneIs("b", "a");
    EndlessFrom(o0.data, Zone("b", "a"));
  }

  lemma EndlessFrom(a: ZoneData, b: ZoneData)
    requires a.key != b.key && a.parentRef != "" && a.ParentKey() == b.key && b.parentRef != "" &&
      b.ParentKey() == a.key
    ensures Closed(Add(Init<nat>(), 0, a, AsWritten)) && !SafeToAdd(Add(Init<nat>(), 0, a, AsWritten), b)
  {
    OutdatedReferenceCycle(Init<nat>(), 0, 1, a, b, Add(Init<nat>(), 0, a, AsWritten));
  }

  lemma TwoCalls(o0: Op<nat>, o1: Op<nat>)
    requires o0.AddOp? && o1.AddOp? && o0.id != o1.id
    ensures FreshIds([o0] + [o1]) && o1.id !in Run([o0], AsWritten).key
    ensures Run([o0], AsWritten) == Add(Init<nat>(), o0.id, o0.data, AsWritten)
    ensures Run([o0] + [o1], AsWritten) == Add(Run([o0], AsWritten), o1.id, o1.data, AsWritten)
  {
    RunNext([o0], o1);
    FirstCall(o0);
  }

  lemma EmptySound()
    ensures Sound(Init<nat>())
  {
  }

  /** "a" is added, then its parent "b", then "a" again: it is listed twice, and the reverse lookup from
      "b" reports it twice whenever it has an entry for the address. */
  lemma ListedTwiceHappens()
    ensures var ops := [Added(0, "a", "b"), Added(1, "b", ""), Added(2, "a", "b")];
      FreshIds(ops) && AlwaysTwice(Run(ops, AsWritten), 1, 0)
  {
    var o0, o1, o2 := Added(0, "a", "b"), Added(1, "b", ""), Added(2, "a", "b");
    var two := [o0] + [o1];
    assert [o0, o1, o2] == two + [o2];
    RunNext(two, o2);
    TwoCalls(o0, o1);
    EmptySound();
    ChildFirst(Init<nat>(), 0, 1, o0.data, o1.data, Run([o0], AsWritten), Run(two, AsWritten));
    KnownIgnoresId(Run(two, AsWritten), 2, 0, o2.data);
    AddedAgain(Run(two, AsWritten), o2.data, 0, 1, Run(two + [o2], AsWritten));
  }

  /** Or "a" is removed: "b" still has it as a child. */
  lemma RemovedStaysHappens()
    ensures var ops := [Added(0, "a", "b"), Added(1, "b", ""), RemoveOp(Zone("a", "b").key)];
      FreshIds(ops) && Zone("a", "b").key !in Run(ops, AsWritten).zones
      && ChildOf(Run(ops, AsWritten), 1, 0) && !Sound(Run(ops, AsWritten))
  {
    var o0, o1 := Added(0, "a", "b"), Added(1, "b", "");
    var two := [o0] + [o1];
    assert [o0, o1, RemoveOp(o0.data.key)] == two + [RemoveOp(o0.data.key)];
    TwoCalls(o0, o1);
    RemoveNext(two, o0.data.key);
    EmptySound();
    ChildFirst(Init<nat>(), 0, 1, o0.data, o1.data, Run([o0], AsWritten), Run(two, AsWritten));
    RemovedStays(Run(two, AsWritten), 0, 1, o0.data.key, o1.data.key);
  }

  lemma RemoveNext(ops: seq<Op<nat>>, key: ZoneKey)
    requires FreshIds(ops)
    ensures FreshIds(ops + [RemoveOp(key)])
    ensures Run(ops + [RemoveOp(key)], AsWritten) == Remove(Run(ops, AsWritten), key, AsWritten)
  {
    var all: seq<Op<nat>> := ops + [RemoveOp(key)];
    assert all[..|ops|] == ops && all[|ops|] == RemoveOp(key);
  }

  /** A zone with a domain name of its own. */
  function Called(name: string, domain: string): ZoneData {
    DataOf("cluster", HostedZone("default", name, "1", [domain], ""))
  }

  lemma CalledIs(name: string, domain: string)
    ensures var d := Called(name, domain);
      d.key == ZoneKey("cluster", "default", name) && d.parentRef == "" && d.names == [Fqdn(domain)]
  {
  }

  lemma FirstNames(op: Op<nat>)
    requires op.AddOp?
    ensures FreshIds([op]) && var st := Run([op], AsWritten);
      op.id in st.key && op.id in st.children && op.id in st.names && st.names[op.id] == op.data.names
  {
    FirstCall(op);
    AddedZone(Init<nat>(), op.id, op.data, AsWritten);
  }

  lemma DottedNames()
    ensures "b" + "." == "b." && Called("zone", "b.c").names == ["b.c."]
  {
    CalledIs("zone", "b.c");
    assert "b.c" + "." == "b.c." && !EndsWithDot("b.c");
  }

  /** A root called "b.c", such as `Called("zone", "b.c")`, is asked for "a..b.c": what is left joined
      with the zone name is another name. */
  lemma EmptyLabelHappens(op: Op<nat>)
    requires op.AddOp? && op.data.names == ["b.c."]
    ensures FreshIds([op]) && Inexact(Run([op], AsWritten), "a..b.c.", Hop(op.id, "b.c.", "a"))
  {
    FirstNames(op);
    EmptyLabelLost(Run([op], AsWritten), op.id);
  }

  lemma FirstNamed(name: string)
    requires !EndsWithDot(name)
    ensures FreshIds([Added(0, name, "")])
    ensures var st := Run([Added(0, name, "")], AsWritten); 0 in st.names && st.names[0] == [name + "."]
  {
    FirstNames(Added(0, name, ""));
    CalledIs(name, name);
  }

  lemma BelowFirst()
    ensures FreshIds([Added(0, "b", "")] + [Added(1, "a", "b")])
    ensures var st := Run([Added(0, "b", "")] + [Added(1, "a", "b")], AsWritten);
      SitsBelow(st, Zone("b", "").key, Zone("a", "b").key, 0, 1) && 0 in st.names && st.names[0] == ["b."]
  {
    var o0, o1 := Added(0, "b", ""), Added(1, "a", "b");
    TwoCalls(o0, o1);
    FirstZone(0, "b");
    FirstNamed("b");
    DottedNames();
    ZoneIs("a", "b");
    BelowRoot(o0.data, o1.data, Run([o0], AsWritten), Run([o0] + [o1], AsWritten));
  }

  /** "b" is a root and "a" goes below it; then "a" becomes a root called ".". It is still nested, and the
      lookup of "b." comes to a slice that is out of bounds. */
  lemma OutOfBoundsHappens()
    ensures var ops := [Added(0, "b", ""), Added(1, "a", "b"), AddOp(2, Called("a", "."))];
      FreshIds(ops) && OutOfBounds(Run(ops, AsWritten), 0, 1, "b.")
  {
    var o0, o1, o2 := Added(0, "b", ""), Added(1, "a", "b"), AddOp(2, Called("a", "."));
    var two := [o0] + [o1];
    assert [o0, o1, o2] == two + [o2];
    RunNext(two, o2);
    BelowFirst();
    CalledIs("a", ".");
    KnownIgnoresId(Run(two, AsWritten), 2, 1, o2.data);
    RootBelow(Run(two, AsWritten), o0.data.key, o2.data, 0, 1, "b.", Run(two + [o2], AsWritten));
  }

  lemma BelowRoot(b: ZoneData, a: ZoneData, st: State<nat>, st1: State<nat>)
    requires Nests(a, b) && Valid(st) && st.zones == map[b.key := 0] && st.key.Keys == {0}
    requires st.parentName[0] == "" && st1 == Add(st, 1, a, AsWritten) && Valid(st1)
    ensures SitsBelow(st1, b.key, a.key, 0, 1) && st1.names[0] == st.names[0]
  {
    AddedZone(st, 1, a, AsWritten);
    AddedBelow(st, 1, a, st1);
  }
}
