/** The names written into the status of an entry (server/entry/request.go) against the names the
    web server reports for it: the parent chain of the objects is a path of the zone model. */
module StatusNames {
  import opened Wrappers
  import opened DomainNames
  import opened ZoneGraph
  import opened ZoneFiling
  import opened ZoneLookup
  import opened ZoneInversion
  import opened NameProducts
  import opened ParentChain

  function KeyOf(cluster: string, namespace: string, n: string): ZoneKey {
    ZoneKey(cluster, namespace, n)
  }

  /** The model knows the zone by the data of the object. */
  ghost predicate Known<R>(st: State<R>, cluster: string, namespace: string, o: ZoneObject)
    requires Closed(st)
  {
    var k := KeyOf(cluster, namespace, o.name);
    && k in st.zones
    && st.parentName[st.zones[k]] == o.parentRef
    && st.names[st.zones[k]] == ZoneNames(HostedZone(namespace, o.name, "", o.domainNames, o.parentRef))
  }

  ghost predicate AllInModel<R>(st: State<R>, cluster: string, namespace: string, store: Store, hist: seq<string>)
    requires Closed(st)
  {
    forall i {:trigger hist[i]} | 0 <= i < |hist| ::
      hist[i] in store.zones && store.zones[hist[i]].name == hist[i] &&
        Known(st, cluster, namespace, store.zones[hist[i]])
  }

  /** The names of the zones from below the root down to the first one. */
  function DownPath(hist: seq<string>): (r: seq<string>)
    requires hist != []
    ensures |r| == |hist| - 1
  {
    if |hist| == 1 then [] else DownPath(hist[1..]) + [hist[0]]
  }

  ghost function ZoneOf<R>(st: State<R>, cluster: string, namespace: string, n: string): R
    requires KeyOf(cluster, namespace, n) in st.zones
  {
    st.zones[KeyOf(cluster, namespace, n)]
  }

  lemma RelativeNames(o: ZoneObject, namespace: string)
    ensures ZoneNames(HostedZone(namespace, o.name, "", o.domainNames, o.parentRef)) ==
      if o.parentRef == "" then FqdnAll(o.domainNames) else RdnAll(o.domainNames)
  {
  }

  /** Every zone of the chain is listed with the next one, under whatever name. */
  ghost predicate Linked<R>(st: State<R>, cluster: string, namespace: string, hist: seq<string>) {
    forall i {:trigger LinkedAt(st, cluster, namespace, hist, i)} | 0 <= i < |hist| - 1 ::
      LinkedAt(st, cluster, namespace, hist, i)
  }

  ghost predicate LinkedAt<R>(st: State<R>, cluster: string, namespace: string, hist: seq<string>, i: nat)
    requires i + 1 < |hist|
  {
    var c, p := KeyOf(cluster, namespace, hist[i]), KeyOf(cluster, namespace, hist[i + 1]);
    c in st.zones && p in st.zones && ChildOf(st, st.zones[p], st.zones[c])
  }

  /** With exact child maps every zone whose object names the next one is. */
  lemma ExactLinks<R>(st: State<R>, cluster: string, namespace: string, store: Store, hist: seq<string>)
    requires Sound(st) && AllInModel(st, cluster, namespace, store, hist)
    requires hist != [] && Walked(store, true, hist[0], hist)
    ensures Linked(st, cluster, namespace, hist)
  {
    forall i | 0 <= i < |hist| - 1 ensures LinkedAt(st, cluster, namespace, hist, i) {
      assert Refers(store, hist, i);
      ChildOfNext(st, cluster, namespace, store, hist, i);
    }
  }

  lemma ChildOfNext<R>(st: State<R>, cluster: string, namespace: string, store: Store, hist: seq<string>, i: nat)
    requires Sound(st) && AllInModel(st, cluster, namespace, store, hist) && i + 1 < |hist| && Refers(store, hist, i)
    ensures LinkedAt(st, cluster, namespace, hist, i)
  {
    var c, p := KeyOf(cluster, namespace, hist[i]), KeyOf(cluster, namespace, hist[i + 1]);
    assert Known(st, cluster, namespace, store.zones[hist[i]]) &&
      Known(st, cluster, namespace, store.zones[hist[i + 1]]);
    var z := st.zones[c];
    assert st.ParentKey(z) == p && st.parent[z] == Some(st.zones[p]);
    assert Present(st, st.zones[p]);
    assert Lists(st, c);
  }

  /** The chain is a path of the model if its zones are linked; with exact child maps the path is made
      of their own names. */
  lemma {:induction false} ChainIsPath<R>(st: State<R>, cluster: string, namespace: string, store: Store,
                                          hist: seq<string>)
    returns (path: seq<string>)
    requires Valid(st) && AllInModel(st, cluster, namespace, store, hist) && AllKnown(store, hist)
    requires hist != [] && Walked(store, true, hist[0], hist) && store.zones[hist[|hist| - 1]].parentRef == ""
    requires Linked(st, cluster, namespace, hist)
    ensures KeyOf(cluster, namespace, hist[|hist| - 1]) in st.zones && KeyOf(cluster, namespace, hist[0]) in st.zones
    ensures var root := ZoneOf(st, cluster, namespace, hist[|hist| - 1]);
      Follow(st, root, path) == Some(ZoneOf(st, cluster, namespace, hist[0]))
      && NamedBy(st, root, path, NamesAlong(store, hist))
    ensures Sound(st) ==> path == DownPath(hist)
    decreases |hist|
  {
    assert Known(st, cluster, namespace, store.zones[hist[0]]);
    RelativeNames(store.zones[hist[0]], namespace);
    if |hist| == 1 {
      path := [];
    } else {
      var rest := hist[1..];
      assert Refers(store, hist, 0);
      WalkedRest(store, hist);
      LinkedRest(st, cluster, namespace, hist);
      var before := ChainIsPath(st, cluster, namespace, store, rest);
      var n := LinkName(st, cluster, namespace, store, hist);
      OneDown(st, cluster, namespace, store, hist, before, n);
      path := before + [n];
    }
  }

  lemma LinkedRest<R>(st: State<R>, cluster: string, namespace: string, hist: seq<string>)
    requires |hist| > 1 && Linked(st, cluster, namespace, hist)
    ensures Linked(st, cluster, namespace, hist[1..])
  {
    var rest := hist[1..];
    forall i | 0 <= i < |rest| - 1 ensures LinkedAt(st, cluster, namespace, rest, i) {
      assert LinkedAt(st, cluster, namespace, hist, i + 1);
    }
  }

  /** The name under which the first zone is listed. */
  lemma LinkName<R>(st: State<R>, cluster: string, namespace: string, store: Store, hist: seq<string>)
    returns (n: string)
    requires Valid(st) && AllInModel(st, cluster, namespace, store, hist) && |hist| > 1 &&
      Linked(st, cluster, namespace, hist)
    ensures var p, c := KeyOf(cluster, namespace, hist[1]), KeyOf(cluster, namespace, hist[0]);
      p in st.zones && c in st.zones && st.zones[p] in st.children
      && n in st.children[st.zones[p]] && st.children[st.zones[p]][n] == st.zones[c]
    ensures Sound(st) ==> n == hist[0]
  {
    var p, c := KeyOf(cluster, namespace, hist[1]), KeyOf(cluster, namespace, hist[0]);
    assert LinkedAt(st, cluster, namespace, hist, 0);
    n :| n in st.children[st.zones[p]] && st.children[st.zones[p]][n] == st.zones[c];
    assert st.key[st.zones[c]] == c;
    assert Sound(st) ==> Listed(st, st.zones[p], n, st.children[st.zones[p]][n]);
  }

  lemma WalkedRest(store: Store, hist: seq<string>)
    requires |hist| > 1 && Walked(store, true, hist[0], hist)
    ensures Walked(store, true, hist[1], hist[1..])
  {
    var rest := hist[1..];
    forall i | 0 <= i < |rest| - 1 ensures Refers(store, rest, i) {
      assert Refers(store, hist, i + 1);
    }
    forall i | 0 <= i < |rest| ensures Readable(store, true, rest[i]) {
      assert Readable(store, true, hist[i + 1]);
    }
  }

  lemma OneDown<R>(st: State<R>, cluster: string, namespace: string, store: Store, hist: seq<string>,
                   before: seq<string>, n: string)
    requires Closed(st) && |hist| > 1 && AllKnown(store, hist) && AllInModel(st, cluster, namespace, store, hist)
    requires Refers(store, hist, 0)
    requires var root, rest := ZoneOf(st, cluster, namespace, hist[|hist| - 1]), hist[1..];
      var p := ZoneOf(st, cluster, namespace, hist[1]);
      Follow(st, root, before) == Some(p) && NamedBy(st, root, before, NamesAlong(store, rest))
      && p in st.children && n in st.children[p] && st.children[p][n] == ZoneOf(st, cluster, namespace, hist[0])
    ensures var root := ZoneOf(st, cluster, namespace, hist[|hist| - 1]);
      Follow(st, root, before + [n]) == Some(ZoneOf(st, cluster, namespace, hist[0]))
      && NamedBy(st, root, before + [n], NamesAlong(store, hist))
  {
    var root, rest := ZoneOf(st, cluster, namespace, hist[|hist| - 1]), hist[1..];
    var o := store.zones[hist[0]];
    assert Known(st, cluster, namespace, o);
    RelativeNames(o, namespace);
    NamedFurther(st, root, before, n, o.domainNames, NamesAlong(store, rest));
    assert NamesAlong(store, hist) == [o.domainNames] + NamesAlong(store, rest);
  }

  lemma NamedFurther<R>(st: State<R>, root: R, before: seq<string>, n: string, names: seq<string>,
                        zones: seq<seq<string>>)
    requires Closed(st) && NamedBy(st, root, before, zones)
    requires var p := Follow(st, root, before).value;
      n in st.children[p] && st.names[st.children[p][n]] == RdnAll(names)
    ensures Follow(st, root, before + [n]) == Some(st.children[Follow(st, root, before).value][n])
    ensures NamedBy(st, root, before + [n], [names] + zones)
  {
    var all, both := before + [n], [names] + zones;
    FollowSnoc(st, root, before, n, [""]);
    assert all[..|before|] == before && both[1..] == zones;
  }

  /** The effective domain names of an entry, computed from its zone up to the root, are the names
      the reverse lookup reports for it below that root, exactly when there are none or no nested
      zone has a name with more than one trailing dot. */
  lemma EffectiveNamesIff<R>(st: State<R>, cluster: string, namespace: string, store: Store, start: string,
                             hist: seq<string>, e: Entry) returns (path: seq<string>)
    requires Valid(st) && AllInModel(st, cluster, namespace, store, hist) && AllKnown(store, hist)
    requires StopsAt(store, true, start, hist, AtRoot) && Linked(st, cluster, namespace, hist)
    ensures KeyOf(cluster, namespace, hist[|hist| - 1]) in st.zones && KeyOf(cluster, namespace, start) in st.zones
    ensures var root := ZoneOf(st, cluster, namespace, hist[|hist| - 1]);
      Follow(st, root, path) == Some(ZoneOf(st, cluster, namespace, start))
    ensures Sound(st) ==> path == DownPath(hist)
    ensures var root := ZoneOf(st, cluster, namespace, hist[|hist| - 1]);
      Up(e.dnsNames, NamesAlong(store, hist)) == EntryNames([e], Product(st, root, path, [""])) <==>
        |e.dnsNames| * Combinations(NamesAlong(store, hist)) == 0 || NestedOneDot(NamesAlong(store, hist))
  {
    path := ChainIsPath(st, cluster, namespace, store, hist);
    LookedUpIff(st, ZoneOf(st, cluster, namespace, hist[|hist| - 1]), path, NamesAlong(store, hist), e);
  }
}
