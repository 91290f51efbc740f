/** The index the resolvers query (servercomp/indexer.go and component.go): every entry is listed
    under the keys "namespace/zone/name" and "namespace/zone/address". */
module ZoneIndex {
  import opened Wrappers
  import opened DomainNames
  import opened ZoneGraph
  import opened ZoneLookup
  import opened ZoneInversion

  /** A CoreDNSEntry as the indexers see it. `refused` is the status of the server condition, if
      there is one: whether it is False. */
  datatype Stored = Stored(namespace: string, zoneRef: string, refused: Option<bool>, entry: Entry)

  /** Entries without a zone are omitted; a slave also omits those not validated or refused. In the
      other mode the state of the entry is only logged. */
  predicate Indexed(slave: bool, s: Stored) {
    s.zoneRef != "" && (slave ==> s.refused == Some(false))
  }

  function NameKeys(slave: bool, s: Stored): seq<string> {
    if !Indexed(slave, s) then []
    else
      var names := s.entry.dnsNames;
      seq(|names|, i requires 0 <= i < |names| => Key(s.namespace, s.zoneRef, Rdn(names[i])))
  }

  function IPKeys(slave: bool, s: Stored): seq<string> {
    if !Indexed(slave, s) then []
    else
      var ips := s.entry.a + s.entry.aaaa;
      seq(|ips|, i requires 0 <= i < |ips| => Key(s.namespace, s.zoneRef, ips[i]))
  }

  function Key(namespace: string, zone: string, item: string): string {
    namespace + "/" + zone + "/" + item
  }

  /** The entries of a namespace listed under a key, in the order of the store. */
  function Listed(keys: Stored -> seq<string>, store: seq<Stored>, namespace: string, key: string): seq<Entry> {
    if store == [] then []
    else
      var k := |store| - 1;
      var found := Listed(keys, store[..k], namespace, key);
      if store[k].namespace == namespace && key in keys(store[k]) then found + [store[k].entry] else found
  }

  /** The index over the entries of every cluster. */
  function IndexOf(stores: map<string, seq<Stored>>, slave: bool): Index {
    Index(
      (zk: ZoneKey, rel: string) =>
        Ok(if zk.cluster in stores
           then Listed(s => NameKeys(slave, s), stores[zk.cluster], zk.namespace, Key(zk.namespace, zk.name, rel))
           else []),
      (zk: ZoneKey, ip: string) =>
        Ok(if zk.cluster in stores
           then Listed(s => IPKeys(slave, s), stores[zk.cluster], zk.namespace, Key(zk.namespace, zk.name, ip))
           else []))
  }

  // ----- when keys collide --------------------------------------------------------------------

  /** One name goes on with a slash where the other ends. */
  predicate Confusable(zone: string, zone1: string) {
    zone + "/" <= zone1 || zone1 + "/" <= zone
  }

  /** Within a namespace two zones share a key for some items exactly when they are confusable. */
  lemma CollideIff(namespace: string, zone: string, zone1: string)
    requires zone != zone1
    ensures (exists item, item1 :: Key(namespace, zone, item) == Key(namespace, zone1, item1)) <==>
      Confusable(zone, zone1)
  {
    if zone + "/" <= zone1 {
      SharedKey(namespace, zone, zone1);
    } else if zone1 + "/" <= zone {
      SharedKey(namespace, zone1, zone);
    } else {
      forall item, item1 ensures Key(namespace, zone, item) != Key(namespace, zone1, item1) {
        KeyTells(namespace, zone, item, zone1, item1);
      }
    }
  }

  lemma SharedKey(namespace: string, zone: string, zone1: string)
    requires zone + "/" <= zone1
    ensures var rest := zone1[|zone| + 1..]; Key(namespace, zone, rest + "/") == Key(namespace, zone1, "")
  {
    var rest := zone1[|zone| + 1..];
    assert zone1 == zone + "/" + rest;
  }

  /** So a key tells zone and item apart for all others, in particular where no name has a slash. */
  lemma KeyTells(namespace: string, zone: string, item: string, zone1: string, item1: string)
    requires !Confusable(zone, zone1)
    ensures Key(namespace, zone, item) == Key(namespace, zone1, item1) <==> zone == zone1 && item == item1
  {
    var a, b := Key(namespace, zone, item), Key(namespace, zone1, item1);
    if a == b {
      var n := |namespace| + 1;
      assert a[n..] == zone + "/" + item && b[n..] == zone1 + "/" + item1;
      SlashTells(zone, item, zone1, item1);
    }
  }

  lemma PlainNames(zone: string, zone1: string)
    requires '/' !in zone && '/' !in zone1
    ensures !Confusable(zone, zone1)
  {
    SlashWithin(zone, zone1);
    SlashWithin(zone1, zone);
  }

  lemma SlashWithin(zone: string, zone1: string)
    ensures zone + "/" <= zone1 ==> '/' in zone1
  {
    if zone + "/" <= zone1 {
      assert (zone + "/")[|zone|] == zone1[|zone|];
    }
  }

  /** No entry of the namespace refers to another zone by a name that can be taken for this one. */
  predicate Plain(stores: map<string, seq<Stored>>, zk: ZoneKey) {
    zk.cluster in stores ==>
      var store := stores[zk.cluster];
      forall i | 0 <= i < |store| && store[i].namespace == zk.namespace :: !Confusable(zk.name, store[i].zoneRef)
  }

  lemma GoesOnWithSlash(z: string, x: string, z1: string, x1: string)
    requires z + "/" + x == z1 + "/" + x1
    ensures |z| < |z1| ==> z + "/" <= z1
  {
    var a, b := z + "/" + x, z1 + "/" + x1;
    if |z| < |z1| {
      assert a[..|z| + 1] == z + "/" && b[..|z| + 1] == z1[..|z| + 1];
    }
  }

  lemma SlashTells(z: string, x: string, z1: string, x1: string)
    requires !Confusable(z, z1) && z + "/" + x == z1 + "/" + x1
    ensures z == z1 && x == x1
  {
    var a, b := z + "/" + x, z1 + "/" + x1;
    assert a[..|z|] == z && b[..|z1|] == z1;
    GoesOnWithSlash(z, x, z1, x1);
    GoesOnWithSlash(z1, x1, z, x);
    assert a[|z| + 1..] == x && b[|z1| + 1..] == x1;
  }

  /** The entry at `i` of the store is listed under the key. */
  predicate LiesAt(keys: Stored -> seq<string>, store: seq<Stored>, namespace: string, key: string, e: Entry, i: nat) {
    i < |store| && store[i].entry == e && store[i].namespace == namespace && key in keys(store[i])
  }

  lemma {:induction false} ListedHas(keys: Stored -> seq<string>, store: seq<Stored>, namespace: string, key: string,
                                     e: Entry, i: nat)
    requires LiesAt(keys, store, namespace, key, e, i)
    ensures e in Listed(keys, store, namespace, key)
    decreases |store|
  {
    var k := |store| - 1;
    if i < k {
      assert LiesAt(keys, store[..k], namespace, key, e, i);
      ListedHas(keys, store[..k], namespace, key, e, i);
    }
  }

  lemma {:induction false} ListedFrom(keys: Stored -> seq<string>, store: seq<Stored>, namespace: string, key: string,
                                      e: Entry)
    returns (i: nat)
    requires e in Listed(keys, store, namespace, key)
    ensures LiesAt(keys, store, namespace, key, e, i)
    decreases |store|
  {
    var k := |store| - 1;
    if LiesAt(keys, store, namespace, key, e, k) {
      i := k;
    } else {
      i := ListedFrom(keys, store[..k], namespace, key, e);
      assert store[..k][i] == store[i];
    }
  }

  lemma NameKeyIff(slave: bool, s: Stored, zk: ZoneKey, rel: string)
    requires !Confusable(zk.name, s.zoneRef) && s.namespace == zk.namespace
    ensures Key(zk.namespace, zk.name, rel) in NameKeys(slave, s) <==>
      Indexed(slave, s) && s.zoneRef == zk.name
      && exists i :: 0 <= i < |s.entry.dnsNames| && Rdn(s.entry.dnsNames[i]) == rel
  {
    var key := Key(zk.namespace, zk.name, rel);
    if Indexed(slave, s) {
      forall i | 0 <= i < |s.entry.dnsNames|
        ensures NameKeys(slave, s)[i] == key <==> s.zoneRef == zk.name && Rdn(s.entry.dnsNames[i]) == rel
      {
        KeyTells(zk.namespace, zk.name, rel, s.zoneRef, Rdn(s.entry.dnsNames[i]));
      }
    }
  }

  lemma IPKeyIff(slave: bool, s: Stored, zk: ZoneKey, ip: string)
    requires !Confusable(zk.name, s.zoneRef) && s.namespace == zk.namespace
    ensures Key(zk.namespace, zk.name, ip) in IPKeys(slave, s) <==>
      Indexed(slave, s) && s.zoneRef == zk.name && ip in s.entry.a + s.entry.aaaa
  {
    var key := Key(zk.namespace, zk.name, ip);
    var ips := s.entry.a + s.entry.aaaa;
    if Indexed(slave, s) {
      forall i | 0 <= i < |ips| ensures IPKeys(slave, s)[i] == key <==> s.zoneRef == zk.name && ips[i] == ip {
        KeyTells(zk.namespace, zk.name, ip, s.zoneRef, ips[i]);
      }
    }
  }

  // ----- what the index holds ---------------------------------------------------------------------

  /** `at` are the positions of the store at which `es` are found, in order. */
  ghost predicate Picked(store: seq<Stored>, at: seq<nat>, es: seq<Entry>) {
    && |at| == |es|
    && (forall j, l | 0 <= j < l < |at| :: at[j] < at[l])
    && forall j {:trigger at[j]} {:trigger es[j]} | 0 <= j < |at| :: at[j] < |store| && es[j] == store[at[j]].entry
  }

  /** The stored entry belongs to the namespace and has the key. */
  ghost predicate Keyed(keys: Stored -> seq<string>, s: Stored, namespace: string, key: string) {
    s.namespace == namespace && key in keys(s)
  }

  lemma ListedNext(keys: Stored -> seq<string>, store: seq<Stored>, namespace: string, key: string)
    requires store != []
    ensures var k := |store| - 1;
      Listed(keys, store, namespace, key) ==
        Listed(keys, store[..k], namespace, key)
        + if Keyed(keys, store[k], namespace, key) then [store[k].entry] else []
  {
  }

  lemma PickedNext(store: seq<Stored>, at: seq<nat>, es: seq<Entry>)
    requires store != [] && Picked(store[..|store| - 1], at, es)
    ensures var k := |store| - 1;
      Picked(store, at, es + []) && Picked(store, at + [k], es + [store[k].entry]) && k !in at
  {
    var k := |store| - 1;
    assert es + [] == es;
    forall j | 0 <= j < |at| ensures at[j] < |store| && es[j] == store[at[j]].entry {
      assert store[..k][at[j]] == store[at[j]];
    }
  }

  lemma {:induction false} ListedInOrder(keys: Stored -> seq<string>, store: seq<Stored>, namespace: string,
                                         key: string) returns (at: seq<nat>)
    ensures Picked(store, at, Listed(keys, store, namespace, key))
    ensures forall i: nat {:trigger store[i]} | i < |store| :: i in at <==> Keyed(keys, store[i], namespace, key)
    decreases |store|
  {
    if store == [] {
      at := [];
    } else {
      var k := |store| - 1;
      var before := ListedInOrder(keys, store[..k], namespace, key);
      PickedNext(store, before, Listed(keys, store[..k], namespace, key));
      ListedNext(keys, store, namespace, key);
      at := if Keyed(keys, store[k], namespace, key) then before + [k] else before;
      forall i: nat | i < k ensures i in at <==> Keyed(keys, store[i], namespace, key) {
        assert store[..k][i] == store[i] && (i in at <==> i in before);
      }
    }
  }

  /** The entry stored at `i` refers to the zone; for a slave its server condition is also
      there and not False. */
  predicate Serves(stores: map<string, seq<Stored>>, slave: bool, zk: ZoneKey, i: nat) {
    zk.cluster in stores && i < |stores[zk.cluster]| &&
    var s := stores[zk.cluster][i];
    s.namespace == zk.namespace && s.zoneRef == zk.name != "" && (!slave || (s.refused.Some? && !s.refused.value))
  }

  /** Under a name the index holds, each once and in the order of the store, the entries of the zone that
      have a name of that relative form. */
  lemma NamesIndexed(stores: map<string, seq<Stored>>, slave: bool, zk: ZoneKey, rel: string) returns (at: seq<nat>)
    requires Plain(stores, zk) && zk.cluster in stores
    ensures IndexOf(stores, slave).byName(zk, rel).Ok?
    ensures Picked(stores[zk.cluster], at, IndexOf(stores, slave).byName(zk, rel).value)
    ensures forall i: nat | i < |stores[zk.cluster]| :: i in at <==>
      Serves(stores, slave, zk, i)
      && var names := stores[zk.cluster][i].entry.dnsNames; exists j :: 0 <= j < |names| && Rdn(names[j]) == rel
  {
    var store := stores[zk.cluster];
    at := ListedInOrder(s => NameKeys(slave, s), store, zk.namespace, Key(zk.namespace, zk.name, rel));
    forall i: nat | i < |store| && store[i].namespace == zk.namespace
      ensures Key(zk.namespace, zk.name, rel) in NameKeys(slave, store[i]) <==>
        Indexed(slave, store[i]) && store[i].zoneRef == zk.name
        && exists j :: 0 <= j < |store[i].entry.dnsNames| && Rdn(store[i].entry.dnsNames[j]) == rel
    {
      NameKeyIff(slave, store[i], zk, rel);
    }
  }

  lemma NothingIndexed(stores: map<string, seq<Stored>>, slave: bool, zk: ZoneKey, item: string)
    requires zk.cluster !in stores
    ensures IndexOf(stores, slave).byName(zk, item) == IndexOf(stores, slave).byIP(zk, item) == Ok([])
  {
  }

  /** The same for addresses. */
  lemma IPsIndexed(stores: map<string, seq<Stored>>, slave: bool, zk: ZoneKey, ip: string) returns (at: seq<nat>)
    requires Plain(stores, zk) && zk.cluster in stores
    ensures IndexOf(stores, slave).byIP(zk, ip).Ok?
    ensures Picked(stores[zk.cluster], at, IndexOf(stores, slave).byIP(zk, ip).value)
    ensures forall i: nat | i < |stores[zk.cluster]| :: i in at <==>
      Serves(stores, slave, zk, i)
      && (ip in stores[zk.cluster][i].entry.a || ip in stores[zk.cluster][i].entry.aaaa)
  {
    var store := stores[zk.cluster];
    at := ListedInOrder(s => IPKeys(slave, s), store, zk.namespace, Key(zk.namespace, zk.name, ip));
    forall i: nat | i < |store| && store[i].namespace == zk.namespace
      ensures Key(zk.namespace, zk.name, ip) in IPKeys(slave, store[i]) <==>
        Indexed(slave, store[i]) && store[i].zoneRef == zk.name && (ip in store[i].entry.a || ip in store[i].entry.aaaa)
    {
      IPKeyIff(slave, store[i], zk, ip);
    }
  }

  /** An entry found by an address is found by each of its names ... */
  lemma NameFollowsIP(stores: map<string, seq<Stored>>, slave: bool, zk: ZoneKey, ip: string, e: Entry, n: string)
    requires Plain(stores, zk) && n in e.dnsNames
    requires e in IndexOf(stores, slave).byIP(zk, ip).value
    ensures e in IndexOf(stores, slave).byName(zk, Rdn(n)).value
  {
    var store := stores[zk.cluster];
    var ips, names := (s: Stored) => IPKeys(slave, s), (s: Stored) => NameKeys(slave, s);
    var i := ListedFrom(ips, store, zk.namespace, Key(zk.namespace, zk.name, ip), e);
    IPKeyIff(slave, store[i], zk, ip);
    NameKeyIff(slave, store[i], zk, Rdn(n));
    assert LiesAt(names, store, zk.namespace, Key(zk.namespace, zk.name, Rdn(n)), e, i);
    ListedHas(names, store, zk.namespace, Key(zk.namespace, zk.name, Rdn(n)), e, i);
  }

  /** ... and one found by a name by each of its addresses; the name is one of its own. */
  lemma IPFollowsName(stores: map<string, seq<Stored>>, slave: bool, zk: ZoneKey, rel: string, e: Entry)
    requires Plain(stores, zk)
    requires e in IndexOf(stores, slave).byName(zk, rel).value
    ensures exists n :: n in e.dnsNames && Rdn(n) == rel
    ensures forall ip | ip in e.a + e.aaaa :: e in IndexOf(stores, slave).byIP(zk, ip).value
  {
    var store := stores[zk.cluster];
    var ips, names := (s: Stored) => IPKeys(slave, s), (s: Stored) => NameKeys(slave, s);
    var i := ListedFrom(names, store, zk.namespace, Key(zk.namespace, zk.name, rel), e);
    NameKeyIff(slave, store[i], zk, rel);
    forall ip | ip in e.a + e.aaaa ensures e in IndexOf(stores, slave).byIP(zk, ip).value {
      IPKeyIff(slave, store[i], zk, ip);
      assert LiesAt(ips, store, zk.namespace, Key(zk.namespace, zk.name, ip), e, i);
      ListedHas(ips, store, zk.namespace, Key(zk.namespace, zk.name, ip), e, i);
    }
  }

  /** With this index the two lookups undo each other: an entry found by an address is reachable by a
      name of its own exactly when no nested zone and no delegation takes the name over. */
  lemma ReachableByName<R>(st: State<R>, stores: map<string, seq<Stored>>, slave: bool, w: R, ip: string, e: Entry,
                           n: string)
    requires Closed(st) && w in st.key && Plain(stores, st.key[w]) && n in e.dnsNames
    requires e in IndexOf(stores, slave).byIP(st.key[w], ip).value
    ensures Reachable(st, IndexOf(stores, slave), w, e, n) <==>
      Rdn(n) != "" && Unshadowed(st, w, Rdn(n)) && Undelegated(IndexOf(stores, slave), st.key[w], Rdn(n), 0)
  {
    NameFollowsIP(stores, slave, st.key[w], ip, e, n);
  }

  /** And the other way round: an entry the forward lookup answers with is found again by each of its
      addresses, in the same zone and under a name with the labels of the query. */
  lemma AnsweredIsFound<R>(st: State<R>, stores: map<string, seq<Stored>>, slave: bool, z: R, q: string,
                           hops: seq<Hop<R>>, r: Result<Info<R>>, e: Entry, ip: string,
                           paths: seq<seq<string>>, infos: seq<Info<R>>) returns (i: nat, name: string)
    requires Closed(st) && z in st.key && NoNestedRoot(st) && EndsWithDot(q)
    requires Resolves(st, IndexOf(stores, slave), z, q, hops, r) && r.Ok? && r.value.zone.Some?
    requires e in r.value.entries && ip in e.a + e.aaaa && Plain(stores, st.key[hops[|hops| - 1].zone])
    requires Reverse(st, IndexOf(stores, slave), z, [""], ip, paths, infos)
    ensures i < |infos| && infos[i].zone == r.value.zone && e in infos[i].entries
    ensures name in infos[i].entryNames && Words(name) == Words(q)
  {
    var h, idx := hops[|hops| - 1], IndexOf(stores, slave);
    AnsweredHere(idx, h.zone, st.key[h.zone], h.rest, ZoneNameOf(hops), r, e);
    IPFollowsName(stores, slave, st.key[h.zone], h.rest, e);
    var n :| n in e.dnsNames && Rdn(n) == h.rest;
    i, name := ForwardThenReverse(st, idx, z, q, hops, e, n, ip, paths, infos);
  }

  lemma AnsweredHere<R>(idx: Index, z: R, key: ZoneKey, s: string, cur: string, r: Result<Info<R>>, e: Entry)
    requires Answers(idx, z, key, s, cur, r) && r.Ok? && r.value.zone.Some? && e in r.value.entries
    ensures r.value.zone == Some(z) && idx.byName(key, s).Ok? && e in idx.byName(key, s).value
  {
  }

  // ----- from the stored entry to the answers and back -------------------------------------------------

  /** A stored entry of a zone is answered for each of its names below each name of the zone, exactly
      unless a nested zone or a delegation takes the name over, or it is that of the zone itself. */
  lemma StoredResolvesIff<R>(st: State<R>, stores: map<string, seq<Stored>>, slave: bool, z: R, path: seq<string>,
                             i: nat, j: nat, f: string, hops: seq<Hop<R>>, r: Result<Info<R>>)
    requires Closed(st) && z in st.key && Absolute(st.names[z])
    requires Follow(st, z, path).Some? && Clear(st, z, path) && f in Product(st, z, path, [""])
    requires var zk := st.key[Follow(st, z, path).value];
      Plain(stores, zk) && Serves(stores, slave, zk, i) && j < |stores[zk.cluster][i].entry.dnsNames|
    requires var e := stores[st.key[Follow(st, z, path).value].cluster][i].entry;
      Resolves(st, IndexOf(stores, slave), z, Fqdn(Fqdn(e.dnsNames[j]) + f), hops, r)
    ensures var w := Follow(st, z, path).value;
      var e := stores[st.key[w].cluster][i].entry;
      var rel := Rdn(e.dnsNames[j]);
      AnsweredAt(st, z, path, f, e, hops, r) <==>
        rel != "" && Unshadowed(st, w, rel) && Undelegated(IndexOf(stores, slave), st.key[w], rel, 0)
  {
    var w := Follow(st, z, path).value;
    var e := stores[st.key[w].cluster][i].entry;
    var at := NamesIndexed(stores, slave, st.key[w], Rdn(e.dnsNames[j]));
    assert i in at;
    NameResolvesIff(st, IndexOf(stores, slave), z, path, e, e.dnsNames[j], f, hops, r);
  }

  /** A stored entry of a zone below is reported for each of its addresses. */
  lemma StoredIsReported<R>(st: State<R>, stores: map<string, seq<Stored>>, slave: bool, z: R, path: seq<string>,
                            i: nat, ip: string, paths: seq<seq<string>>, infos: seq<Info<R>>) returns (n: nat)
    requires Closed(st) && z in st.key && Follow(st, z, path).Some?
    requires var zk := st.key[Follow(st, z, path).value];
      Plain(stores, zk) && Serves(stores, slave, zk, i)
      && (ip in stores[zk.cluster][i].entry.a || ip in stores[zk.cluster][i].entry.aaaa)
    requires Reverse(st, IndexOf(stores, slave), z, [""], ip, paths, infos)
    ensures n < |infos| && infos[n].zone == Follow(st, z, path)
    ensures stores[st.key[Follow(st, z, path).value].cluster][i].entry in infos[n].entries
  {
    var zk := st.key[Follow(st, z, path).value];
    var at := IPsIndexed(stores, slave, zk, ip);
    assert i in at;
    assert Hit(st, IndexOf(stores, slave), z, ip, path);
    n :| 0 <= n < |paths| && paths[n] == path;
    assert infos[n] == InfoAt(st, IndexOf(stores, slave), z, [""], ip, paths[n]);
  }
}
