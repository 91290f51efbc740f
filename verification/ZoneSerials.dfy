/** The upward walk that ends `AddZone`: exactly when it terminates, and what it leaves behind. */
module ZoneSerials {
  import opened Wrappers
  import opened DomainNames
  import opened ZoneGraph

  /** The zones whose parent pointer the call is going to turn: the zone itself, or, if it is new,
      the zones waiting for it. */
  ghost predicate Moved<R>(st: State<R>, key: ZoneKey, z: R)
    requires Closed(st)
  {
    if key in st.zones then z == st.zones[key] else Adopted(st, key, z)
  }

  /** Before the call: climbing from the parent named in the object ends, and meets neither the
      zone itself nor, for a new zone, one of the zones about to be adopted. */
  ghost predicate SafeToAdd<R>(st: State<R>, d: ZoneData)
    requires Closed(st)
  {
    d.parentRef == "" ||
    (d.ParentKey() != d.key &&
     (d.ParentKey() in st.zones ==>
        var o := Some(st.zones[d.ParentKey()]);
        Ends(st.parent, o) &&
        forall z {:trigger Above(st.parent, o, z)} | z in st.key && Moved(st, d.key, z) :: !Above(st.parent, o, z)))
  }

  /** Where the pointers `h` lead once the zone `t` is linked below `parent`. */
  ghost predicate Linked<R>(st: State<R>, key: ZoneKey, h: map<R, Option<R>>, t: R, parent: Option<R>)
    requires Closed(st)
  {
    && (if key in st.zones then t == st.zones[key] else t !in st.key)
    && h.Keys == st.key.Keys + {t}
    && h[t] == parent
    && forall z {:trigger h[z]} | z in st.key && z != t ::
         h[z] == if key !in st.zones && Moved(st, key, z) then Some(t) else st.parent[z]
  }

  lemma LinkLinks<R>(st: State<R>, id: R, d: ZoneData, filing: Filing)
    requires Closed(st) && (d.key in st.zones || id !in st.key)
    ensures var st1 := Link(st, id, d, filing);
      var t := if d.key in st.zones then st.zones[d.key] else id;
      st1.zones == st.zones[d.key := t]
      && st1.key == st.key[t := d.key]
      && Linked(st, d.key, st1.parent, t, ParentOf(st1, d))
  {
    EnterClosed(st, id, d.key);
    var st0 := Enter(st, id, d.key);
    if d.key !in st.zones {
      EnterEnters(st, id, d.key);
      EnteredLinks(st, st0, id, d.key, ParentOf(st0, d));
    } else {
      assert st.key[st.zones[d.key] := d.key] == st.key;
    }
  }

  lemma EnteredLinks<R>(st: State<R>, st0: State<R>, id: R, key: ZoneKey, parent: Option<R>)
    requires Closed(st) && Entered(st, st0, id, key)
    ensures Linked(st, key, st0.parent[id := parent], id, parent)
  {
    AdoptedLinks(st, st0.parent, id, key, parent);
  }

  lemma AdoptedLinks<R>(st: State<R>, ups: map<R, Option<R>>, id: R, key: ZoneKey, parent: Option<R>)
    requires Closed(st) && key !in st.zones && id !in st.key && AreAdoptedParents(st, id, key, ups)
    ensures Linked(st, key, ups[id := parent], id, parent)
  {
    ExtendsKeys(ups, id, parent);
    var h := ups[id := parent];
    forall z | z in st.key ensures h[z] == if Moved(st, key, z) then Some(id) else st.parent[z] {
      assert h[z] == ups[z];
    }
  }

  /** Two graphs that agree on the parents met lead the same way up. */
  lemma {:induction false} ClimbAgrees<R>(g: map<R, Option<R>>, h: map<R, Option<R>>, o: Option<R>, n: nat)
    requires forall i: nat {:trigger Climb(g, o, i)} | i < n :: var c := Climb(g, o, i);
      c.Some? ==> c.value in g && c.value in h && h[c.value] == g[c.value]
    ensures Climb(h, o, n) == Climb(g, o, n)
    decreases n
  {
    if n > 0 && o.Some? {
      assert Climb(g, o, 0) == o;
      var p := g[o.value];
      forall i: nat | i < n - 1
        ensures var c := Climb(g, p, i); c.Some? ==> c.value in g && c.value in h && h[c.value] == g[c.value]
      {
        assert Climb(g, o, i + 1) == Climb(g, p, i);
      }
      ClimbAgrees(g, h, p, n - 1);
    }
  }

  /** Climbing never leaves the objects. */
  lemma {:induction false} ClimbInside<R>(st: State<R>, o: Option<R>, n: nat)
    requires Closed(st) && (o.Some? ==> o.value in st.key)
    ensures Climb(st.parent, o, n).Some? ==> Climb(st.parent, o, n).value in st.key
    decreases n
  {
    if n > 0 && o.Some? {
      assert st.parent[o.value].Some? ==> st.parent[o.value].value in st.key;
      ClimbInside(st, st.parent[o.value], n - 1);
    }
  }

  /** No zone met in the first `n` steps from `o` moves. */
  ghost predicate Unmoved<R>(st: State<R>, key: ZoneKey, o: Option<R>, n: nat)
    requires Closed(st)
  {
    forall i: nat {:trigger Climb(st.parent, o, i)} | i < n :: var c := Climb(st.parent, o, i);
      c.Some? ==> !Moved(st, key, c.value)
  }

  /** Up to the first zone that moves, the climb is the same before and after linking. */
  lemma ClimbUntilMoved<R>(st: State<R>, key: ZoneKey, h: map<R, Option<R>>, t: R, parent: Option<R>, o: Option<R>,
                           n: nat)
    requires Closed(st) && (o.Some? ==> o.value in st.key)
    requires Linked(st, key, h, t, parent) && Unmoved(st, key, o, n)
    ensures Climb(h, o, n) == Climb(st.parent, o, n)
  {
    forall i: nat | i < n
      ensures var c := Climb(st.parent, o, i);
        c.Some? ==> c.value in st.parent && c.value in h && h[c.value] == st.parent[c.value]
    {
      ClimbInside(st, o, i);
    }
    ClimbAgrees(st.parent, h, o, n);
  }

  /** The first zone on the way up that moves. */
  lemma FirstMoved<R>(st: State<R>, key: ZoneKey, o: Option<R>, m: nat) returns (n: nat)
    requires Closed(st)
    requires Climb(st.parent, o, m).Some? && Moved(st, key, Climb(st.parent, o, m).value)
    ensures Climb(st.parent, o, n).Some? && Moved(st, key, Climb(st.parent, o, n).value)
    ensures Unmoved(st, key, o, n)
  {
    n := m;
    while exists i: nat :: i < n && Climb(st.parent, o, i).Some? && Moved(st, key, Climb(st.parent, o, i).value)
      invariant Climb(st.parent, o, n).Some? && Moved(st, key, Climb(st.parent, o, n).value)
      decreases n
    {
      var i: nat :| i < n && Climb(st.parent, o, i).Some? && Moved(st, key, Climb(st.parent, o, i).value);
      n := i;
    }
  }

  /** From a zone that moves, one or two steps lead to the new parent. */
  lemma StepsToParent<R>(st: State<R>, key: ZoneKey, h: map<R, Option<R>>, t: R, parent: Option<R>, z: R)
    returns (n: nat)
    requires Closed(st) && Linked(st, key, h, t, parent) && z in st.key && Moved(st, key, z)
    ensures 0 < n && Climb(h, Some(z), n) == parent
  {
    assert Climb(h, Some(t), 1) == Climb(h, parent, 0) == parent;
    if key in st.zones {
      n := 1;
    } else {
      n := 2;
      assert h[z] == Some(t);
      assert Climb(h, Some(z), 2) == Climb(h, Some(t), 1);
    }
  }

  lemma NeverEnds<R>(h: map<R, Option<R>>, o: Option<R>, m: nat)
    requires o.Some? && m > 0 && Climb(h, o, m) == o
    ensures !Ends(h, o)
  {
    forall n: nat ensures Climb(h, o, n) != None {
      ReturnNeverEnds(h, o, m, n);
    }
  }

  /** A zone that moves above its own new parent closes a cycle. */
  lemma MovedAboveNeverEnds<R>(st: State<R>, key: ZoneKey, h: map<R, Option<R>>, t: R, parent: Option<R>, m: nat)
    requires Closed(st) && Linked(st, key, h, t, parent) && parent.Some? && parent.value in st.key
    requires Climb(st.parent, parent, m).Some? && Moved(st, key, Climb(st.parent, parent, m).value)
    ensures !Ends(h, parent)
  {
    var n := FirstMoved(st, key, parent, m);
    ClimbUntilMoved(st, key, h, t, parent, parent, n);
    ClimbInside(st, parent, n);
    var k := StepsToParent(st, key, h, t, parent, Climb(st.parent, parent, n).value);
    ClimbAdd(h, parent, n, k);
    NeverEnds(h, parent, n + k);
  }

  /** A climb that meets no zone that moves ends after linking if it did before. */
  lemma UnmovedEnds<R>(st: State<R>, key: ZoneKey, h: map<R, Option<R>>, t: R, parent: Option<R>, o: Option<R>)
    requires Closed(st) && Linked(st, key, h, t, parent) && (o.Some? ==> o.value in st.key)
    requires forall n: nat {:trigger Climb(st.parent, o, n)} ::
      Climb(st.parent, o, n).Some? ==> !Moved(st, key, Climb(st.parent, o, n).value)
    ensures Ends(h, o) <==> Ends(st.parent, o)
    ensures forall z {:trigger Above(h, o, z)} | z in h :: Above(h, o, z) <==> Above(st.parent, o, z)
  {
    forall n: nat ensures Climb(h, o, n) == Climb(st.parent, o, n) {
      ClimbUntilMoved(st, key, h, t, parent, o, n);
    }
  }

  /** The walk over the new parent chain ends exactly when the call was safe. */
  lemma WalkEndsIff<R>(st: State<R>, id: R, d: ZoneData, filing: Filing)
    requires Closed(st) && (d.key in st.zones || id !in st.key)
    ensures var st1 := Link(st, id, d, filing);
      Ends(st1.parent, ParentOf(st1, d)) <==> SafeToAdd(st, d)
  {
    LinkLinks(st, id, d, filing);
    var st1 := Link(st, id, d, filing);
    LinkedEndsIff(st, d, st1.parent, st1.zones[d.key], ParentOf(st1, d));
  }

  lemma LinkedEndsIff<R>(st: State<R>, d: ZoneData, h: map<R, Option<R>>, t: R, parent: Option<R>)
    requires Closed(st) && Linked(st, d.key, h, t, parent)
    requires parent ==
      if d.parentRef == "" then None
      else if d.ParentKey() == d.key then Some(t)
      else if d.ParentKey() in st.zones then Some(st.zones[d.ParentKey()]) else None
    ensures Ends(h, parent) <==> SafeToAdd(st, d)
  {
    if parent == None {
      assert Climb(h, parent, 0) == None;
    } else if d.ParentKey() == d.key {
      assert Climb(h, parent, 1) == Climb(h, parent, 0) == parent;
      NeverEnds(h, parent, 1);
    } else if m: nat :| Climb(st.parent, parent, m).Some? && Moved(st, d.key, Climb(st.parent, parent, m).value) {
      MovedAboveNeverEnds(st, d.key, h, t, parent, m);
      ClimbInside(st, parent, m);
      assert Above(st.parent, parent, Climb(st.parent, parent, m).value);
    } else {
      UnmovedEnds(st, d.key, h, t, parent, parent);
    }
  }

  lemma EndsLater<R>(h: map<R, Option<R>>, o: Option<R>, m: nat)
    requires Ends(h, Climb(h, o, m))
    ensures Ends(h, o)
  {
    var n: nat :| Climb(h, Climb(h, o, m), n) == None;
    ClimbAdd(h, o, m, n);
  }

  lemma EndsFrom<R>(st: State<R>, key: ZoneKey, h: map<R, Option<R>>, t: R, parent: Option<R>, z: R)
    requires Closed(st) && Acyclic(st.parent) && Linked(st, key, h, t, parent)
    requires z in h && Ends(h, parent)
    ensures Ends(h, Some(z))
  {
    if z == t {
      assert Climb(h, Some(z), 1) == Climb(h, parent, 0) == parent;
      EndsLater(h, Some(z), 1);
    } else if m: nat :| Climb(st.parent, Some(z), m).Some? && Moved(st, key, Climb(st.parent, Some(z), m).value) {
      var n := FirstMoved(st, key, Some(z), m);
      ClimbUntilMoved(st, key, h, t, parent, Some(z), n);
      ClimbInside(st, Some(z), n);
      var k := StepsToParent(st, key, h, t, parent, Climb(st.parent, Some(z), n).value);
      ClimbAdd(h, Some(z), n, k);
      EndsLater(h, Some(z), n + k);
    } else {
      UnmovedEnds(st, key, h, t, parent, Some(z));
    }
  }

  /** Safe calls never close a cycle anywhere, not even through zones already removed. */
  lemma AcyclicKept<R>(st: State<R>, id: R, d: ZoneData, filing: Filing)
    requires Closed(st) && Acyclic(st.parent) && SafeToAdd(st, d)
    requires d.key in st.zones || id !in st.key
    ensures Acyclic(Add(st, id, d, filing).parent)
  {
    LinkLinks(st, id, d, filing);
    WalkEndsIff(st, id, d, filing);
    var st1 := Link(st, id, d, filing);
    forall z | z in st1.parent ensures Ends(st1.parent, Some(z)) {
      EndsFrom(st, d.key, st1.parent, st1.zones[d.key], ParentOf(st1, d), z);
    }
  }

  /** What is above an unmoved parent chain stays above it. */
  lemma SameAbove<R>(st: State<R>, key: ZoneKey, h: map<R, Option<R>>, t: R, parent: Option<R>, z: R)
    requires Closed(st) && Linked(st, key, h, t, parent) && parent.Some? && parent.value in st.key && z in h
    requires forall y {:trigger Above(st.parent, parent, y)} | y in st.key && Moved(st, key, y) ::
      !Above(st.parent, parent, y)
    ensures Above(h, parent, z) <==> Above(st.parent, parent, z)
  {
    forall n: nat ensures Climb(st.parent, parent, n).Some? ==> !Moved(st, key, Climb(st.parent, parent, n).value) {
      ClimbInside(st, parent, n);
      var c := Climb(st.parent, parent, n);
      assert c.Some? ==> Above(st.parent, parent, c.value);
    }
    UnmovedEnds(st, key, h, t, parent, parent);
  }

  /** After a safe call the zone and every zone that was above its new parent, the parent
      included, carry the serial number of the object just added; no other serial changed. */
  lemma SerialsAfterAdd<R>(st: State<R>, id: R, d: ZoneData, filing: Filing, z: R)
    requires Closed(st) && SafeToAdd(st, d) && (d.key in st.zones || id !in st.key)
    requires z in Add(st, id, d, filing).serial
    ensures var st1 := Add(st, id, d, filing);
      var o := ParentOf(st, d);
      z != st1.zones[d.key] ==> z in st.serial
    ensures var st1 := Add(st, id, d, filing);
      var o := ParentOf(st, d);
      st1.serial[z] ==
        if z == st1.zones[d.key] || (o.Some? && Above(st.parent, o, z)) then d.serial else st.serial[z]
  {
    LinkLinks(st, id, d, filing);
    LinkedSerials(st, id, d, filing);
    var st1 := Link(st, id, d, filing);
    var parent := ParentOf(st1, d);
    if parent.Some? {
      assert parent == ParentOf(st, d);
      SameAbove(st, d.key, st1.parent, st1.zones[d.key], parent, z);
    } else {
      NothingAbove(st1.parent, z);
    }
  }

  lemma NothingAbove<R>(h: map<R, Option<R>>, z: R)
    ensures !Above(h, None, z)
  {
    forall n: nat ensures Climb(h, None, n) == None {
    }
  }

  /** Linking sets the zone's own serial number only. */
  lemma LinkedSerials<R>(st: State<R>, id: R, d: ZoneData, filing: Filing)
    requires Closed(st) && (d.key in st.zones || id !in st.key)
    ensures var st1 := Link(st, id, d, filing);
      st1.serial == st.serial[(if d.key in st.zones then st.zones[d.key] else id) := d.serial]
      && st1.serial.Keys == st1.parent.Keys
  {
    EnterClosed(st, id, d.key);
    UpdateTwice(st.serial, id, 0, d.serial);
    RelinkClosed(Enter(st, id, d.key), d, filing);
  }

  /** What the model knows of the zone just added. */
  lemma AddedZone<R>(st: State<R>, id: R, d: ZoneData, filing: Filing)
    requires Closed(st) && (d.key in st.zones || id !in st.key)
    ensures var st1 := Add(st, id, d, filing);
      var t := if d.key in st.zones then st.zones[d.key] else id;
      st1.zones == st.zones[d.key := t]
      && st1.key == st.key[t := d.key]
      && st1.names == st.names[t := d.names]
      && st1.parentName == st.parentName[t := d.parentRef]
      && t in st1.parent && st1.parent[t] == ParentOf(st1, d)
  {
    LinkLinks(st, id, d, filing);
    EnterClosed(st, id, d.key);
    UpdateTwice(st.names, id, [], d.names);
    UpdateTwice(st.parentName, id, "", d.parentRef);
  }

  /** What that is for an object of the cluster: its version as serial number, its names qualified
      at the top and relative below. */
  lemma AddedObject<R>(st: State<R>, id: R, cluster: string, zone: HostedZone, filing: Filing, k: nat, n: nat)
    requires Closed(st) && SafeToAdd(st, DataOf(cluster, zone))
    requires ZoneKey(cluster, zone.namespace, zone.name) in st.zones || id !in st.key
    ensures var st1 := Add(st, id, DataOf(cluster, zone), filing);
      var key := ZoneKey(cluster, zone.namespace, zone.name);
      && key in st1.zones
      && var z := st1.zones[key];
         && st1.parentName[z] == zone.parentRef
         && |st1.names[z]| == |zone.domainNames|
         && (forall i | 0 <= i < |zone.domainNames| :: st1.names[z][i] ==
               if zone.parentRef == "" then Fqdn(zone.domainNames[i]) else Rdn(zone.domainNames[i]))
         && (zone.resourceVersion == Zeros(k) + Decimal(n) ==>
               st1.serial[z] == if n < 0x1_0000_0000_0000_0000 then n % 0x1_0000_0000 else 653432456)
  {
    var d := DataOf(cluster, zone);
    AddedZone(st, id, d, filing);
    LinkLinks(st, id, d, filing);
    SerialsAfterAdd(st, id, d, filing, Add(st, id, d, filing).zones[d.key]);
    SerialOfVersion(k, n);
  }

  lemma UpdateTwice<K, V>(m: map<K, V>, k: K, a: V, b: V)
    ensures m[k := a][k := b] == m[k := b]
  {
  }

  /** Two zones naming each other: by the time the second is added the reference of the first may
      be outdated in the cluster, but the model still holds it, and the walk goes round for ever. */
  lemma OutdatedReferenceCycle<R>(st: State<R>, i: R, j: R, a: ZoneData, b: ZoneData, st1: State<R>)
    requires Valid(st) && i !in st.key && j !in st.key && i != j
    requires a.key !in st.zones && b.key !in st.zones && a.key != b.key
    requires a.parentRef != "" && a.ParentKey() == b.key && b.parentRef != "" && b.ParentKey() == a.key
    requires st1 == Add(st, i, a, AsWritten)
    ensures SafeToAdd(st, a)
    ensures Valid(st1) && b.key !in st1.zones && j !in st1.key && !SafeToAdd(st1, b)
    ensures var st2 := Link(st1, j, b, AsWritten);
      !Ends(st2.parent, ParentOf(st2, b))
  {
    AddKeeps(st, i, a, AsWritten);
    AddedZone(st, i, a, AsWritten);
    assert Climb(st1.parent, Some(i), 0) == Some(i);
    assert Above(st1.parent, Some(i), i);
    assert st1.ParentKey(i) == b.key;
    assert Adopted(st1, b.key, i);
    assert Moved(st1, b.key, i);
    WalkEndsIff(st1, j, b, AsWritten);
  }
}
