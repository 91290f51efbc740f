/** What the child maps say: exactly when an operation of the code as written keeps them right,
    and that the intended filing always does. */
module ZoneFiling {
  import opened Wrappers
  import opened DomainNames
  import opened ZoneGraph

  ghost predicate Sound<R>(st: State<R>) {
    Valid(st) && ExactChildren(st)
  }

  lemma EnteredExact<R>(st: State<R>, st1: State<R>, id: R, key: ZoneKey)
    requires Sound(st) && Valid(st1) && Entered(st, st1, id, key)
    ensures ExactChildren(st1)
  {
    forall k, n | k in st1.zones && n in st1.children[st1.zones[k]]
      ensures Listed(st1, st1.zones[k], n, st1.children[st1.zones[k]][n])
    {
      if k == key {
        AdoptedListed(st, st1, id, key, n);
      } else {
        EnteredListed(st, st1, id, key, k, n);
      }
    }
    forall k | k in st1.zones ensures Lists(st1, k) {
      if k != key {
        EnteredLists(st, st1, id, key, k);
      }
    }
  }

  lemma AdoptedListed<R>(st: State<R>, st1: State<R>, id: R, key: ZoneKey, n: string)
    requires Valid(st) && Closed(st1) && Entered(st, st1, id, key) && n in st1.children[id]
    ensures Listed(st1, id, n, st1.children[id][n])
  {
    var c := st.zones[key.For(n)];
    assert st1.children[id][n] == c;
    assert Adopted(st, key, c) && st1.parent[c] == Some(id);
  }

  lemma EnteredListed<R>(st: State<R>, st1: State<R>, id: R, key: ZoneKey, k: ZoneKey, n: string)
    requires Sound(st) && Closed(st1) && Entered(st, st1, id, key)
    requires k in st.zones && n in st1.children[st1.zones[k]]
    ensures Listed(st1, st1.zones[k], n, st1.children[st1.zones[k]][n])
  {
    var c := st.children[st.zones[k]][n];
    EnteredChildren(st, st1, id, key, k);
    ListedStays(st, key, k, n);
    EnteredUnmoved(st, st1, id, key, c);
  }

  lemma EnteredChildren<R>(st: State<R>, st1: State<R>, id: R, key: ZoneKey, k: ZoneKey)
    requires Closed(st) && Entered(st, st1, id, key) && k in st.zones
    ensures st1.zones[k] == st.zones[k] && st.zones[k] in st1.children
    ensures st1.children[st.zones[k]] == st.children[st.zones[k]]
  {
    assert st.zones[k] in st.key && st.zones[k] != id && k != key;
  }

  lemma EnteredUnmoved<R>(st: State<R>, st1: State<R>, id: R, key: ZoneKey, c: R)
    requires Closed(st) && Closed(st1) && Entered(st, st1, id, key) && c in st.key && !Adopted(st, key, c)
    ensures st1.parent[c] == st.parent[c] && st1.key[c] == st.key[c] && (Present(st, c) ==> Present(st1, c))
  {
    assert c != id;
  }

  /** A zone that has a known parent is not waiting for another one. */
  lemma ListedStays<R>(st: State<R>, key: ZoneKey, k: ZoneKey, n: string)
    requires Sound(st) && key !in st.zones && k in st.zones && n in st.children[st.zones[k]]
    ensures var c := st.children[st.zones[k]][n];
      Listed(st, st.zones[k], n, c) && !Adopted(st, key, c)
  {
    var c := st.children[st.zones[k]][n];
    assert Listed(st, st.zones[k], n, c);
    assert st.parent[c].value == st.zones[k];
    assert st.Refers(c, k);
  }

  lemma EnteredLists<R>(st: State<R>, st1: State<R>, id: R, key: ZoneKey, k: ZoneKey)
    requires Sound(st) && Closed(st1) && Entered(st, st1, id, key) && k in st.zones
    ensures Lists(st1, k)
  {
    var z := st.zones[k];
    var o := st1.parent[st1.zones[k]];
    if Adopted(st, key, z) {
      assert key.For(k.name) == k;
      assert k.name in st1.children[id];
    } else if o.Some? && Present(st1, o.value) {
      assert o == st.parent[st.zones[k]] && o.value != id;
      assert Present(st, o.value) && Lists(st, k);
    }
  }

  lemma EnterExact<R>(st: State<R>, id: R, key: ZoneKey)
    requires Sound(st) && (key in st.zones || id !in st.key)
    ensures Sound(Enter(st, id, key)) && key in Enter(st, id, key).zones
  {
    EnterKeeps(st, id, key);
    if key !in st.zones {
      EnterEnters(st, id, key);
      EnteredExact(st, Enter(st, id, key), id, key);
    }
  }

  lemma RelinkListed<R>(st: State<R>, d: ZoneData, k: ZoneKey, n: string)
    requires Sound(st) && d.key in st.zones && k in st.zones
    requires Closed(Relink(st, d, Corrected)) && n in Relink(st, d, Corrected).children[st.zones[k]]
    ensures var st1 := Relink(st, d, Corrected);
      Listed(st1, st.zones[k], n, st1.children[st.zones[k]][n])
  {
    var p, t := st.zones[k], st.zones[d.key];
    RefiledAt(st, d, Corrected, p);
    if !(ParentOf(st, d) == Some(p) && n == d.key.name) {
      var c := st.children[p][n];
      assert Listed(st, p, n, c) && st.parent[c].value == p;
      assert st.Refers(c, k);
    }
  }

  lemma RelinkLists<R>(st: State<R>, d: ZoneData, k: ZoneKey)
    requires Sound(st) && d.key in st.zones && k in st.zones && Closed(Relink(st, d, Corrected))
    ensures Lists(Relink(st, d, Corrected), k)
  {
    var st1 := Relink(st, d, Corrected);
    var z, t := st.zones[k], st.zones[d.key];
    var o := st1.parent[z];
    if o.Some? && Present(st1, o.value) {
      RefiledAt(st, d, Corrected, o.value);
      if k != d.key {
        assert Lists(st, k) by { assert st.parent[st.zones[k]] == o; }
        assert st.parent[z].value == o.value && st.Refers(z, st.key[o.value]);
        assert st.parent[t] == o ==> st.parent[t].value == o.value && st.Refers(t, st.key[o.value]);
      }
    }
  }

  lemma RelinkExact<R>(st: State<R>, d: ZoneData)
    requires Sound(st) && d.key in st.zones
    ensures Sound(Relink(st, d, Corrected))
  {
    var st1 := Relink(st, d, Corrected);
    RelinkKeeps(st, d, Corrected);
    forall k, n | k in st1.zones && n in st1.children[st1.zones[k]]
      ensures Listed(st1, st1.zones[k], n, st1.children[st1.zones[k]][n])
    {
      RelinkListed(st, d, k, n);
    }
    forall k | k in st1.zones ensures Lists(st1, k) {
      RelinkLists(st, d, k);
    }
  }

  /** The serial numbers have no part in it. */
  lemma BumpExact<R>(st: State<R>, o: Option<R>, serial: nat)
    requires Valid(st)
    ensures Valid(Bump(st, o, serial)) && (ExactChildren(Bump(st, o, serial)) <==> ExactChildren(st))
  {
    BumpKeeps(st, o, serial);
    SameButSerial(st, Bump(st, o, serial));
    SameButSerial(Bump(st, o, serial), st);
  }

  lemma SameButSerial<R>(st: State<R>, st1: State<R>)
    requires Closed(st) && Closed(st1) && st1 == st.(serial := st1.serial)
    ensures ExactChildren(st) ==> ExactChildren(st1)
  {
    forall z | z in st.key ensures Present(st1, z) <==> Present(st, z) {
    }
    forall k | k in st.zones ensures Lists(st1, k) <==> Lists(st, k) {
    }
  }

  /** The intended filing keeps the child maps right under `AddZone` ... */
  lemma AddIntendedKeeps<R>(st: State<R>, id: R, d: ZoneData)
    requires Sound(st) && (d.key in st.zones || id !in st.key)
    ensures Sound(Add(st, id, d, Corrected))
  {
    EnterExact(st, id, d.key);
    RelinkExact(Enter(st, id, d.key), d);
    BumpExact(Link(st, id, d, Corrected), ParentOf(Link(st, id, d, Corrected), d), d.serial);
  }

  lemma RemovedAt<R>(st: State<R>, key: ZoneKey, z: R)
    requires Closed(st) && key in st.zones && z in st.key && Closed(Remove(st, key, Corrected))
    ensures var st1 := Remove(st, key, Corrected);
      st1.children[z] == (if st.parent[st.zones[key]] == Some(z) then st.children[z] - {key.name} else st.children[z])
      && (Present(st1, z) <==> Present(st, z) && z != st.zones[key])
  {
  }

  lemma RemoveListed<R>(st: State<R>, key: ZoneKey, k: ZoneKey, n: string)
    requires Sound(st) && key in st.zones && k in st.zones && k != key && Closed(Remove(st, key, Corrected))
    requires n in Remove(st, key, Corrected).children[st.zones[k]]
    ensures var st1 := Remove(st, key, Corrected);
      Listed(st1, st.zones[k], n, st1.children[st.zones[k]][n])
  {
    RemovedAt(st, key, st.zones[k]);
    var c := st.children[st.zones[k]][n];
    assert Listed(st, st.zones[k], n, c);
    RemovedAt(st, key, c);
  }

  lemma RemoveLists<R>(st: State<R>, key: ZoneKey, k: ZoneKey)
    requires Sound(st) && key in st.zones && k in st.zones && k != key && Closed(Remove(st, key, Corrected))
    ensures Lists(Remove(st, key, Corrected), k)
  {
    var z, c := st.zones[key], st.zones[k];
    var o := st.parent[c];
    assert Lists(st, k) by { assert st.parent[st.zones[k]] == o; }
    if o.Some? {
      RemovedAt(st, key, o.value);
      assert st.parent[c].value == o.value && st.Refers(c, st.key[o.value]);
      assert st.parent[z] == o ==> st.parent[z].value == o.value && st.Refers(z, st.key[o.value]);
    }
  }

  /** ... and under `RemoveZone`. */
  lemma RemoveIntendedKeeps<R>(st: State<R>, key: ZoneKey)
    requires Sound(st)
    ensures Sound(Remove(st, key, Corrected))
  {
    var st1 := Remove(st, key, Corrected);
    RemoveKeeps(st, key, Corrected);
    if key in st.zones {
      forall k, n | k in st1.zones && n in st1.children[st1.zones[k]]
        ensures Listed(st1, st1.zones[k], n, st1.children[st1.zones[k]][n])
      {
        RemoveListed(st, key, k, n);
      }
      forall k | k in st1.zones ensures Lists(st1, k) {
        RemoveLists(st, key, k);
      }
    }
  }

  // ----- exactly when the code as written keeps the child maps right ----------------------------

  /** The zone is known and a child of its parent under the parent's own name. */
  ghost predicate FiledBelow<R>(st: State<R>, st1: State<R>, id: R, d: ZoneData)
    requires d.ParentKey() in st.zones
  {
    var p := st.zones[d.ParentKey()];
    && d.key in st1.zones && st1.zones == st.zones[d.key := st1.zones[d.key]]
    && st1.zones[d.key] in st1.key && st1.key[st1.zones[d.key]] == d.key
    && p in st1.children && d.parentRef in st1.children[p] && st1.children[p][d.parentRef] == st1.zones[d.key]
    && (d.key !in st.zones ==>
          st1.zones[d.key] == id && p in st.children && st1.children[p] == st.children[p][d.parentRef := id])
  }

  lemma AddedBelow<R>(st: State<R>, id: R, d: ZoneData, st1: State<R>)
    requires Valid(st) && (d.key in st.zones || id !in st.key)
    requires d.parentRef != "" && d.ParentKey() in st.zones
    requires st1 == Add(st, id, d, AsWritten)
    ensures FiledBelow(st, st1, id, d)
  {
    EnterKeeps(st, id, d.key);
    var st0 := Enter(st, id, d.key);
    if d.key !in st.zones { EnterEnters(st, id, d.key); }
    RelinkedBelow(st0, d);
  }

  lemma RelinkedBelow<R>(st: State<R>, d: ZoneData)
    requires Closed(st) && d.key in st.zones
    requires d.parentRef != "" && d.ParentKey() in st.zones
    ensures var st1 := Relink(st, d, AsWritten);
      var p, t := st.zones[d.ParentKey()], st.zones[d.key];
      p in st1.children && d.parentRef in st1.children[p] && st1.children[p][d.parentRef] == t
      && (st.parent[t] == None ==> st1.children[p] == st.children[p][d.parentRef := t])
  {
    RefiledAt(st, d, AsWritten, st.zones[d.ParentKey()]);
  }

  /** A zone filed below a known parent of another name shows up under that parent's name. */
  lemma MisfiledBreaks<R>(st: State<R>, id: R, d: ZoneData, st1: State<R>)
    requires Sound(st) && (d.key in st.zones || id !in st.key)
    requires d.parentRef != "" && d.parentRef != d.key.name && d.ParentKey() in st.zones
    requires st1 == Add(st, id, d, AsWritten)
    ensures !Sound(st1)
  {
    AddedBelow(st, id, d, st1);
    Misfiled(st1, d);
  }

  lemma Misfiled<R>(st: State<R>, d: ZoneData)
    requires d.key in st.zones && st.zones[d.key] in st.key && st.key[st.zones[d.key]] == d.key
    requires d.parentRef != d.key.name && d.ParentKey() in st.zones
    requires var p := st.zones[d.ParentKey()];
      p in st.children && d.parentRef in st.children[p] && st.children[p][d.parentRef] == st.zones[d.key]
    ensures !Sound(st)
  {
    var p := st.zones[d.ParentKey()];
    assert Sound(st) ==> Listed(st, p, d.parentRef, st.children[p][d.parentRef]);
  }

  /** Nothing is filed, or the parent's name is the zone's own. */
  lemma FilingAgrees<R>(st: State<R>, id: R, d: ZoneData)
    requires Closed(st) && (d.key in st.zones || id !in st.key)
    requires d.parentRef == "" || d.parentRef == d.key.name || d.ParentKey() !in st.zones
    ensures Add(st, id, d, AsWritten) == Add(st, id, d, Corrected)
  {
    EnterClosed(st, id, d.key);
    RefileAgrees(Enter(st, id, d.key), d);
  }

  lemma RefileAgrees<R>(st: State<R>, d: ZoneData)
    requires Closed(st) && d.key in st.zones
    requires d.parentRef == d.key.name || ParentOf(st, d) == None
    ensures Relink(st, d, AsWritten) == Relink(st, d, Corrected)
  {
  }

  /** `AddZone` as written keeps the child maps right exactly when it files nothing: the zone is
      a root zone, its parent is not known yet, or it is its own parent. */
  lemma AddAsWrittenIff<R>(st: State<R>, id: R, d: ZoneData)
    requires Sound(st) && (d.key in st.zones || id !in st.key)
    ensures Sound(Add(st, id, d, AsWritten)) <==>
      d.parentRef == "" || d.parentRef == d.key.name || d.ParentKey() !in st.zones
  {
    if d.parentRef != "" && d.parentRef != d.key.name && d.ParentKey() in st.zones {
      MisfiledBreaks(st, id, d, Add(st, id, d, AsWritten));
    } else {
      FilingAgrees(st, id, d);
      AddIntendedKeeps(st, id, d);
    }
  }

  /** `z` is known, but no child of `p`. */
  ghost predicate Lost<R>(st: State<R>, p: R, z: R) {
    Present(st, z) && p in st.children && forall n | n in st.children[p] :: st.children[p][n] != z
  }

  /** The second of two siblings takes the place of the first. */
  lemma SiblingsCollide<R>(st: State<R>, i: R, j: R, a: ZoneData, b: ZoneData, st1: State<R>, st2: State<R>)
    requires Valid(st) && i !in st.key && a.key !in st.zones && b.key !in st.zones && a.key != b.key
    requires a.parentRef != "" && a.parentRef == b.parentRef && a.ParentKey() == b.ParentKey()
    requires a.ParentKey() in st.zones
    requires st1 == Add(st, i, a, AsWritten) && Valid(st1) && j !in st1.key
    requires st2 == Add(st1, j, b, AsWritten) && Valid(st2)
    ensures Lost(st2, st.zones[a.ParentKey()], i)
  {
    AddedBelow(st, i, a, st1);
    AddedBelow(st1, j, b, st2);
    Displaced(st, st1, st2, i, j, a, b);
  }

  lemma Displaced<R>(st: State<R>, st1: State<R>, st2: State<R>, i: R, j: R, a: ZoneData, b: ZoneData)
    requires Closed(st) && Closed(st2) && i !in st.key && i != j
    requires a.key !in st.zones && b.key !in st1.zones && a.key != b.key
    requires a.parentRef == b.parentRef && a.ParentKey() == b.ParentKey()
    requires a.ParentKey() in st.zones && FiledBelow(st, st1, i, a)
    requires b.ParentKey() in st1.zones && FiledBelow(st1, st2, j, b)
    ensures Lost(st2, st.zones[a.ParentKey()], i)
  {
    var p := st.zones[a.ParentKey()];
    assert st2.zones[a.key] == i;
    forall n | n in st2.children[p] ensures st2.children[p][n] != i {
      if n != a.parentRef {
        assert st.children[p][n] in st.key;
      }
    }
  }

  /** `RemoveZone` as written keeps the child maps right exactly when the zone was unknown or no
      other known zone is its parent. */
  lemma RemoveAsWrittenIff<R>(st: State<R>, key: ZoneKey)
    requires Sound(st)
    ensures Sound(Remove(st, key, AsWritten)) <==>
      key !in st.zones ||
      var z := st.zones[key];
      st.parentName[z] == "" || st.ParentKey(z) == key || st.ParentKey(z) !in st.zones
  {
    RemoveKeeps(st, key, AsWritten);
    if key in st.zones {
      var st1 := Remove(st, key, AsWritten);
      var z := st.zones[key];
      var pk := st.ParentKey(z);
      if st.parentName[z] != "" && pk != key && pk in st.zones {
        StillListed(st, key);
      } else {
        forall k, n | k in st1.zones && n in st1.children[st1.zones[k]]
          ensures Listed(st1, st1.zones[k], n, st1.children[st1.zones[k]][n])
        {
          var c := st.children[st.zones[k]][n];
          assert Listed(st, st.zones[k], n, c) && st.parent[c].value == st.zones[k];
          assert st.Refers(c, k);
        }
        forall k | k in st1.zones ensures Lists(st1, k) {
          assert Lists(st, k) by { assert st.parent[st.zones[k]] == st.parent[st.zones[k]]; }
        }
      }
    }
  }

  /** The removed zone is still a child of its parent. */
  lemma StillListed<R>(st: State<R>, key: ZoneKey)
    requires Sound(st) && key in st.zones && Closed(Remove(st, key, AsWritten))
    requires var z := st.zones[key];
      st.parentName[z] != "" && st.ParentKey(z) != key && st.ParentKey(z) in st.zones
    ensures !ExactChildren(Remove(st, key, AsWritten))
  {
    var z := st.zones[key];
    var p := st.zones[st.ParentKey(z)];
    assert st.parent[st.zones[key]] == Some(p);
    assert Lists(st, key) && Present(st, p);
    var st1 := Remove(st, key, AsWritten);
    assert key.name in st1.children[st1.zones[st.ParentKey(z)]] && st1.children[p][key.name] == z;
    assert !Listed(st1, p, key.name, z);
  }
}
