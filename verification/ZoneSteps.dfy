/** The single steps of `AddZone` and `RemoveZone` on the state as a value: what one round of a loop
    or one group of assignments does, and that the steps add up to `Add` and `Remove`. */
module ZoneSteps {
  import opened Wrappers
  import opened ZoneGraph
  import opened ZoneSerials

  lemma RemovedAsWritten<R>(g: State<R>, key: ZoneKey)
    requires Valid(g)
    ensures Remove(g, key, AsWritten) == g.(zones := g.zones - {key})
    ensures Valid(g.(zones := g.zones - {key}))
  {
    RemoveKeeps(g, key, AsWritten);
    assert key !in g.zones ==> g.zones - {key} == g.zones;
  }

  // ----- a new zone ------------------------------------------------------------------------------

  /** A new zone object in the table, not linked yet. */
  ghost function Registered<R>(g: State<R>, id: R, key: ZoneKey): State<R> {
    State(g.zones[key := id], g.key[id := key], g.parent[id := None], g.parentName[id := ""],
          g.children[id := map[]], g.names[id := []], g.serial[id := 0])
  }

  ghost predicate Tabled<R>(g: State<R>) {
    forall k {:trigger g.zones[k]} | k in g.zones :: g.zones[k] in g.key && g.key[g.zones[k]] == k
  }

  /** The loop over all zones has handled all but those in `todo`. */
  ghost predicate AdoptedPart<R>(g: State<R>, id: R, key: ZoneKey, todo: set<ZoneKey>,
                                 ups: map<R, Option<R>>, kids: map<string, R>)
    requires Columns(g) && Tabled(g)
  {
    && ups.Keys == g.key.Keys
    && (forall y {:trigger ups[y]} | y in g.key ::
          ups[y] == if Adopted(g, key, y) && g.key[y] !in todo then Some(id) else g.parent[y])
    && (forall n {:trigger n in kids} ::
          n in kids <==> key.For(n) in g.zones && key.For(n) !in todo && g.Refers(g.zones[key.For(n)], key))
    && (forall n {:trigger kids[n]} | n in kids :: kids[n] == g.zones[key.For(n)])
  }

  lemma AdoptNone<R>(g: State<R>, id: R, key: ZoneKey)
    requires Columns(g) && Tabled(g)
    ensures AdoptedPart(g, id, key, g.zones.Keys, g.parent, map[])
  {
  }

  lemma AdoptOne<R>(g: State<R>, id: R, key: ZoneKey, todo: set<ZoneKey>, ups: map<R, Option<R>>,
                    kids: map<string, R>, k: ZoneKey)
    requires Columns(g) && Tabled(g) && AdoptedPart(g, id, key, todo, ups, kids) && k in todo && k in g.zones
    ensures var y := g.zones[k];
      if g.Refers(y, key) then AdoptedPart(g, id, key, todo - {k}, ups[y := Some(id)], kids[k.name := y])
      else AdoptedPart(g, id, key, todo - {k}, ups, kids)
  {
    var y := g.zones[k];
    if g.Refers(y, key) {
      assert key.For(k.name) == k;
      AdoptOneUp(g, id, key, todo, ups, kids, k);
      AdoptOneDown(g, id, key, todo, ups, kids, k);
    }
  }

  lemma AdoptOneUp<R>(g: State<R>, id: R, key: ZoneKey, todo: set<ZoneKey>, ups: map<R, Option<R>>,
                      kids: map<string, R>, k: ZoneKey)
    requires Columns(g) && Tabled(g) && AdoptedPart(g, id, key, todo, ups, kids) && k in todo && k in g.zones
    requires g.Refers(g.zones[k], key)
    ensures var ups1 := ups[g.zones[k] := Some(id)];
      ups1.Keys == g.key.Keys && forall z | z in g.key ::
        ups1[z] == if Adopted(g, key, z) && g.key[z] !in todo - {k} then Some(id) else g.parent[z]
  {
    var y := g.zones[k];
    forall z | z in g.key && z != y
      ensures Adopted(g, key, z) ==> g.key[z] != k
    {
    }
  }

  lemma AdoptOneDown<R>(g: State<R>, id: R, key: ZoneKey, todo: set<ZoneKey>, ups: map<R, Option<R>>,
                        kids: map<string, R>, k: ZoneKey)
    requires Columns(g) && Tabled(g) && AdoptedPart(g, id, key, todo, ups, kids) && k in todo && k in g.zones
    requires g.Refers(g.zones[k], key) && key.For(k.name) == k
    ensures var kids1 := kids[k.name := g.zones[k]];
      (forall n :: n in kids1 <==>
         key.For(n) in g.zones && key.For(n) !in todo - {k} && g.Refers(g.zones[key.For(n)], key))
      && (forall n | n in kids1 :: kids1[n] == g.zones[key.For(n)])
  {
    forall n: string ensures key.For(n) == k <==> n == k.name {
      assert key.For(n).name == n;
    }
  }

  /** The new zone is registered and the loop over all zones done. */
  ghost predicate EnteredSo<R>(g: State<R>, id: R, key: ZoneKey, ups: map<R, Option<R>>, kids: map<string, R>) {
    var g0 := Registered(g, id, key);
    Columns(g0) && Tabled(g0) && AdoptedPart(g0, id, key, {}, ups, kids)
  }

  ghost function AfterAdoption<R>(g: State<R>, id: R, key: ZoneKey, ups: map<R, Option<R>>,
                                  kids: map<string, R>): State<R>
  {
    var g0 := Registered(g, id, key);
    g0.(parent := ups, children := g0.children[id := kids])
  }

  /** Then the zone has entered the state. */
  lemma AdoptedAll<R>(g: State<R>, id: R, key: ZoneKey, ups: map<R, Option<R>>, kids: map<string, R>)
    requires Closed(g) && id !in g.key && key !in g.zones && EnteredSo(g, id, key, ups, kids)
    ensures AfterAdoption(g, id, key, ups, kids) == Enter(g, id, key)
  {
    AdoptedParentsAre(g, id, key);
    AdopteesAre(g, key);
    AdoptedUps(g, Registered(g, id, key), id, key, ups, kids);
    AdoptedKids(g, Registered(g, id, key), id, key, ups, kids);
    OneAdoption(g, id, key, ups, AdoptedParents(g, id, key), kids, Adoptees(g, key));
    UpdateTwice(g.children, id, map[], kids);
  }

  lemma OneAdoption<R>(g: State<R>, id: R, key: ZoneKey, ups: map<R, Option<R>>, ups1: map<R, Option<R>>,
                       kids: map<string, R>, kids1: map<string, R>)
    requires Closed(g) && AreAdoptedParents(g, id, key, ups) && AreAdoptedParents(g, id, key, ups1)
    requires AreAdoptees(g, key, kids) && AreAdoptees(g, key, kids1)
    ensures ups == ups1 && kids == kids1
  {
    assert forall z | z in ups :: z == id || z in g.key;
    assert forall n | n in kids :: n in kids1;
  }

  lemma RegisteredTabled<R>(g: State<R>, id: R, key: ZoneKey)
    requires Columns(g) && Tabled(g) && id !in g.key && key !in g.zones
    ensures Columns(Registered(g, id, key)) && Tabled(Registered(g, id, key))
  {
    ExtendsKeys(g.key, id, key);
    ExtendsKeys(g.parent, id, None);
    ExtendsKeys(g.parentName, id, "");
    ExtendsKeys(g.children, id, map[]);
    ExtendsKeys(g.names, id, []);
    ExtendsKeys(g.serial, id, 0);
  }

  /** Registering changes neither what a zone refers to nor whether it is known. */
  lemma RegisteredAt<R>(g: State<R>, g1: State<R>, id: R, key: ZoneKey, y: R)
    requires Closed(g) && id !in g.key && key !in g.zones && g1 == Registered(g, id, key) && y in g.key
    ensures y in g1.key && y in g1.parentName && g1.key[y] == g.key[y] && g1.parent[y] == g.parent[y]
    ensures g1.Refers(y, key) == g.Refers(y, key)
    ensures Present(g1, y) <==> Present(g, y)
  {
    assert y != id;
  }

  lemma AdoptedUps<R>(g: State<R>, g1: State<R>, id: R, key: ZoneKey, ups: map<R, Option<R>>, kids: map<string, R>)
    requires Closed(g) && id !in g.key && key !in g.zones && g1 == Registered(g, id, key)
    requires Columns(g1) && Tabled(g1) && AdoptedPart(g1, id, key, {}, ups, kids)
    ensures AreAdoptedParents(g, id, key, ups)
  {
    ExtendsKeys(g.key, id, key);
    assert !g1.Refers(id, key);
    assert ups[id] == g1.parent[id];
    forall z | z in g.key ensures ups[z] == if Adopted(g, key, z) then Some(id) else g.parent[z] {
      AdoptedUp(g, g1, id, key, ups, kids, z);
    }
  }

  lemma AdoptedUp<R>(g: State<R>, g1: State<R>, id: R, key: ZoneKey, ups: map<R, Option<R>>, kids: map<string, R>, z: R)
    requires Closed(g) && id !in g.key && key !in g.zones && g1 == Registered(g, id, key) && z in g.key
    requires Columns(g1) && Tabled(g1) && AdoptedPart(g1, id, key, {}, ups, kids)
    ensures ups[z] == if Adopted(g, key, z) then Some(id) else g.parent[z]
  {
    RegisteredAt(g, g1, id, key, z);
  }

  lemma AdoptedKids<R>(g: State<R>, g1: State<R>, id: R, key: ZoneKey, ups: map<R, Option<R>>, kids: map<string, R>)
    requires Closed(g) && id !in g.key && key !in g.zones && g1 == Registered(g, id, key)
    requires Columns(g1) && Tabled(g1) && AdoptedPart(g1, id, key, {}, ups, kids)
    ensures AreAdoptees(g, key, kids)
  {
    assert !g1.Refers(id, key);
    forall n ensures n in kids <==> key.For(n) in g.zones && g.Refers(g.zones[key.For(n)], key) {
      if key.For(n) in g.zones {
        RegisteredAt(g, g1, id, key, g.zones[key.For(n)]);
      }
    }
  }

  // ----- moving a zone below its parent ------------------------------------------------------------

  /** The zones around `t` are objects. */
  ghost predicate Anchored<R>(g: State<R>, d: ZoneData, t: R)
    requires Columns(g)
  {
    && t in g.key
    && (g.parent[t].Some? ==> g.parent[t].value in g.key)
    && (d.ParentKey() in g.zones ==> g.zones[d.ParentKey()] in g.key)
  }

  /** The child maps once `t` has left the old parent (`kids`) and joined the new one (`kids1`). */
  ghost predicate Refile<R>(g: State<R>, d: ZoneData, t: R, kids: map<R, map<string, R>>, kids1: map<R, map<string, R>>)
    requires Columns(g) && Anchored(g, d, t)
  {
    var o, p := g.parent[t], ParentOf(g, d);
    && kids == (if o.Some? && g.key[o.value].name != d.parentRef
                then g.children[o.value := g.children[o.value] - {d.key.name}] else g.children)
    && (p.Some? ==> p.value in kids)
    && kids1 == (if p.Some? then kids[p.value := kids[p.value][d.parentRef := t]] else kids)
  }

  ghost function Reassigned<R>(g: State<R>, d: ZoneData, t: R, kids: map<R, map<string, R>>): State<R> {
    State(g.zones, g.key, g.parent[t := ParentOf(g, d)], g.parentName[t := d.parentRef], kids,
          g.names[t := d.names], g.serial[t := d.serial])
  }

  /** These assignments add up to `Relink`. */
  lemma RelinkedAsWritten<R>(g: State<R>, d: ZoneData, t: R, kids: map<R, map<string, R>>,
                             kids1: map<R, map<string, R>>)
    requires Closed(g) && d.key in g.zones && t == g.zones[d.key] && Anchored(g, d, t)
    requires Refile(g, d, t, kids, kids1)
    ensures Relink(g, d, AsWritten) == Reassigned(g, d, t, kids1)
  {
  }

  lemma ClosedAnchors<R>(g: State<R>, d: ZoneData)
    requires Closed(g) && d.key in g.zones
    ensures Anchored(g, d, g.zones[d.key])
  {
  }

  // ----- handing the serial number up ----------------------------------------------------------------

  /** The zones met in the first `n` steps from `o` carry the serial number, all others their own. */
  ghost predicate BumpedPart<R>(parent: map<R, Option<R>>, o: Option<R>, serial: nat, n: nat,
                                before: map<R, nat>, now: map<R, nat>) {
    && now.Keys == before.Keys
    && forall z {:trigger now[z]} | z in before :: now[z] == if MetWithin(parent, o, z, n) then serial else before[z]
  }

  ghost predicate MetWithin<R>(parent: map<R, Option<R>>, o: Option<R>, z: R, n: nat) {
    exists i: nat :: i < n && Climb(parent, o, i) == Some(z)
  }

  ghost predicate PointersInside<R>(parent: map<R, Option<R>>) {
    forall z {:trigger parent[z]} | z in parent && parent[z].Some? :: parent[z].value in parent
  }

  /** The serial numbers after `n` steps. */
  ghost function Bumped<R>(parent: map<R, Option<R>>, o: Option<R>, serial: nat, n: nat,
                           before: map<R, nat>): map<R, nat>
  {
    if n == 0 then before
    else
      var now := Bumped(parent, o, serial, n - 1, before);
      var c := Climb(parent, o, n - 1);
      if c.Some? then now[c.value := serial] else now
  }

  lemma ClimbNext<R>(parent: map<R, Option<R>>, o: Option<R>, n: nat, y: R)
    requires Climb(parent, o, n) == Some(y) && PointersInside(parent) && y in parent
    ensures Climb(parent, o, n + 1) == parent[y]
    ensures parent[y].Some? ==> parent[y].value in parent
  {
    ClimbAdd(parent, o, n, 1);
    assert Climb(parent, Some(y), 1) == Climb(parent, parent[y], 0);
  }

  lemma {:induction false} BumpedParts<R>(parent: map<R, Option<R>>, o: Option<R>, serial: nat, n: nat,
                                          before: map<R, nat>)
    requires parent.Keys == before.Keys && PointersInside(parent) && (o.Some? ==> o.value in parent)
    ensures BumpedPart(parent, o, serial, n, before, Bumped(parent, o, serial, n, before))
    ensures Climb(parent, o, n).Some? ==> Climb(parent, o, n).value in parent
    decreases n
  {
    if n > 0 {
      BumpedParts(parent, o, serial, n - 1, before);
      BumpOne(parent, o, serial, n - 1, before, Bumped(parent, o, serial, n - 1, before));
    }
  }

  lemma BumpOne<R>(parent: map<R, Option<R>>, o: Option<R>, serial: nat, n: nat, before: map<R, nat>, now: map<R, nat>)
    requires BumpedPart(parent, o, serial, n, before, now) && PointersInside(parent) && parent.Keys == before.Keys
    requires Climb(parent, o, n).Some? ==> Climb(parent, o, n).value in parent
    ensures var c := Climb(parent, o, n);
      BumpedPart(parent, o, serial, n + 1, before, if c.Some? then now[c.value := serial] else now)
    ensures Climb(parent, o, n + 1).Some? ==> Climb(parent, o, n + 1).value in parent
  {
    var c := Climb(parent, o, n);
    forall z | z in before ensures MetWithin(parent, o, z, n + 1) <==> MetWithin(parent, o, z, n) || c == Some(z) {
    }
    if c.Some? {
      ClimbNext(parent, o, n, c.value);
    } else {
      ClimbAdd(parent, o, n, 1);
    }
  }

  lemma NotYet<R>(parent: map<R, Option<R>>, o: Option<R>, n: nat, end: nat)
    requires Climb(parent, o, n) != None && Climb(parent, o, end) == None
    ensures n < end
  {
    if end <= n { ClimbAdd(parent, o, end, n - end); }
  }

  /** The walk ends after as many steps as there are zones above. */
  lemma BumpedAll<R>(g: State<R>, o: Option<R>, serial: nat, n: nat)
    requires Closed(g) && (o.Some? ==> o.value in g.key) && Climb(g.parent, o, n) == None
    ensures g.(serial := Bumped(g.parent, o, serial, n, g.serial)) == Bump(g, o, serial)
  {
    BumpedParts(g.parent, o, serial, n, g.serial);
    var now := Bumped(g.parent, o, serial, n, g.serial);
    forall z | z in g.serial ensures now[z] == if Above(g.parent, o, z) then serial else g.serial[z] {
      MetAll(g.parent, o, z, n);
    }
  }

  lemma MetAll<R>(parent: map<R, Option<R>>, o: Option<R>, z: R, n: nat)
    requires Climb(parent, o, n) == None
    ensures MetWithin(parent, o, z, n) <==> Above(parent, o, z)
  {
    if Above(parent, o, z) {
      var i: nat :| Climb(parent, o, i) == Some(z);
      if i >= n { ClimbAdd(parent, o, n, i - n); }
    }
  }

  // ----- AddZone, step by step -----------------------------------------------------------------------

  ghost predicate NewOrKnown<R>(g: State<R>, id: R, key: ZoneKey) {
    if key in g.zones then id == g.zones[key] else id !in g.key
  }

  lemma AfterEnter<R>(g: State<R>, id: R, d: ZoneData)
    requires Closed(g) && NewOrKnown(g, id, d.key)
    ensures var g1 := Enter(g, id, d.key);
      Columns(g1) && d.key in g1.zones && g1.zones[d.key] == id && Anchored(g1, d, id)
  {
    EnterClosed(g, id, d.key);
    ClosedAnchors(Enter(g, id, d.key), d);
  }

  /** With all pointers set the ancestors of the zone can be walked. */
  ghost predicate Walkable<R>(g: State<R>, id: R, d: ZoneData)
    requires Closed(g) && NewOrKnown(g, id, d.key)
  {
    var g2 := Link(g, id, d, AsWritten);
    var o := ParentOf(Enter(g, id, d.key), d);
    && id in g2.serial && g2.serial[id] == d.serial
    && Columns(g2) && PointersInside(g2.parent) && (o.Some? ==> o.value in g2.parent)
    && Ends(g2.parent, o)
  }

  lemma AfterRelink<R>(g: State<R>, id: R, d: ZoneData, kids: map<R, map<string, R>>, kids1: map<R, map<string, R>>)
    requires Closed(g) && NewOrKnown(g, id, d.key) && SafeToAdd(g, d)
    requires var g1 := Enter(g, id, d.key); Columns(g1) && Anchored(g1, d, id) && Refile(g1, d, id, kids, kids1)
    ensures Walkable(g, id, d) && Link(g, id, d, AsWritten) == Reassigned(Enter(g, id, d.key), d, id, kids1)
  {
    var g1 := Enter(g, id, d.key);
    EnterClosed(g, id, d.key);
    AfterEnter(g, id, d);
    RelinkedAsWritten(g1, d, id, kids, kids1);
    RelinkClosed(g1, d, AsWritten);
    WalkEndsIff(g, id, d, AsWritten);
  }

  lemma AfterBump<R>(g: State<R>, id: R, d: ZoneData, n: nat)
    requires Valid(g) && NewOrKnown(g, id, d.key)
    requires Climb(Link(g, id, d, AsWritten).parent, ParentOf(Enter(g, id, d.key), d), n) == None
    ensures var g2 := Link(g, id, d, AsWritten);
      var o := ParentOf(Enter(g, id, d.key), d);
      g2.(serial := Bumped(g2.parent, o, d.serial, n, g2.serial)) == Add(g, id, d, AsWritten)
    ensures Valid(Add(g, id, d, AsWritten))
  {
    var g1 := Enter(g, id, d.key);
    EnterClosed(g, id, d.key);
    RelinkClosed(g1, d, AsWritten);
    BumpedAll(Link(g, id, d, AsWritten), ParentOf(g1, d), d.serial, n);
    AddKeeps(g, id, d, AsWritten);
  }
}
