/** The zone model of the REST server as mutable objects: zonemodel/model.go step by step. Every
    method is proved against the state functions of ZoneGraph.dfy and the answers of
    ZoneLookup.dfy. Each public method of the source holds the model's lock, so it is one step. */
module ZoneModel {
  import opened Wrappers
  import opened DomainNames
  import opened ZoneGraph
  import opened ZoneSerials
  import opened ZoneSteps
  import opened ZoneLookup
  import opened ZoneInversion
  import opened ZoneWalks
  import opened ZoneForest

  function Pointer(z: Zone?): Option<Zone> {
    if z == null then None else Some(z)
  }

  function Inner<T>(r: Result<Option<T>>): Result<T>
    requires r.Ok? ==> r.value.Some?
  {
    match r
    case Ok(o) => Ok(o.value)
    case Err(e) => Err(e)
  }

  class Zone {
    const model: Model
    const key: ZoneKey
    var serialId: nat
    var parent: Zone?
    var parentName: string
    var children: map<string, Zone>
    var names: seq<string>

    constructor (m: Model, k: ZoneKey)
      ensures model == m && key == k
      ensures serialId == 0 && parent == null && parentName == "" && children == map[] && names == []
    {
      model, key := m, k;
      serialId, parent, parentName, children, names := 0, null, "", map[], [];
    }

    method Matches(qname: string) returns (zone: string)
      ensures zone == Longest(names, qname)
    {
      zone := "";
      for i := 0 to |names|
        invariant zone == Longest(names[..i], qname)
      {
        LongestNext(names, i, qname);
        if IsSubDomain(names[i], qname) {
          if |names[i]| > |zone| {
            zone := names[i];
          }
        }
      }
      assert names[..|names|] == names;
    }

    /** The nested zone that matches what is left (lines 214-221), in whatever order the map yields. */
    method Nested(sub: string) returns (zone: Zone?, zn: string)
      ensures zone == null ==> forall n | n in children :: Longest(children[n].names, sub) == ""
      ensures zone != null ==> zone in children.Values && zn == Longest(zone.names, sub) && zn != ""
    {
      zone, zn := null, "";
      var todo := children.Keys;
      while todo != {} && zone == null
        invariant todo <= children.Keys
        invariant zone == null ==> forall n | n in children && n !in todo :: Longest(children[n].names, sub) == ""
        invariant zone != null ==> zone in children.Values && zn == Longest(zone.names, sub) && zn != ""
      {
        var n :| n in todo;
        var r := children[n].Matches(sub);
        if r != "" {
          zone, zn := children[n], r;
        }
        todo := todo - {n};
      }
    }

    /** Lines 200-224: follow nested zones as deep as they match. What is left shrinks with every
        round, so the loop ends even if the child maps have a cycle. */
    method Descend(qname: string, zn0: string)
      returns (zone: Zone, sub: string, cur: string, ghost hops: seq<Hop<Zone>>)
      requires model.Valid() && this in model.graph.key && EndsWithDot(qname) && InBounds(model.graph, this, qname)
      requires zn0 == Longest(names, qname) && zn0 != ""
      ensures zone in model.graph.key && zone.model == model && zone.key == model.graph.key[zone]
      ensures Arrived(model.graph, this, qname, hops, zone, sub, cur)
      ensures Deepest(model.graph, hops[|hops| - 1])
    {
      ghost var st := model.graph;
      var zn := zn0;
      sub, zone, cur, hops := qname, this, "", [];
      var more := true;
      while more
        invariant zone in st.key && cur == ZoneNameOf(hops) && (hops != [] ==> EndsWithDot(cur))
        invariant more ==> Entering(st, this, qname, hops, zone, zn, sub)
        invariant !more ==> Arrived(st, this, qname, hops, zone, sub, cur) && Deepest(st, hops[|hops| - 1])
        decreases |sub|, more
      {
        RoundFits(st, this, qname, hops, zone, zn, sub);
        RoundArrives(st, this, qname, hops, zone, zn, sub);
        hops := hops + [Hop(zone, zn, Cut(sub, zn))];
        sub := StripDots(sub[..|sub| - |zn|]);
        cur := Join([zn, cur]);
        var nested, r := zone.Nested(sub);
        if nested == null {
          more := false;
        } else {
          zn, zone := r, nested;
        }
      }
    }

    /** Lines 226-256: a delegation on the way down from the zone, or the entries for the name. */
    method Answer(sub: string, curz: string) returns (r: Result<Info<Zone>>)
      requires EndsWithDot(curz) && !EndsWithDot(sub)
      ensures Answers(model.index, this, key, sub, curz, r)
    {
      var idx := model.index;
      var labels := SplitDomainName(sub);
      var list, cur, rel := [], curz, "";
      ScanStarts(idx, key, sub, curz);
      ghost var p: nat := |sub| + 1;
      assert labels[..|labels|] == labels;
      for i := 0 to |labels|
        invariant Scanned(idx, key, sub, curz, p, labels[..|labels| - i], rel, cur, list)
      {
        ghost var front := labels[..|labels| - i];
        ghost var k := ScanLabel(idx, key, sub, curz, p, front, rel, cur, list);
        var done;
        rel, cur, list, done := LookUp(labels[|labels| - 1 - i], rel, cur, sub, curz, k);
        if done.Some? {
          return done.value;
        }
        ScanOn(idx, key, sub, curz, p, k, front, list);
        p := k;
        assert front[..|front| - 1] == labels[..|labels| - (i + 1)];
      }
      ScanEnds(idx, key, sub, curz, p, rel, cur, list);
      r := Ok(Info(Some(this), [curz], list, [cur]));
    }

    /** One label (lines 231-248): an answer if the lookup fails or finds a delegation. */
    method LookUp(l: string, rel: string, cur: string, ghost sub: string, ghost curz: string, ghost k: nat)
      returns (rel1: string, cur1: string, list: seq<Entry>, done: Option<Result<Info<Zone>>>)
      requires k < |sub| && Boundary(sub, k) && Undelegated(model.index, key, sub, k + 1)
      requires Glues(l, rel, sub[k..], cur, Under(sub[k..], curz))
      ensures rel1 == sub[k..] && cur1 == Under(sub[k..], curz)
      ensures done.Some? ==> Answers(model.index, this, key, sub, curz, done.value)
      ensures done.None? ==> model.index.byName(key, sub[k..]) == Ok(list) && !HasNS(list)
    {
      cur1 := Join([l, cur]);
      var joined := Join([l, rel]);
      rel1 := StripDots(joined);
      match model.index.byName(key, rel1)
      case Err(error) =>
        assert FailedAt(model.index, key, sub, error, k);
        list, done := [], Some(Err(error));
      case Ok(found) =>
        list := found;
        var j := FirstNS(list);
        if j < |list| {
          var info := Info(None, [cur1], [list[j]], [cur1]);
          assert DelegatedAt(model.index, key, sub, curz, info, k, j);
          done := Some(Ok(info));
        } else {
          done := None;
        }
    }

    /** The forward lookup: nil if the zone does not match, else the answer of the zone where the
        descent ends. `InBounds` is just what keeps the slices in bounds (`InBoundsIff`). */
    method ResolveFQDN(qname: string) returns (r: Result<Option<Info<Zone>>>, ghost hops: seq<Hop<Zone>>)
      requires model.Valid() && this in model.graph.key && InBounds(model.graph, this, Fqdn(qname))
      ensures if Longest(names, Fqdn(qname)) == "" then r == Ok(None)
              else (r.Ok? ==> r.value.Some?) && Resolves(model.graph, model.index, this, Fqdn(qname), hops, Inner(r))
    {
      var q := Fqdn(qname);
      var zn := Matches(q);
      if zn == "" {
        return Ok(None), [];
      }
      var a;
      a, hops := ResolveMatched(q, zn);
      match a
      case Ok(info) => r := Ok(Some(info));
      case Err(error) => r := Err(error);
    }

    method ResolveMatched(q: string, zn: string) returns (r: Result<Info<Zone>>, ghost hops: seq<Hop<Zone>>)
      requires model.Valid() && this in model.graph.key && EndsWithDot(q) && InBounds(model.graph, this, q)
      requires zn == Longest(names, q) && zn != ""
      ensures Resolves(model.graph, model.index, this, q, hops, r)
    {
      var zone, sub, cur;
      zone, sub, cur, hops := Descend(q, zn);
      r := zone.Answer(sub, cur);
    }

    /** The objects are as `g` says, and the zone belongs to a part of it in which every child the lookup
        goes on to has a lower rank. */
    ghost predicate InTree(g: State<Zone>, ip: string, rank: map<Zone, nat>)
      reads model`zones, g.parent.Keys`parent, g.parentName.Keys`parentName, g.children.Keys`children,
            g.names.Keys`names, g.serial.Keys`serialId
    {
      model.Mirrored(g) && Columns(g) && Ranked(Followed(g, model.index, ip), rank) && this in rank
    }

    /** The reverse lookup: one information for every zone below that has entries for the address.
        `LookupBounded` is just what bounds the recursion (`LookupBoundedIff`). */
    method ResolveIP(ip: string) returns (r: Result<seq<Info<Zone>>>)
      requires model.Valid() && this in model.graph.key && LookupBounded(model.graph, model.index, this, ip)
      ensures Outcome(model.graph, model.index, this, [""], ip, r)
    {
      ghost var rank := LookupRanked(model.graph, model.index, this, ip);
      r := ResolveBelow([""], ip, model.graph, rank);
    }

    /** Lines 266-295. */
    method ResolveBelow(fqdns: seq<string>, ip: string, ghost g: State<Zone>, ghost rank: map<Zone, nat>)
      returns (r: Result<seq<Info<Zone>>>)
      requires InTree(g, ip, rank)
      ensures Outcome(g, model.index, this, fqdns, ip, r)
      decreases rank[this], 2
    {
      match model.index.byIP(key, ip)
      case Err(error) =>
        FailsHere(g, model.index, this, fqdns, ip, error);
        r := Err(error);
      case Ok(list) =>
        var here, result := ResolveHere(fqdns, list);
        VisitedSelf(g, model.index, this, fqdns, ip, list);
        r := ResolveChildren(fqdns, ip, here, result, g, rank);
    }

    /** The zone itself (lines 271-285). */
    method ResolveHere(fqdns: seq<string>, list: seq<Entry>) returns (here: seq<string>, result: seq<Info<Zone>>)
      ensures here == Expand(names, fqdns)
      ensures result == if list == [] then [] else [Info(Some(this), here, list, EntryNames(list, here))]
    {
      here := ExpandInto(names, fqdns, []);
      result := [];
      if |list| > 0 {
        var entryNames := NamesOf(list, here);
        result := [Info(Some(this), here, list, entryNames)];
      }
    }

    /** The recursion over the children, in whatever order the map yields them. */
    method ResolveChildren(ghost fqdns: seq<string>, ip: string, here: seq<string>, result: seq<Info<Zone>>,
                           ghost g: State<Zone>, ghost rank: map<Zone, nat>)
      returns (r: Result<seq<Info<Zone>>>)
      requires InTree(g, ip, rank) && here == Expand(g.names[this], fqdns) && model.index.byIP(key, ip).Ok?
      requires OutcomeSoFar(g, model.index, this, fqdns, ip, {}, Ok(result))
      ensures Outcome(g, model.index, this, fqdns, ip, r)
      decreases rank[this], 1
    {
      r := Ok(result);
      var todo := children.Keys;
      ghost var kids := g.children[this].Keys;
      assert kids - todo == {};
      while todo != {} && r.Ok?
        invariant todo <= kids && InTree(g, ip, rank)
        invariant OutcomeSoFar(g, model.index, this, fqdns, ip, kids - todo, r)
        decreases todo
      {
        r, todo := ResolveChild(todo, fqdns, ip, here, r.value, g, rank);
      }
      if r.Ok? {
        assert kids - todo == kids;
        VisitedAll(g, model.index, this, fqdns, ip, r.value);
      }
    }

    /** One of the children still to be visited. */
    method ResolveChild(todo: set<string>, ghost fqdns: seq<string>, ip: string, here: seq<string>,
                        result: seq<Info<Zone>>, ghost g: State<Zone>, ghost rank: map<Zone, nat>)
      returns (r: Result<seq<Info<Zone>>>, todo1: set<string>)
      requires InTree(g, ip, rank) && here == Expand(g.names[this], fqdns) && model.index.byIP(key, ip).Ok?
      requires todo != {} && todo <= g.children[this].Keys
      requires OutcomeSoFar(g, model.index, this, fqdns, ip, g.children[this].Keys - todo, Ok(result))
      ensures todo1 < todo && InTree(g, ip, rank)
      ensures OutcomeSoFar(g, model.index, this, fqdns, ip, g.children[this].Keys - todo1, r)
      decreases rank[this], 0
    {
      var n :| n in todo;
      todo1 := todo - {n};
      FollowedHere(g, model.index, ip, rank, this, n);
      var list := children[n].ResolveBelow(here, ip, g, rank);
      NextChild(g, model.index, this, fqdns, ip, todo, result, n, list);
      r := With(result, list);
    }

    /** Lines 277-282. */
    static method NamesOf(list: seq<Entry>, fqdns: seq<string>) returns (r: seq<string>)
      ensures r == EntryNames(list, fqdns)
    {
      r := [];
      for i := 0 to |list|
        invariant r == EntryNames(list[..i], fqdns)
      {
        assert list[..i + 1][..i] == list[..i];
        r := ExpandInto(list[i].dnsNames, fqdns, r);
      }
      assert list[..|list|] == list;
    }

    /** `expand` (lines 297-304). */
    static method ExpandInto(names: seq<string>, fqdns: seq<string>, list: seq<string>) returns (r: seq<string>)
      ensures r == list + Expand(names, fqdns)
    {
      r := list;
      for i := 0 to |names|
        invariant r == list + Expand(names[..i], fqdns)
      {
        ExpandNext(names, i, fqdns);
        Associate(list, Expand(names[..i], fqdns), Prefixed(Fqdn(names[i]), fqdns));
        r := PrefixInto(Fqdn(names[i]), fqdns, r);
      }
      assert names[..|names|] == names;
    }

    static method PrefixInto(p: string, fqdns: seq<string>, list: seq<string>) returns (r: seq<string>)
      ensures r == list + Prefixed(p, fqdns)
    {
      r := list;
      for j := 0 to |fqdns|
        invariant r == list + Prefixed(p, fqdns[..j])
      {
        assert fqdns[..j + 1][..j] == fqdns[..j];
        r := r + [p + fqdns[j]];
      }
      assert fqdns[..|fqdns|] == fqdns;
    }

    static method FirstNS(list: seq<Entry>) returns (j: nat)
      ensures j <= |list| && !HasNS(list[..j]) && (j < |list| ==> list[j].ns != [])
      ensures j == |list| ==> !HasNS(list)
    {
      j := 0;
      while j < |list| && list[j].ns == []
        invariant j <= |list| && !HasNS(list[..j])
      {
        j := j + 1;
      }
      assert list[..|list|] == list;
    }
  }

  // ----- the fields of many zones, column by column ------------------------------------------------

  ghost predicate ParentsAre(m: map<Zone, Option<Zone>>)
    reads m.Keys`parent
  {
    forall z {:trigger m[z]} | z in m :: m[z] == Pointer(z.parent)
  }

  ghost predicate ParentNamesAre(m: map<Zone, string>)
    reads m.Keys`parentName
  {
    forall z {:trigger m[z]} | z in m :: m[z] == z.parentName
  }

  ghost predicate ChildrenAre(m: map<Zone, map<string, Zone>>)
    reads m.Keys`children
  {
    forall z {:trigger m[z]} | z in m :: m[z] == z.children
  }

  ghost predicate NamesAre(m: map<Zone, seq<string>>)
    reads m.Keys`names
  {
    forall z {:trigger m[z]} | z in m :: m[z] == z.names
  }

  ghost predicate SerialsAre(m: map<Zone, nat>)
    reads m.Keys`serialId
  {
    forall z {:trigger m[z]} | z in m :: m[z] == z.serialId
  }

  /** The walk upwards from `o` is at `p` after `n` steps. */
  ghost predicate At(parents: map<Zone, Option<Zone>>, o: Option<Zone>, n: nat, p: Zone?) {
    Climb(parents, o, n) == Pointer(p) && (p != null ==> p in parents)
  }

  lemma NextUp(parents: map<Zone, Option<Zone>>, o: Option<Zone>, n: nat, p: Zone, end: nat)
    requires ParentsAre(parents) && PointersInside(parents) && At(parents, o, n, p) && Climb(parents, o, end) == None
    ensures At(parents, o, n + 1, p.parent) && Climb(parents, o, n) == Some(p) && n < end
  {
    NotYet(parents, o, n, end);
    ClimbNext(parents, o, n, p);
  }

  class Model {
    const index: Index
    var zones: map<ZoneKey, Zone>
    /** The state of all zone objects ever created here, known or removed, as a value. */
    ghost var graph: State<Zone>

    ghost predicate KeysAre(m: map<Zone, ZoneKey>) {
      forall z {:trigger m[z]} | z in m :: m[z] == z.key && z.model == this
    }

    /** The objects are as `g` says, whatever the recorded value is. */
    ghost predicate Mirrored(g: State<Zone>)
      reads this`zones, g.parent.Keys`parent, g.parentName.Keys`parentName, g.children.Keys`children,
            g.names.Keys`names, g.serial.Keys`serialId
    {
      && zones == g.zones && KeysAre(g.key)
      && ParentsAre(g.parent) && ParentNamesAre(g.parentName) && ChildrenAre(g.children)
      && NamesAre(g.names) && SerialsAre(g.serial)
    }

    /** The value and the objects agree. */
    ghost predicate Reflects()
      reads this, graph.parent.Keys, graph.parentName.Keys, graph.children.Keys, graph.names.Keys, graph.serial.Keys
    {
      Mirrored(graph)
    }

    ghost predicate Valid()
      reads this, graph.parent.Keys, graph.parentName.Keys, graph.children.Keys, graph.names.Keys, graph.serial.Keys
    {
      Reflects() && ZoneGraph.Valid(graph)
    }

    constructor (idx: Index)
      ensures Valid() && index == idx && graph == State(map[], map[], map[], map[], map[], map[], map[])
    {
      index, zones, graph := idx, map[], State(map[], map[], map[], map[], map[], map[], map[]);
    }

    method GetZone(key: ZoneKey) returns (z: Zone?)
      ensures Pointer(z) == if key in zones then Some(zones[key]) else None
    {
      z := if key in zones then zones[key] else null;
    }

    method RemoveZone(key: ZoneKey)
      requires Valid()
      modifies this`zones, this`graph
      ensures Valid() && graph == Remove(old(graph), key, AsWritten)
    {
      RemovedAsWritten(graph, key);
      Delete(key);
    }

    method Delete(key: ZoneKey)
      requires Mirrored(graph)
      modifies this`zones, this`graph
      ensures Mirrored(graph) && graph == old(graph).(zones := old(graph).zones - {key})
    {
      zones := zones - {key};
      graph := graph.(zones := zones);
    }

    /** A new zone object in the table. */
    method NewZone(k: ZoneKey, ghost g: State<Zone>) returns (z: Zone)
      requires Mirrored(g)
      modifies this`zones
      ensures fresh(z) && z !in g.key && z.children == map[] && z.key == k
      ensures Mirrored(Registered(g, z, k))
    {
      ghost var objects := g.key.Keys;
      z := new Zone(this, k);
      assert z !in objects;
      zones := zones[k := z];
    }

    /** A new zone becomes the parent of the known zones that name it (lines 99-106). */
    method Adopt(z: Zone, ghost g: State<Zone>)
      returns (ghost ups: map<Zone, Option<Zone>>, ghost kids: map<string, Zone>)
      requires Columns(g) && Tabled(g) && z in g.key && g.children[z] == map[] && Mirrored(g)
      modifies g.parent.Keys`parent, z`children
      ensures AdoptedPart(g, z, z.key, {}, ups, kids)
      ensures Mirrored(g.(parent := ups, children := g.children[z := kids]))
    {
      ups, kids := g.parent, map[];
      AdoptNone(g, z, z.key);
      assert g.children[z := map[]] == g.children;
      var todo := zones.Keys;
      while todo != {}
        invariant todo <= g.zones.Keys && ups.Keys == g.parent.Keys
        invariant AdoptedPart(g, z, z.key, todo, ups, kids)
        invariant Mirrored(g.(parent := ups, children := g.children[z := kids]))
      {
        var k :| k in todo;
        ups, kids := AdoptIfWaiting(z, k, g, todo, ups, kids);
        todo := todo - {k};
      }
    }

    method AdoptIfWaiting(z: Zone, k: ZoneKey, ghost g: State<Zone>, ghost todo: set<ZoneKey>,
                          ghost ups: map<Zone, Option<Zone>>, ghost kids: map<string, Zone>)
      returns (ghost ups1: map<Zone, Option<Zone>>, ghost kids1: map<string, Zone>)
      requires Columns(g) && Tabled(g) && k in todo && k in g.zones && z in g.key
      requires AdoptedPart(g, z, z.key, todo, ups, kids)
      requires Mirrored(g.(parent := ups, children := g.children[z := kids]))
      modifies ups.Keys`parent, z`children
      ensures ups1.Keys == ups.Keys && AdoptedPart(g, z, z.key, todo - {k}, ups1, kids1)
      ensures Mirrored(g.(parent := ups1, children := g.children[z := kids1]))
    {
      var y := zones[k];
      AdoptOne(g, z, z.key, todo, ups, kids, k);
      ups1, kids1 := ups, kids;
      if y.parentName != "" && z.key == k.For(y.parentName) {
        ups1, kids1 := ups[y := Some(z)], kids[k.name := y];
        Take(z, k.name, y, g, ups, kids);
      }
    }

    method Take(z: Zone, n: string, y: Zone, ghost g: State<Zone>,
                ghost ups: map<Zone, Option<Zone>>, ghost kids: map<string, Zone>)
      requires Mirrored(g.(parent := ups, children := g.children[z := kids])) && y in ups
      modifies y`parent, z`children
      ensures Mirrored(g.(parent := ups[y := Some(z)], children := g.children[z := kids[n := y]]))
    {
      ghost var before := g.children[z := kids];
      y.parent := z;
      assert before[z] == z.children;
      z.children := z.children[n := y];
      forall w | w in g.children && w != z ensures g.children[w] == w.children {
        assert before[w] == g.children[w];
      }
    }

    /** Lines 94-107. */
    method Enter(key: ZoneKey, ghost g: State<Zone>) returns (z: Zone)
      requires Mirrored(g) && Closed(g)
      modifies this`zones, g.parent.Keys`parent
      ensures if key in g.zones then z == g.zones[key] else fresh(z) && z !in g.key
      ensures Mirrored(ZoneGraph.Enter(g, z, key))
    {
      if key in zones {
        z := zones[key];
      } else {
        ghost var ups, kids;
        z, ups, kids := Create(key, g);
        AdoptedAll(g, z, key, ups, kids);
      }
    }

    method Create(key: ZoneKey, ghost g: State<Zone>)
      returns (z: Zone, ghost ups: map<Zone, Option<Zone>>, ghost kids: map<string, Zone>)
      requires Mirrored(g) && Columns(g) && Tabled(g) && key !in zones
      modifies this`zones, g.parent.Keys`parent
      ensures fresh(z) && z !in g.key && EnteredSo(g, z, key, ups, kids)
      ensures Mirrored(AfterAdoption(g, z, key, ups, kids))
    {
      z := NewZone(key, g);
      RegisteredTabled(g, z, key);
      ups, kids := Adopt(z, Registered(g, z, key));
    }

    /** Lines 114-118: leave the children of the old parent. */
    method Unlink(z: Zone, name: string, parentRef: string, ghost g: State<Zone>)
      returns (ghost kids: map<Zone, map<string, Zone>>)
      requires Mirrored(g) && z in g.parent
      requires g.parent[z].Some? ==> g.parent[z].value in g.children && g.parent[z].value in g.key
      modifies g.children.Keys`children
      ensures Mirrored(g.(children := kids))
      ensures var o := g.parent[z];
        kids == if o.Some? && g.key[o.value].name != parentRef
                then g.children[o.value := g.children[o.value] - {name}] else g.children
    {
      kids := g.children;
      if z.parent != null {
        if z.parent.key.name != parentRef {
          z.parent.children := z.parent.children - {name};
          kids := kids[z.parent := kids[z.parent] - {name}];
        }
      }
    }

    /** Lines 119-130: be filed with the new one, under the new parent's name. */
    method File(z: Zone, pkey: ZoneKey, ghost g: State<Zone>)
      returns (parent: Zone?, ghost kids: map<Zone, map<string, Zone>>)
      requires Mirrored(g) && (pkey in g.zones ==> g.zones[pkey] in g.children)
      modifies g.children.Keys`children
      ensures Mirrored(g.(children := kids))
      ensures Pointer(parent) == if pkey.name != "" && pkey in g.zones then Some(g.zones[pkey]) else None
      ensures kids == if parent != null then g.children[parent := g.children[parent][pkey.name := z]] else g.children
    {
      parent, kids := null, g.children;
      if pkey.name != "" {
        if pkey in zones {
          parent := zones[pkey];
          parent.children := parent.children[pkey.name := z];
          kids := kids[parent := kids[parent][pkey.name := z]];
        }
      }
    }

    /** The plain fields (lines 108-112 and 131-137). */
    method Assign(z: Zone, parent: Zone?, zone: HostedZone, ghost g: State<Zone>)
      requires Mirrored(g)
      modifies z`serialId, z`parent, z`parentName, z`names
      ensures Mirrored(State(g.zones, g.key, g.parent[z := Pointer(parent)], g.parentName[z := zone.parentRef],
        g.children,
                             g.names[z := ZoneNames(zone)], g.serial[z := SerialOf(zone.resourceVersion)]))
    {
      z.serialId := SerialOf(zone.resourceVersion);
      z.parent := parent;
      z.parentName := zone.parentRef;
      z.names := ZoneNames(zone);
    }

    /** Lines 108-137: a known zone takes over the object's data. */
    method Relink(cluster: string, z: Zone, zone: HostedZone, ghost g: State<Zone>)
      returns (parent: Zone?, ghost kids: map<Zone, map<string, Zone>>, ghost kids1: map<Zone, map<string, Zone>>)
      requires Mirrored(g) && Columns(g) && Anchored(g, DataOf(cluster, zone), z)
      modifies z, g.children.Keys`children
      ensures Refile(g, DataOf(cluster, zone), z, kids, kids1) && Pointer(parent) == ParentOf(g, DataOf(cluster, zone))
      ensures Mirrored(Reassigned(g, DataOf(cluster, zone), z, kids1))
    {
      kids := Unlink(z, zone.name, zone.parentRef, g);
      parent, kids1 := File(z, ZoneKey(cluster, zone.namespace, zone.parentRef), g.(children := kids));
      Assign(z, parent, zone, g.(children := kids1));
    }

    /** The loop over the new zone's ancestors (lines 139-142). It ends when climbing does. */
    method HandUp(serialId: nat, parent: Zone?, ghost g: State<Zone>) returns (ghost n: nat)
      requires Mirrored(g) && Columns(g) && PointersInside(g.parent) && (parent != null ==> parent in g.parent)
      requires Ends(g.parent, Pointer(parent))
      modifies g.serial.Keys`serialId
      ensures Mirrored(g.(serial := Bumped(g.parent, Pointer(parent), serialId, n, g.serial)))
      ensures Climb(g.parent, Pointer(parent), n) == None
    {
      n := Climbing(serialId, parent, g.parent, g.serial);
    }

    method Climbing(serialId: nat, parent: Zone?, ghost parents: map<Zone, Option<Zone>>, ghost before: map<Zone, nat>)
      returns (ghost n: nat)
      requires ParentsAre(parents) && SerialsAre(before)
      requires parents.Keys == before.Keys && PointersInside(parents) && (parent != null ==> parent in parents)
      requires Ends(parents, Pointer(parent))
      modifies before.Keys`serialId
      ensures SerialsAre(Bumped(parents, Pointer(parent), serialId, n, before))
      ensures Climb(parents, Pointer(parent), n) == None
    {
      ghost var o := Pointer(parent);
      ghost var end: nat :| Climb(parents, o, end) == None;
      n := 0;
      var p := parent;
      while p != null
        invariant At(parents, o, n, p) && ParentsAre(parents)
        invariant SerialsAre(Bumped(parents, o, serialId, n, before))
        decreases end - n
      {
        NextUp(parents, o, n, p, end);
        SetSerialId(p, serialId, Bumped(parents, o, serialId, n, before));
        n := n + 1;
        p := p.parent;
      }
    }

    method SetSerialId(z: Zone, serialId: nat, ghost serials: map<Zone, nat>)
      requires SerialsAre(serials)
      modifies z`serialId
      ensures SerialsAre(serials[z := serialId])
    {
      z.serialId := serialId;
    }

    ghost method Record(g: State<Zone>)
      requires Mirrored(g)
      modifies this`graph
      ensures Reflects() && graph == g
    {
      graph := g;
    }

    /** Lines 94-137: all pointers are set. */
    method LinkZone(cluster: string, key: ZoneKey, zone: HostedZone, ghost g: State<Zone>)
      returns (z: Zone, parent: Zone?)
      requires Mirrored(g) && Closed(g) && key == ZoneKey(cluster, zone.namespace, zone.name)
      requires SafeToAdd(g, DataOf(cluster, zone))
      modifies this`zones, g.key.Keys
      ensures if key in g.zones then z == g.zones[key] else fresh(z) && z !in g.key
      ensures var d := DataOf(cluster, zone);
        Pointer(parent) == ParentOf(ZoneGraph.Enter(g, z, key), d) && Walkable(g, z, d)
        && Mirrored(Link(g, z, d, AsWritten))
    {
      ghost var d := DataOf(cluster, zone);
      z := Enter(key, g);
      AfterEnter(g, z, d);
      ghost var kids, kids1;
      parent, kids, kids1 := Relink(cluster, z, zone, ZoneGraph.Enter(g, z, key));
      AfterRelink(g, z, d, kids, kids1);
    }

    /** The loop over the ancestors ends exactly when `SafeToAdd` holds (`WalkEndsIff`). */
    method AddZone(cluster: string, key: ZoneKey, zone: HostedZone) returns (z: Zone)
      requires Valid() && key == ZoneKey(cluster, zone.namespace, zone.name)
      requires SafeToAdd(graph, DataOf(cluster, zone))
      modifies this`zones, this`graph, graph.key.Keys
      ensures if key in old(graph).zones then z == old(graph).zones[key] else fresh(z) && z !in old(graph).key
      ensures graph == Add(old(graph), z, DataOf(cluster, zone), AsWritten) && Valid()
    {
      ghost var g, d := graph, DataOf(cluster, zone);
      var parent;
      z, parent := LinkZone(cluster, key, zone, g);
      ghost var n := HandUp(z.serialId, parent, Link(g, z, d, AsWritten));
      AfterBump(g, z, d, n);
      Record(Add(g, z, d, AsWritten));
    }
  }
}
