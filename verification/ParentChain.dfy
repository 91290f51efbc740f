/** The three loops that follow parent references from zone to zone: `GetRootInfoForEntry` and
    `GetRootInfo` (common/responsibility.go) and `responsibleForEntry` (direct/entry/request.go).
    Each keeps a history to detect cycles. All references stay in one namespace. */
module ParentChain {
  import opened Wrappers
  import opened NameProducts

  datatype ZoneObject = ZoneObject(
    name: string,
    parentRef: string,
    deleting: bool,
    domainNames: seq<string>,
    runtime: Option<string>,
    class_: Option<string>)

  /** The zones of a namespace and the names for which reading them fails temporarily. */
  datatype Store = Store(zones: map<string, ZoneObject>, broken: set<string>)

  datatype Read = Found(zone: ZoneObject) | NotFound | Failed

  function Get(store: Store, n: string): Read {
    if n in store.broken then Failed else if n in store.zones then Found(store.zones[n]) else NotFound
  }

  /** The zone can be read; `live` also asks that it is not being deleted. */
  predicate Readable(store: Store, live: bool, n: string) {
    n !in store.broken && n in store.zones && (live ==> !store.zones[n].deleting)
  }

  /** Why a walk ends. */
  datatype Stop = AtRoot | Cycle(name: string) | Missing(name: string) | Broken(name: string) | Gone(name: string)

  /** `hist` are the zones read so far, each referring to the next, none twice. */
  predicate Walked(store: Store, live: bool, start: string, hist: seq<string>) {
    && (hist != [] ==> hist[0] == start)
    && (forall i {:trigger hist[i]} | 0 <= i < |hist| :: Readable(store, live, hist[i]))
    && (forall i, j {:trigger hist[i], hist[j]} | 0 <= i < j < |hist| :: hist[i] != hist[j])
    && (forall i {:trigger Refers(store, hist, i)} | 0 <= i < |hist| - 1 :: Refers(store, hist, i))
  }

  predicate Refers(store: Store, hist: seq<string>, i: nat)
    requires i + 1 < |hist|
  {
    hist[i] in store.zones && hist[i + 1] != "" && store.zones[hist[i]].parentRef == hist[i + 1]
  }

  /** The zone to be read next, or "". */
  function Next(store: Store, start: string, hist: seq<string>): string {
    if hist == [] then start
    else if hist[|hist| - 1] in store.zones then store.zones[hist[|hist| - 1]].parentRef else ""
  }

  predicate StopsAt(store: Store, live: bool, start: string, hist: seq<string>, stop: Stop) {
    && Walked(store, live, start, hist)
    && var n := Next(store, start, hist);
       match stop
       case AtRoot => hist != [] && n == ""
       case Cycle(m) => m == n && n != "" && n in hist
       case Missing(m) => m == n && n != "" && n !in hist && Get(store, n) == NotFound
       case Broken(m) => m == n && n != "" && n !in hist && Get(store, n) == Failed
       case Gone(m) => m == n && n != "" && n !in hist && Get(store, n).Found? && live && store.zones[n].deleting
  }

  // ----- a walk has one end -----------------------------------------------------------------------

  lemma {:induction false} SameStart(store: Store, live: bool, start: string, g: seq<string>, h: seq<string>, i: nat)
    requires Walked(store, live, start, g) && Walked(store, live, start, h) && i < |g| && i < |h|
    ensures g[i] == h[i]
    decreases i
  {
    if i > 0 {
      SameStart(store, live, start, g, h, i - 1);
      assert Refers(store, g, i - 1) && Refers(store, h, i - 1);
    }
  }

  /** A walk that goes further reads what the shorter one would read next. */
  lemma Continues(store: Store, live: bool, start: string, g: seq<string>, h: seq<string>)
    requires start != "" && Walked(store, live, start, g) && Walked(store, live, start, h) && |g| < |h|
    ensures Next(store, start, g) == h[|g|] != "" && Readable(store, live, h[|g|]) && h[|g|] !in g
  {
    forall i | 0 <= i < |g| ensures g[i] == h[i] {
      SameStart(store, live, start, g, h, i);
    }
    if |g| > 0 { assert Refers(store, h, |g| - 1); }
  }

  lemma NotLonger(store: Store, live: bool, start: string, g: seq<string>, s: Stop, h: seq<string>)
    requires start != "" && StopsAt(store, live, start, g, s) && Walked(store, live, start, h)
    ensures |h| <= |g|
  {
    if |g| < |h| { Continues(store, live, start, g, h); }
  }

  /** From a given zone the walk ends in one way only. */
  lemma StopsOnce(store: Store, live: bool, start: string, g: seq<string>, s: Stop, h: seq<string>, t: Stop)
    requires start != "" && StopsAt(store, live, start, g, s) && StopsAt(store, live, start, h, t)
    ensures g == h && s == t
  {
    NotLonger(store, live, start, g, s, h);
    NotLonger(store, live, start, h, t, g);
    forall i | 0 <= i < |g| ensures g[i] == h[i] {
      SameStart(store, live, start, g, h, i);
    }
  }

  // ----- the chain itself, without a history ------------------------------------------------------------

  /** The `k`-th zone of the parent chain, if the chain gets that far. */
  function Chain(store: Store, live: bool, start: string, k: nat): Option<string> {
    if k == 0 then if Readable(store, live, start) then Some(start) else None
    else
      match Chain(store, live, start, k - 1)
      case None => None
      case Some(n) =>
        var p := if n in store.zones then store.zones[n].parentRef else "";
        if p != "" && Readable(store, live, p) then Some(p) else None
  }

  lemma {:induction false} HistoryIsChain(store: Store, live: bool, start: string, hist: seq<string>, k: nat)
    requires Walked(store, live, start, hist) && k < |hist|
    ensures Chain(store, live, start, k) == Some(hist[k])
    decreases k
  {
    if k > 0 {
      HistoryIsChain(store, live, start, hist, k - 1);
      assert Refers(store, hist, k - 1);
    }
  }

  /** A cycle is walked round and round. */
  lemma {:induction false} CycleGoesOn(store: Store, live: bool, start: string, hist: seq<string>, m: string, k: nat)
    requires StopsAt(store, live, start, hist, Cycle(m))
    ensures Chain(store, live, start, k).Some? && Chain(store, live, start, k).value in hist
    decreases k
  {
    if k == 0 {
      assert hist[0] == start;
    } else {
      CycleGoesOn(store, live, start, hist, m, k - 1);
      var n := Chain(store, live, start, k - 1).value;
      var i :| 0 <= i < |hist| && hist[i] == n;
      if i + 1 < |hist| { assert Refers(store, hist, i); }
    }
  }

  lemma EndsBehind(store: Store, live: bool, start: string, hist: seq<string>, stop: Stop)
    requires start != "" && StopsAt(store, live, start, hist, stop) && !stop.Cycle?
    ensures Chain(store, live, start, |hist|) == None
  {
    if hist != [] {
      HistoryIsChain(store, live, start, hist, |hist| - 1);
    }
  }

  /** A cycle is reported exactly when the chain never comes to an end. */
  lemma CycleIff(store: Store, live: bool, start: string, hist: seq<string>, stop: Stop)
    requires start != "" && StopsAt(store, live, start, hist, stop)
    ensures stop.Cycle? <==> forall k: nat :: Chain(store, live, start, k).Some?
  {
    if stop.Cycle? {
      forall k: nat ensures Chain(store, live, start, k).Some? {
        CycleGoesOn(store, live, start, hist, stop.name, k);
      }
    } else {
      EndsBehind(store, live, start, hist, stop);
    }
  }

  lemma {:induction false} ChainShrinks(store: Store, live: bool, start: string, k: nat, l: nat)
    requires k <= l && Chain(store, live, start, l).Some?
    ensures Chain(store, live, start, k).Some?
    decreases l
  {
    if k < l { ChainShrinks(store, live, start, k, l - 1); }
  }

  /** A root is reported exactly when the chain has one, and it is that one. */
  lemma RootIff(store: Store, live: bool, start: string, hist: seq<string>, stop: Stop, r: string)
    requires start != "" && StopsAt(store, live, start, hist, stop)
    ensures stop == AtRoot && hist[|hist| - 1] == r <==>
      exists k: nat :: Chain(store, live, start, k) == Some(r) && r in store.zones && store.zones[r].parentRef == ""
  {
    if stop == AtRoot && hist[|hist| - 1] == r {
      HistoryIsChain(store, live, start, hist, |hist| - 1);
    }
    if k: nat :| Chain(store, live, start, k) == Some(r) && r in store.zones && store.zones[r].parentRef == "" {
      assert Chain(store, live, start, k + 1) == None;
      if stop.Cycle? {
        CycleGoesOn(store, live, start, hist, stop.name, k + 1);
      } else {
        EndsBehind(store, live, start, hist, stop);
        if |hist| <= k { ChainShrinks(store, live, start, |hist|, k); }
        HistoryIsChain(store, live, start, hist, k);
        if k < |hist| - 1 { HistoryIsChain(store, live, start, hist, k + 1); }
      }
    }
  }

  // ----- the loops ------------------------------------------------------------------------------------

  lemma {:induction false} HistoryFits(hist: seq<string>, names: set<string>)
    requires forall i | 0 <= i < |hist| :: hist[i] in names
    requires forall i, j | 0 <= i < j < |hist| :: hist[i] != hist[j]
    ensures |hist| <= |names|
    decreases |hist|
  {
    if hist != [] {
      var k := |hist| - 1;
      HistoryFits(hist[..k], names - {hist[k]});
    }
  }

  /** One more zone read: the history grows and stays within the names of the store. */
  lemma OneMoreZone(store: Store, live: bool, start: string, hist: seq<string>, n: string)
    requires Walked(store, live, start, hist) && n == Next(store, start, hist) && n != "" && n !in hist
    requires Readable(store, live, n)
    ensures Walked(store, live, start, hist + [n]) && |hist| < |store.zones.Keys|
  {
    var h := hist + [n];
    forall i | 0 <= i < |h| - 1 ensures Refers(store, h, i) {
      if i < |hist| - 1 { assert Refers(store, hist, i); }
    }
    forall i | 0 <= i < |h| ensures h[i] in store.zones.Keys {
      assert Readable(store, live, h[i]);
    }
    HistoryFits(h, store.zones.Keys);
  }

  /** Objects are stored under their names. */
  predicate WellKeyed(store: Store) {
    forall n {:trigger store.zones[n]} | n in store.zones :: store.zones[n].name == n
  }

  /** `Responsibility`, a configuration problem or a temporary one. */
  datatype Verdict =
    | Info(root: string, parent: Option<string>, runtime: Option<string>, class_: Option<string>)
    | ConfigProblem(stop: Stop)
    | TemporaryProblem(name: string)

  /** What a walk amounts to; `first` is the position of the zone reported as parent. */
  predicate Reported(store: Store, hist: seq<string>, stop: Stop, first: nat, v: Verdict) {
    match stop
    case AtRoot =>
      hist != [] && hist[|hist| - 1] in store.zones
      && var root := store.zones[hist[|hist| - 1]];
         v == Info(root.name, if first < |hist| then Some(hist[first]) else None, root.runtime, root.class_)
    case Broken(m) => v == TemporaryProblem(m)
    case _ => v == ConfigProblem(stop)
  }

  /** The verdict on the walk from `start`, the zone at `first` reported as parent. Since a walk stops
      in one way only, there is one verdict. */
  ghost predicate WalkSays(store: Store, live: bool, start: string, first: nat, v: Verdict) {
    exists hist, stop :: StopsAt(store, live, start, hist, stop) && Reported(store, hist, stop, first, v)
  }

  lemma OneVerdict(store: Store, live: bool, start: string, first: nat, v: Verdict, w: Verdict)
    requires start != "" && WalkSays(store, live, start, first, v) && WalkSays(store, live, start, first, w)
    ensures v == w
  {
    var g, s :| StopsAt(store, live, start, g, s) && Reported(store, g, s, first, v);
    var h, t :| StopsAt(store, live, start, h, t) && Reported(store, h, t, first, w);
    StopsOnce(store, live, start, g, s, h, t);
  }

  /** Told by the chain alone: there is an information exactly if the chain has a root; it holds that
      root with its runtime and class, and the zone `first` steps up the chain. */
  lemma VerdictIff(store: Store, live: bool, start: string, first: nat, v: Verdict, r: string)
    requires start != "" && WellKeyed(store) && WalkSays(store, live, start, first, v)
    ensures v.Info? && v.root == r <==>
      exists k: nat :: Chain(store, live, start, k) == Some(r) && r in store.zones && store.zones[r].parentRef == ""
    ensures v.Info? ==>
      v.root in store.zones && v.runtime == store.zones[v.root].runtime && v.class_ == store.zones[v.root].class_
      && v.parent == Chain(store, live, start, first)
    ensures v.ConfigProblem? && v.stop.Cycle? <==> forall k: nat :: Chain(store, live, start, k).Some?
    ensures v.TemporaryProblem? ==> v.name in store.broken
    ensures v.ConfigProblem? && v.stop.Missing? ==> v.stop.name !in store.broken && v.stop.name !in store.zones
    ensures v.ConfigProblem? && v.stop.Gone? ==>
      live && v.stop.name !in store.broken && v.stop.name in store.zones && store.zones[v.stop.name].deleting
  {
    var hist, stop :| StopsAt(store, live, start, hist, stop) && Reported(store, hist, stop, first, v);
    RootIff(store, live, start, hist, stop, r);
    CycleIff(store, live, start, hist, stop);
    if stop == AtRoot {
      assert store.zones[hist[|hist| - 1]].name == hist[|hist| - 1];
      if first < |hist| {
        HistoryIsChain(store, live, start, hist, first);
      } else {
        EndsBehind(store, live, start, hist, stop);
        if Chain(store, live, start, first).Some? { ChainShrinks(store, live, start, |hist|, first); }
      }
    }
  }

  predicate AllKnown(store: Store, hist: seq<string>) {
    forall i {:trigger hist[i]} | 0 <= i < |hist| :: hist[i] in store.zones
  }

  /** `GetRootInfoForEntry` (lines 50-83). Its caller passes no empty name; the loop would not run
      and the source dereference nil. */
  method GetRootInfoForEntry(store: Store, start: string) returns (v: Verdict)
    requires start != "" && WellKeyed(store)
    ensures WalkSays(store, true, start, 0, v)
  {
    var seen: seq<string> := [];
    var zone := start;
    var parent, root := None, None;
    while zone != ""
      invariant Walked(store, true, start, seen) && AllKnown(store, seen)
      invariant zone == Next(store, start, seen)
      invariant seen != [] ==> parent == Some(store.zones[seen[0]]) && root == Some(store.zones[seen[|seen| - 1]])
      invariant seen == [] ==> parent == None
      decreases |store.zones.Keys| - |seen|
    {
      if zone in seen {
        assert StopsAt(store, true, start, seen, Cycle(zone));
        return ConfigProblem(Cycle(zone));
      }
      match Get(store, zone)
      case NotFound =>
        assert StopsAt(store, true, start, seen, Missing(zone));
        return ConfigProblem(Missing(zone));
      case Failed =>
        assert StopsAt(store, true, start, seen, Broken(zone));
        return TemporaryProblem(zone);
      case Found(found) =>
        if found.deleting {
          assert StopsAt(store, true, start, seen, Gone(zone));
          return ConfigProblem(Gone(zone));
        }
        if parent == None {
          parent := Some(found);
        }
        root := Some(found);
        OneMoreZone(store, true, start, seen, zone);
        seen := seen + [zone];
        zone := found.parentRef;
    }
    var r := root.value;
    assert StopsAt(store, true, start, seen, AtRoot);
    return Info(r.name, Some(parent.value.name), r.runtime, r.class_);
  }

  /** The store as `GetRootInfo` sees it: the object it was given stands for its zone, read before
      and not asked whether it is being deleted. */
  function Given(store: Store, obj: ZoneObject): Store {
    Store(store.zones[obj.name := obj.(deleting := false)], store.broken - {obj.name})
  }

  function NamesAlong(store: Store, hist: seq<string>): (r: seq<seq<string>>)
    requires AllKnown(store, hist)
    ensures |r| == |hist| && forall i {:trigger r[i]} | 0 <= i < |r| :: r[i] == store.zones[hist[i]].domainNames
  {
    seq(|hist|, i requires 0 <= i < |hist| => store.zones[hist[i]].domainNames)
  }

  lemma {:induction false} UpOneMore(names: seq<string>, zones: seq<seq<string>>, zone: seq<string>)
    ensures Up(names, zones + [zone]) == Aggregate(Up(names, zones), zone)
    decreases |zones|
  {
    var all := zones + [zone];
    if zones == [] {
      assert all[0] == zone && all[1..] == [];
    } else {
      assert all[0] == zones[0] && all[1..] == zones[1..] + [zone];
      UpOneMore(Aggregate(names, zones[0]), zones[1..], zone);
    }
  }

  lemma NamesOneMore(store: Store, hist: seq<string>, n: string, names: seq<string>)
    requires AllKnown(store, hist) && n in store.zones
    ensures AllKnown(store, hist + [n])
    ensures Up(names, NamesAlong(store, hist + [n])) ==
      Aggregate(Up(names, NamesAlong(store, hist)), store.zones[n].domainNames)
  {
    UpOneMore(names, NamesAlong(store, hist), store.zones[n].domainNames);
    assert NamesAlong(store, hist + [n]) == NamesAlong(store, hist) + [store.zones[n].domainNames];
  }

  /** The loop of `GetRootInfo` has come to `obj`, the last zone of `hist`. */
  predicate Reached(s: Store, start: string, hist: seq<string>, obj: ZoneObject, direct: Option<string>,
                    dnsnames: seq<string>, names: seq<string>) {
    && Walked(s, true, start, hist) && AllKnown(s, hist) && hist != []
    && obj.name == hist[|hist| - 1] && obj.(deleting := false) == s.zones[obj.name]
    && direct == (if |hist| > 1 then Some(hist[1]) else None)
    && names == Up(dnsnames, NamesAlong(s, hist))
  }

  lemma ReachStart(store: Store, obj: ZoneObject, dnsnames: seq<string>)
    ensures Reached(Given(store, obj), obj.name, [obj.name], obj, None, dnsnames, Aggregate(dnsnames, obj.domainNames))
  {
    var s := Given(store, obj);
    NamesOneMore(s, [], obj.name, dnsnames);
    assert [] + [obj.name] == [obj.name];
  }

  lemma ReachNext(s: Store, start: string, hist: seq<string>, obj: ZoneObject, direct: Option<string>,
                  dnsnames: seq<string>, names: seq<string>, parent: ZoneObject)
    requires Reached(s, start, hist, obj, direct, dnsnames, names)
    requires parent.name == obj.parentRef != "" && parent.name !in hist && Readable(s, true, parent.name)
    requires parent == s.zones[parent.name]
    ensures |hist| < |s.zones.Keys|
    ensures Reached(s, start, hist + [parent.name], parent, if direct == None then Some(parent.name) else direct,
                    dnsnames, Aggregate(names, parent.domainNames))
  {
    OneMoreZone(s, true, start, hist, parent.name);
    NamesOneMore(s, hist, parent.name, dnsnames);
  }

  /** The verdict on the walk from the given object, and its names times those of all zones read. */
  ghost predicate RootInfoSays(store: Store, given: ZoneObject, dnsnames: seq<string>, v: Verdict, names: seq<string>) {
    var s := Given(store, given);
    exists hist, stop :: StopsAt(s, true, given.name, hist, stop)
      && Reported(s, hist, stop, 1, v) && AllKnown(s, hist) && names == Up(dnsnames, NamesAlong(s, hist))
  }

  /** `GetRootInfo` (lines 92-125), with the names multiplied up on the way. */
  method GetRootInfo(store: Store, given: ZoneObject, dnsnames: seq<string>)
    returns (v: Verdict, names: seq<string>)
    requires WellKeyed(store)
    ensures RootInfoSays(store, given, dnsnames, v, names)
  {
    ghost var s := Given(store, given);
    var obj := given;
    var direct: Option<string> := None;
    var seen: seq<string> := [];
    ghost var hist := [given.name];
    ReachStart(store, given, dnsnames);
    names := AggregateNames(obj.domainNames, dnsnames);
    while obj.parentRef != ""
      invariant Reached(s, given.name, hist, obj, direct, dnsnames, names)
      invariant hist == seen + [obj.name]
      decreases |s.zones.Keys| - |hist|
    {
      seen := seen + [obj.name];
      var p := obj.parentRef;
      if p in seen {
        assert StopsAt(s, true, given.name, hist, Cycle(p));
        return ConfigProblem(Cycle(p)), names;
      }
      match Get(store, p)
      case NotFound =>
        assert StopsAt(s, true, given.name, hist, Missing(p));
        return ConfigProblem(Missing(p)), names;
      case Failed =>
        assert StopsAt(s, true, given.name, hist, Broken(p));
        return TemporaryProblem(p), names;
      case Found(parent) =>
        if parent.deleting {
          assert StopsAt(s, true, given.name, hist, Gone(p));
          return ConfigProblem(Gone(p)), names;
        }
        ReachNext(s, given.name, hist, obj, direct, dnsnames, names, parent);
        if direct == None {
          direct := Some(parent.name);
        }
        obj, hist := parent, hist + [p];
        names := AggregateNames(obj.domainNames, names);
    }
    assert StopsAt(s, true, given.name, hist, AtRoot);
    return Info(obj.name, direct, obj.runtime, obj.class_), names;
  }

  /** What `responsibleForEntry` returns beside a failed read. */
  datatype EntryZone = EntryZone(zone: Option<string>, root: Option<string>, error: Option<Stop>)

  function EntryZoneOf(hist: seq<string>, stop: Stop): Option<EntryZone> {
    if stop.Broken? then None
    else Some(EntryZone(if hist == [] then None else Some(hist[0]),
                        if stop == AtRoot && hist != [] then Some(hist[|hist| - 1]) else None,
                        if stop == AtRoot then None else Some(stop)))
  }

  /** `responsibleForEntry` (direct/entry/request.go, lines 111-144): it reads first and asks after
      the history later, and does not mind zones being deleted. */
  method ResponsibleForEntry(store: Store, start: string)
    returns (r: Option<EntryZone>)
    requires start != "" && WellKeyed(store)
    ensures exists hist, stop :: StopsAt(store, false, start, hist, stop) && r == EntryZoneOf(hist, stop)
  {
    var seen: seq<string> := [];
    var n := start;
    var first: Option<string> := None;
    while true
      invariant Walked(store, false, start, seen) && AllKnown(store, seen)
      invariant n == Next(store, start, seen) && n != "" && n !in seen
      invariant first == if seen == [] then None else Some(seen[0])
      decreases |store.zones.Keys| - |seen|
    {
      match Get(store, n)
      case NotFound =>
        assert StopsAt(store, false, start, seen, Missing(n));
        return Some(EntryZone(first, None, Some(Missing(n))));
      case Failed =>
        assert StopsAt(store, false, start, seen, Broken(n));
        return None;
      case Found(zone) =>
        if first == None {
          first := Some(zone.name);
        }
        OneMoreZone(store, false, start, seen, n);
        seen := seen + [n];
        if zone.parentRef == "" {
          assert StopsAt(store, false, start, seen, AtRoot);
          return Some(EntryZone(first, Some(zone.name), None));
        }
        if zone.parentRef in seen {
          assert StopsAt(store, false, start, seen, Cycle(zone.parentRef));
          return Some(EntryZone(first, None, Some(Cycle(zone.parentRef))));
        }
        n := zone.parentRef;
    }
  }

  // ----- the walks agree --------------------------------------------------------------------------------

  predicate NoneDeleting(store: Store, hist: seq<string>) {
    forall n | n in hist && n in store.zones :: !store.zones[n].deleting
  }

  lemma LiveWalk(store: Store, start: string, hist: seq<string>)
    requires Walked(store, true, start, hist)
    ensures NoneDeleting(store, hist)
  {
    forall n | n in hist && n in store.zones ensures !store.zones[n].deleting {
      var i :| 0 <= i < |hist| && hist[i] == n;
      assert Readable(store, true, hist[i]);
    }
  }

  /** The walk that asks for deletion and the one that does not end alike exactly when no zone on the
      way is being deleted. */
  lemma WalksAgreeIff(store: Store, start: string, g: seq<string>, s: Stop, h: seq<string>, t: Stop)
    requires start != "" && StopsAt(store, true, start, g, s) && StopsAt(store, false, start, h, t)
    ensures g == h && s == t <==> NoneDeleting(store, h)
  {
    LiveWalk(store, start, g);
    if NoneDeleting(store, h) {
      assert Walked(store, true, start, h) by {
        forall i | 0 <= i < |h| - 1 ensures Refers(store, h, i) { assert Refers(store, h, i); }
      }
      StopsOnce(store, true, start, g, s, h, t);
    }
  }

  /** Given an object as it is stored and not being deleted, `GetRootInfo` walks the store itself. */
  lemma GivenIsStored(store: Store, n: string)
    requires WellKeyed(store) && n in store.zones && n !in store.broken && !store.zones[n].deleting
    ensures Given(store, store.zones[n]) == store
  {
    assert store.zones[n := store.zones[n]] == store.zones;
  }

  lemma ReadsStart(store: Store, live: bool, start: string, hist: seq<string>, stop: Stop)
    requires start != "" && StopsAt(store, live, start, hist, stop) && Readable(store, live, start)
    ensures hist != [] && hist[0] == start
  {
  }

  /** What is read on the way from `start` when deletion is not asked for. */
  ghost predicate UndisturbedFrom(store: Store, start: string) {
    forall hist, stop | StopsAt(store, false, start, hist, stop) :: NoneDeleting(store, hist)
  }

  /** For a stored zone with no deletion on the way the three loops say the same: one root, with one
      runtime and class, or one problem. */
  lemma LoopsAgree(store: Store, n: string, v: Verdict, w: Verdict, dnsnames: seq<string>, names: seq<string>,
                   r: Option<EntryZone>)
    requires WellKeyed(store) && n != "" && n in store.zones && n !in store.broken && !store.zones[n].deleting
    requires UndisturbedFrom(store, n)
    requires WalkSays(store, true, n, 0, v) && RootInfoSays(store, store.zones[n], dnsnames, w, names)
    requires exists hist, stop :: StopsAt(store, false, n, hist, stop) && r == EntryZoneOf(hist, stop)
    ensures if v.Info? then w.Info? && w == v.(parent := w.parent) && r == Some(EntryZone(Some(n), Some(v.root), None))
            else v == w && (if v.TemporaryProblem? then r == None
              else r == Some(EntryZone(Some(n), None, Some(v.stop))))
  {
    GivenIsStored(store, n);
    var g, s :| StopsAt(store, true, n, g, s) && Reported(store, g, s, 0, v);
    var h, t :| StopsAt(store, true, n, h, t) && Reported(store, h, t, 1, w);
    var f, u :| StopsAt(store, false, n, f, u) && r == EntryZoneOf(f, u);
    StopsOnce(store, true, n, g, s, h, t);
    WalksAgreeIff(store, n, g, s, f, u);
    ReadsStart(store, true, n, g, s);
    if s == AtRoot { assert store.zones[g[|g| - 1]].name == g[|g| - 1]; }
  }
}
