/** `DeleteExternalResources` (direct/hostedzone/delete.go): what must have happened before the
    finalizer of a zone goes. The names of resources tell their clusters apart. */
module ZoneCleanup {
  import opened Wrappers
  import opened DirectZone

  type Resources = map<string, Resource>

  /** The resources that cannot be read, and those the API server refuses to delete. */
  datatype Faults = Faults(unreadable: set<string>, undeletable: set<string>)

  /** `DeleteManifest` (request.go, lines 517-550): nothing to do, a problem, or a deletion request. */
  function DeletedOne(rs: Resources, n: string, faults: Faults): Resources {
    if Troubles(rs, n, faults) then rs else Removed(rs, n)
  }

  /** Reading fails, or the resource is still being deleted, or deleting it fails. */
  predicate Troubles(rs: Resources, n: string, faults: Faults) {
    n in faults.unreadable || (n in rs && (rs[n].deleting || n in faults.undeletable))
  }

  function DeletedAll(rs: Resources, ns: seq<string>, faults: Faults): Resources
    decreases |ns|
  {
    if ns == [] then rs else DeletedAll(DeletedOne(rs, ns[0], faults), ns[1..], faults)
  }

  /** Some deletion of the loop is a problem at its turn. */
  predicate TroubleIn(rs: Resources, ns: seq<string>, faults: Faults)
    decreases |ns|
  {
    ns != [] && (Troubles(rs, ns[0], faults) || TroubleIn(DeletedOne(rs, ns[0], faults), ns[1..], faults))
  }

  predicate SameAt(rs: Resources, rs1: Resources, n: string) {
    (n in rs <==> n in rs1) && (n in rs ==> rs[n] == rs1[n])
  }

  /** A loop over manifests treats each as if it came first and touches nothing else, even if some of
      them name the same resource. */
  lemma {:induction false} DeletedAllAt(rs: Resources, ns: seq<string>, faults: Faults, n: string)
    ensures SameAt(DeletedAll(rs, ns, faults), if n in ns then DeletedOne(rs, n, faults) else rs, n)
    decreases |ns|
  {
    if ns != [] {
      var rs1 := DeletedOne(rs, ns[0], faults);
      assert n in ns <==> n == ns[0] || n in ns[1..];
      DeletedAllAt(rs1, ns[1..], faults, n);
    }
  }

  /** Several manifests name the resource. */
  predicate Repeated(ns: seq<string>, n: string) {
    multiset(ns)[n] > 1
  }

  /** In trouble, or deleted twice in a row and held by others after the first time. */
  predicate Stuck(rs: Resources, n: string, again: bool, faults: Faults) {
    Troubles(rs, n, faults) || (again && n in rs && rs[n].finalizers != {})
  }

  /** A loop has no problem exactly when none of its resources is stuck at its beginning. */
  lemma {:induction false} TroubleIff(rs: Resources, ns: seq<string>, faults: Faults)
    ensures TroubleIn(rs, ns, faults) <==> exists n :: n in ns && Stuck(rs, n, Repeated(ns, n), faults)
    decreases |ns|
  {
    if ns != [] {
      var rs1, rest := DeletedOne(rs, ns[0], faults), ns[1..];
      TroubleIff(rs1, rest, faults);
      assert ns == [ns[0]] + rest;
      if !Troubles(rs, ns[0], faults) {
        forall n | n in rest
          ensures Stuck(rs1, n, Repeated(rest, n), faults) <==> Stuck(rs, n, Repeated(ns, n), faults)
        {
          assert multiset(ns)[n] == multiset(rest)[n] + if n == ns[0] then 1 else 0;
        }
        assert ns[0] !in rest ==> !Stuck(rs, ns[0], Repeated(ns, ns[0]), faults);
      } else {
        assert Stuck(rs, ns[0], Repeated(ns, ns[0]), faults);
      }
      assert forall n :: n in ns <==> n == ns[0] || n in rest;
    }
  }

  /** After a loop without problems every resource of the manifests is gone or going. */
  lemma GoneAfterwards(rs: Resources, ns: seq<string>, faults: Faults, n: string)
    requires !TroubleIn(rs, ns, faults) && n in ns
    ensures var rs1 := DeletedAll(rs, ns, faults);
      n in rs1 ==> rs1[n].deleting && n in rs && rs[n].finalizers != {}
  {
    TroubleIff(rs, ns, faults);
    assert !Stuck(rs, n, Repeated(ns, n), faults);
    DeletedAllAt(rs, ns, faults, n);
  }

  /** A second loop over the same manifests succeeds exactly when the first left nothing behind. */
  lemma SecondLoopIff(rs: Resources, ns: seq<string>, faults: Faults)
    requires !TroubleIn(rs, ns, faults)
    ensures !TroubleIn(DeletedAll(rs, ns, faults), ns, faults) <==>
      forall n | n in ns && n in rs :: rs[n].finalizers == {}
  {
    var rs1 := DeletedAll(rs, ns, faults);
    TroubleIff(rs, ns, faults);
    TroubleIff(rs1, ns, faults);
    forall n | n in ns
      ensures Stuck(rs1, n, Repeated(ns, n), faults) <==> n in rs && rs[n].finalizers != {}
    {
      assert !Stuck(rs, n, Repeated(ns, n), faults);
      DeletedAllAt(rs, ns, faults, n);
    }
  }

  // ----- the loops in a row -------------------------------------------------------------------------------

  lemma {:induction false} OneLoop(rs: Resources, ns: seq<string>, ms: seq<string>, faults: Faults)
    ensures DeletedAll(rs, ns + ms, faults) == DeletedAll(DeletedAll(rs, ns, faults), ms, faults)
    ensures TroubleIn(rs, ns + ms, faults) <==>
      TroubleIn(rs, ns, faults) || TroubleIn(DeletedAll(rs, ns, faults), ms, faults)
    decreases |ns|
  {
    var all := ns + ms;
    if ns == [] {
      assert all == ms;
    } else {
      assert all[0] == ns[0] && all[1..] == ns[1..] + ms;
      OneLoop(DeletedOne(rs, ns[0], faults), ns[1..], ms, faults);
    }
  }

  /** The deletions in front: those of a kind of which there are DNS manifests. */
  function Early(xs: seq<string>, ys: seq<string>, a: bool, b: bool): seq<string> {
    (if a then xs else []) + (if b then ys else [])
  }

  /** A resource is deleted more than once: a first time because there are DNS manifests of its kind, or
      because several manifests name it. */
  predicate Again(xs: seq<string>, ys: seq<string>, a: bool, b: bool, n: string) {
    (a && n in xs) || (b && n in ys) || Repeated(xs + ys, n)
  }

  lemma RepeatedIff(xs: seq<string>, ys: seq<string>, a: bool, b: bool, n: string)
    requires n in xs + ys
    ensures Repeated(Early(xs, ys, a, b) + (xs + ys), n) <==> Again(xs, ys, a, b, n)
  {
    var early, late := Early(xs, ys, a, b), xs + ys;
    assert multiset(early + late) == multiset(early) + multiset(late);
    assert n in multiset(late) && (n in early <==> n in multiset(early));
    assert n in early <==> (a && n in xs) || (b && n in ys);
  }

  /** Neither kind is stuck. */
  ghost predicate Clear(rs: Resources, xs: seq<string>, ys: seq<string>, a: bool, b: bool, faults: Faults) {
    forall n | n in xs + ys :: !Stuck(rs, n, Again(xs, ys, a, b, n), faults)
  }

  /** All deletions together have no problem exactly when every resource is clear at the start. */
  lemma CleanupIff(rs: Resources, xs: seq<string>, ys: seq<string>, a: bool, b: bool, faults: Faults)
    ensures !TroubleIn(rs, Early(xs, ys, a, b) + (xs + ys), faults) <==> Clear(rs, xs, ys, a, b, faults)
  {
    var all := Early(xs, ys, a, b) + (xs + ys);
    TroubleIff(rs, all, faults);
    forall n | n in xs + ys ensures Repeated(all, n) <==> Again(xs, ys, a, b, n) {
      RepeatedIff(xs, ys, a, b, n);
    }
    assert forall n :: n in all <==> n in xs + ys;
  }

  /** Spelled out: every resource can be read, and if it is there it is not being deleted, can be deleted
      and, where it is deleted again, is held by nobody. */
  lemma ClearIff(rs: Resources, xs: seq<string>, ys: seq<string>, a: bool, b: bool, faults: Faults)
    ensures Clear(rs, xs, ys, a, b, faults) <==>
      forall n | n in xs || n in ys ::
        n !in faults.unreadable
        && (n in rs ==>
              !rs[n].deleting && n !in faults.undeletable
              && ((a && n in xs) || (b && n in ys) || multiset(xs)[n] + multiset(ys)[n] > 1 ==> rs[n].finalizers == {}))
  {
    assert multiset(xs + ys) == multiset(xs) + multiset(ys);
    assert forall n :: n in xs + ys <==> n in xs || n in ys;
  }

  // ----- the end of a cleanup -------------------------------------------------------------------------------

  const NO_FAULTS := Faults({}, {})

  function Deletes(n: nat): (steps: seq<Step>)
    ensures |steps| == n && forall i | 0 <= i < n :: steps[i] == Delete
  {
    seq(n, _ => Delete)
  }

  lemma {:induction false} DeletesRun(c: Config, w: World, target: Option<Zone>, plan: seq<string>, failed: bool)
    requires w.phase == Cleaning(target, plan, failed)
    ensures Leads(c, w, Deletes(|plan|),
                  World(w.zone, DeletedAll(w.resources, plan, NO_FAULTS),
                        Cleaning(target, [], failed || TroubleIn(w.resources, plan, NO_FAULTS))))
    decreases |plan|
  {
    if plan != [] {
      var w1 := Next(c, w, Delete);
      DeletesRun(c, w1, target, plan[1..], failed || Troubles(w.resources, plan[0], NO_FAULTS));
      LeadsOne(c, w, Delete);
      LeadsOn(c, w, [Delete], w1, Deletes(|plan| - 1),
              World(w.zone, DeletedAll(w1.resources, plan[1..], NO_FAULTS),
                    Cleaning(target, [], failed || TroubleIn(w.resources, plan, NO_FAULTS))));
      assert [Delete] + Deletes(|plan| - 1) == Deletes(|plan|);
    }
  }

  /** A zone with the finalizer that is being deleted or has changed responsibility: an undisturbed
      request gives the finalizer back exactly if no resource is still being deleted, and none that is
      named twice is held by others. A zone being deleted vanishes with its last finalizer. */
  lemma RequestReleases(c: Config, w: World, plan: seq<string>) returns (steps: seq<Step>, w1: World)
    requires w.phase.Idle? && w.zone.Some? && Covers(c, plan)
    requires var z := w.zone.value;
      c.finalizer in z.finalizers && (z.deleting || z.nested || z.observed == Some(false))
    ensures Leads(c, w, steps, w1) && w1.phase.Idle? && w1.resources == DeletedAll(w.resources, plan, NO_FAULTS)
    ensures |steps| <= |plan| + 4 && forall s | s in steps :: s in [Begin, Decided(plan), Delete, Conclude, Finish]
    ensures var z := w.zone.value;
      var rest := z.finalizers - {c.finalizer};
      if exists n :: n in plan && n in w.resources
           && (w.resources[n].deleting || (multiset(plan)[n] > 1 && w.resources[n].finalizers != {}))
      then w1.zone == w.zone
      else w1.zone == if z.deleting && rest == {} then None else Some(z.(finalizers := rest))
  {
    var z := w.zone.value;
    var start, mid := [Begin, Decided(plan)], Deletes(|plan|);
    var failed := TroubleIn(w.resources, plan, NO_FAULTS);
    var wc := w.(phase := Cleaning(Some(z), plan, false));
    var wd := World(w.zone, DeletedAll(w.resources, plan, NO_FAULTS), Cleaning(Some(z), [], failed));
    DecideIff(c, z);
    Decides(c, w, plan);
    DeletesRun(c, wc, Some(z), plan, false);
    LeadsOn(c, w, start, wc, mid, wd);
    var we := Next(c, wd, Conclude);
    LeadsOne(c, wd, Conclude);
    LeadsOn(c, w, start + mid, wd, [Conclude], we);
    TroubleIff(w.resources, plan, NO_FAULTS);
    if failed {
      steps, w1 := start + mid + [Conclude], we;
    } else {
      w1 := Next(c, we, Finish);
      steps := start + mid + [Conclude] + [Finish];
      LeadsOne(c, we, Finish);
      LeadsOn(c, w, start + mid + [Conclude], we, [Finish], w1);
    }
    forall n ensures Stuck(w.resources, n, Repeated(plan, n), NO_FAULTS) <==>
      (n in w.resources && (w.resources[n].deleting || (multiset(plan)[n] > 1 && w.resources[n].finalizers != {})))
    {
    }
  }

  /** A zone that has vanished: its resources are deleted all the same. */
  lemma VanishedCleans(c: Config, w: World, plan: seq<string>)
    requires w.phase.Idle? && w.zone.None? && Covers(c, plan)
    ensures Leads(c, w, [BeginVanished(plan)] + Deletes(|plan|) + [Conclude],
                  World(None, DeletedAll(w.resources, plan, NO_FAULTS), Idle))
  {
    var w1 := w.(phase := Cleaning(None, plan, false));
    var w2 := World(None, DeletedAll(w.resources, plan, NO_FAULTS),
                    Cleaning(None, [], TroubleIn(w.resources, plan, NO_FAULTS)));
    LeadsOne(c, w, BeginVanished(plan));
    DeletesRun(c, w1, None, plan, false);
    LeadsOn(c, w, [BeginVanished(plan)], w1, Deletes(|plan|), w2);
    LeadsOne(c, w2, Conclude);
    LeadsOn(c, w, [BeginVanished(plan)] + Deletes(|plan|), w2, [Conclude], Next(c, w2, Conclude));
  }

  /** What a single deletion leaves behind. */
  lemma DeletedMeans(rs: Resources, n: string, faults: Faults)
    ensures var rs1 := DeletedOne(rs, n, faults);
      if n in faults.unreadable || n !in rs || rs[n].deleting || n in faults.undeletable then rs1 == rs
      else if rs[n].finalizers == {} then rs1 == rs - {n}
      else rs1 == rs[n := rs[n].(deleting := true)]
  {
  }

  class ExternalResources {
    var resources: Resources

    constructor (rs: Resources)
      ensures resources == rs
    {
      resources := rs;
    }

    method DeleteManifest(n: string, faults: Faults) returns (problem: bool)
      modifies this
      ensures resources == DeletedOne(old(resources), n, faults)
      ensures problem <==> Troubles(old(resources), n, faults)
    {
      if n in faults.unreadable {
        return true;
      }
      if n !in resources {
        return false;
      }
      if resources[n].deleting {
        return true;
      }
      if n in faults.undeletable {
        return true;
      }
      resources := Removed(resources, n);
      return false;
    }

    method DeleteManifests(ns: seq<string>, faults: Faults, before: bool) returns (problem: bool)
      modifies this
      ensures resources == DeletedAll(old(resources), ns, faults)
      ensures problem <==> before || TroubleIn(old(resources), ns, faults)
    {
      problem := before;
      ghost var start := resources;
      assert ns[0..] == ns;
      for i := 0 to |ns|
        invariant DeletedAll(resources, ns[i..], faults) == DeletedAll(start, ns, faults)
        invariant problem || TroubleIn(resources, ns[i..], faults) <==> before || TroubleIn(start, ns, faults)
      {
        assert ns[i..][0] == ns[i] && ns[i..][1..] == ns[i + 1..];
        var p := DeleteManifest(ns[i], faults);
        problem := problem || p;
      }
    }

    /** The DNS manifests only decide whether the standard ones are deleted a first time: the loops
        for them run over the standard manifests. So the cleanup succeeds exactly when no standard
        resource is in trouble at the beginning and, where it is deleted again, none is held by others;
        and nothing but standard resources is touched. */
    method DeleteExternalResources(runtime: seq<string>, dataplane: seq<string>,
                                   dnsRuntime: seq<string>, dnsDataplane: seq<string>, faults: Faults)
      returns (problem: bool)
      modifies this
      ensures !problem <==> Clear(old(resources), runtime, dataplane, dnsRuntime != [], dnsDataplane != [], faults)
      ensures !problem ==> forall n | n in runtime + dataplane && n in resources :: resources[n].deleting
      ensures forall n | n !in runtime + dataplane :: SameAt(old(resources), resources, n)
    {
      ghost var rs, a, b := resources, dnsRuntime != [], dnsDataplane != [];
      ghost var early := Early(runtime, dataplane, a, b);
      CleanupIff(rs, runtime, dataplane, a, b, faults);
      OneLoop(rs, if a then runtime else [], if b then dataplane else [], faults);
      problem := false;
      if |dnsRuntime| > 0 {
        problem := DeleteManifests(runtime, faults, problem);
      }
      if |dnsDataplane| > 0 {
        problem := DeleteManifests(dataplane, faults, problem);
      }
      assert resources == DeletedAll(rs, early, faults) && (problem <==> TroubleIn(rs, early, faults));
      OneLoop(rs, early, runtime + dataplane, faults);
      OneLoop(resources, runtime, dataplane, faults);
      ghost var rs2, all := resources, if problem then early else early + (runtime + dataplane);
      if !problem {
        problem := DeleteManifests(runtime, faults, problem);
        problem := DeleteManifests(dataplane, faults, problem);
      }
      assert resources == DeletedAll(rs, all, faults);
      forall n | n !in runtime + dataplane ensures SameAt(rs, resources, n) {
        DeletedAllAt(rs, all, faults, n);
      }
      if !problem {
        forall n | n in runtime + dataplane && n in resources ensures resources[n].deleting {
          GoneAfterwards(rs2, runtime + dataplane, faults, n);
        }
      }
    }
  }
}
