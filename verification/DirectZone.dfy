/** The life of one HostedZone under the direct controller (direct/hostedzone/request.go) as a state
    machine: the finalizer is taken before any resource is applied and given back only after the
    resources have been deleted, whatever others do in between and wherever a request breaks off.
    Requests for the zone are not handled concurrently. */
module DirectZone {
  import opened Wrappers

  /** What the controller looks at in a HostedZone; `observed` says whether the status names the
      runtime and the class of the specification, if it names any. */
  datatype Zone = Zone(nested: bool, observed: Option<bool>, deleting: bool, finalizers: set<string>)

  /** A resource in the runtime or the dataplane cluster. */
  datatype Resource = Resource(deleting: bool, finalizers: set<string>)

  /** The controller's finalizer and the resources of the standard manifests of the zone. */
  datatype Config = Config(finalizer: string, standard: set<string>)

  // ----- the decisions of Reconcile -----------------------------------------------------------------

  datatype Decision = Cleanup | Strip | Acquire | Proceed

  /** `ChangedResponsibility` (lines 165-187). */
  predicate Changed(c: Config, z: Zone) {
    if c.finalizer !in z.finalizers then false
    else if z.nested then true
    else z.observed == Some(false)
  }

  /** Lines 79-107, for a zone the controller is responsible for. */
  function Decide(c: Config, z: Zone): Decision {
    if Changed(c, z) then Cleanup
    else if z.nested then if c.finalizer in z.finalizers then Strip else Proceed
    else if c.finalizer in z.finalizers then Proceed else Acquire
  }

  /** The branch that takes the finalizer from a nested zone is never entered: such a zone has
      changed responsibility and is cleaned up, finalizer last. */
  lemma NeverStrips(c: Config, z: Zone)
    ensures Decide(c, z) != Strip
    ensures z.nested && c.finalizer in z.finalizers ==> Decide(c, z) == Cleanup
    ensures Decide(c, z) == Proceed && !z.nested ==> c.finalizer in z.finalizers
  {
  }

  /** When a live zone is cleaned up, taken, or served right away. */
  lemma DecideIff(c: Config, z: Zone)
    ensures Decide(c, z) == Cleanup <==> c.finalizer in z.finalizers && (z.nested || z.observed == Some(false))
    ensures Decide(c, z) == Acquire <==> c.finalizer !in z.finalizers && !z.nested
    ensures Decide(c, z) == Proceed <==>
      if z.nested then c.finalizer !in z.finalizers else c.finalizer in z.finalizers && z.observed != Some(false)
  {
  }

  // ----- the state machine ------------------------------------------------------------------------------

  datatype Phase =
    | Idle
    | Deciding(zone: Zone)
    | Acquiring(zone: Zone)
    | Applying
    | Cleaning(target: Option<Zone>, plan: seq<string>, failed: bool)
    | Finishing(zone: Zone)

  datatype World = World(zone: Option<Zone>, resources: map<string, Resource>, phase: Phase)

  datatype Step =
    | Begin                                      // read the zone, live or deleting
    | BeginVanished(plan: seq<string>)           // the zone is gone (ReconcileDeleted)
    | NotResponsible                             // lines 57-77: nothing to do
    | Decided(plan: seq<string>)
    | Take                                       // lines 101-102
    | Apply(name: string, finalizers: set<string>)
    | Delete                                     // DeleteManifest for the next of the plan
    | Conclude                                   // lines 130-136
    | Finish                                     // lines 139-143
    | BreakOff                                   // an error, the end of the work or a restart
    | OthersCreateZone(z: Zone)
    | OthersChangeZone(z: Zone)
    | OthersDeleteZone
    | OthersDelete(name: string)
    | OthersLetGo(name: string, finalizers: set<string>)

  /** The loops over the manifests come past every standard resource. */
  ghost predicate Covers(c: Config, plan: seq<string>) {
    forall n | n in c.standard :: n in plan
  }

  ghost predicate Enabled(c: Config, w: World, step: Step) {
    match step
    case Begin => w.phase.Idle? && w.zone.Some?
    case BeginVanished(plan) => w.phase.Idle? && w.zone.None? && Covers(c, plan)
    case NotResponsible => w.phase.Deciding?
    case Decided(plan) => w.phase.Deciding? && Covers(c, plan)
    case Take => w.phase.Acquiring?
    case Apply(n, fs) => w.phase.Applying?
    case Delete => w.phase.Cleaning? && w.phase.plan != []
    case Conclude => w.phase.Cleaning? && w.phase.plan == []
    case Finish => w.phase.Finishing?
    case BreakOff => true
    case OthersCreateZone(z) => w.zone.None? && c.finalizer !in z.finalizers && !z.deleting
    case OthersChangeZone(z) =>
      w.zone.Some? && (c.finalizer in z.finalizers <==> c.finalizer in w.zone.value.finalizers)
      && z.deleting == w.zone.value.deleting && (z.deleting ==> z.finalizers <= w.zone.value.finalizers)
    case OthersDeleteZone => w.zone.Some?
    case OthersDelete(n) => true
    case OthersLetGo(n, fs) => n in w.resources && fs <= w.resources[n].finalizers
  }

  /** A patch of the zone's finalizers. */
  function ZonePatched(zone: Option<Zone>, fs: set<string>): Option<Zone> {
    match zone
    case None => None
    case Some(z) =>
      if z.deleting && !(fs <= z.finalizers) then zone
      else if z.deleting && fs == {} then None
      else Some(z.(finalizers := fs))
  }

  function Removed(rs: map<string, Resource>, n: string): map<string, Resource> {
    if n !in rs then rs
    else if rs[n].finalizers == {} then rs - {n}
    else rs[n := rs[n].(deleting := true)]
  }

  function Next(c: Config, w: World, step: Step): World {
    match step
    case Begin =>
      (match w.zone
       case None => w
       case Some(z) => w.(phase := Deciding(z)))
    case BeginVanished(plan) => w.(phase := Cleaning(None, plan, false))
    case NotResponsible => w.(phase := Idle)
    case Decided(plan) => if w.phase.Deciding? then AfterDecision(c, w, w.phase.zone, plan) else w
    case Take =>
      if !w.phase.Acquiring? then w
      else
        var fs := w.phase.zone.finalizers + {c.finalizer};
        var zone := ZonePatched(w.zone, fs);
        if zone.Some? && zone.value.finalizers == fs then World(zone, w.resources, Applying)
        else w.(phase := Idle)
    case Apply(n, fs) =>
      if n in w.resources then w else w.(resources := w.resources[n := Resource(false, fs)])
    case Delete =>
      if !w.phase.Cleaning? || w.phase.plan == [] then w else AfterDelete(w, w.phase.plan[0], w.phase)
    case Conclude =>
      if w.phase.Cleaning? && !w.phase.failed && w.phase.target.Some? then w.(phase := Finishing(w.phase.target.value))
      else w.(phase := Idle)
    case Finish =>
      if w.phase.Finishing?
      then World(ZonePatched(w.zone, w.phase.zone.finalizers - {c.finalizer}), w.resources, Idle)
      else w
    case BreakOff => w.(phase := Idle)
    case OthersCreateZone(z) => w.(zone := Some(z))
    case OthersChangeZone(z) => w.(zone := if z.deleting && z.finalizers == {} then None else Some(z))
    case OthersDeleteZone =>
      (match w.zone
       case None => w
       case Some(z) => w.(zone := if z.finalizers == {} then None else Some(z.(deleting := true))))
    case OthersDelete(n) => w.(resources := Removed(w.resources, n))
    case OthersLetGo(n, fs) =>
      if n !in w.resources then w
      else if w.resources[n].deleting && fs == {} then w.(resources := w.resources - {n})
      else w.(resources := w.resources[n := w.resources[n].(finalizers := fs)])
  }

  /** A zone being deleted is cleaned up if it carries the finalizer (line 123); a nested zone needs
      no resources. */
  function AfterDecision(c: Config, w: World, z: Zone, plan: seq<string>): World {
    if z.deleting then
      if c.finalizer in z.finalizers then w.(phase := Cleaning(Some(z), plan, false)) else w.(phase := Idle)
    else
      match Decide(c, z)
      case Cleanup => w.(phase := Cleaning(Some(z), plan, false))
      case Strip => World(ZonePatched(w.zone, z.finalizers - {c.finalizer}), w.resources, Idle)
      case Acquire => w.(phase := Acquiring(z))
      case Proceed => w.(phase := if z.nested then Idle else Applying)
  }

  /** `DeleteManifest` (lines 517-550): a resource still being deleted is a problem, one that has
      been asked to go is not. */
  function AfterDelete(w: World, n: string, p: Phase): World
    requires p.Cleaning? && p.plan != []
  {
    if n !in w.resources then w.(phase := Cleaning(p.target, p.plan[1..], p.failed))
    else if w.resources[n].deleting then w.(phase := Cleaning(p.target, p.plan[1..], true))
    else World(w.zone, Removed(w.resources, n), Cleaning(p.target, p.plan[1..], p.failed))
  }

  /** What others may do with the zone, and what it does. */
  lemma OthersActOnZone(c: Config, w: World, z: Zone)
    ensures w.zone.None? && c.finalizer !in z.finalizers && !z.deleting ==>
      Enabled(c, w, OthersCreateZone(z)) && Next(c, w, OthersCreateZone(z)) == w.(zone := Some(z))
    ensures w.zone.Some? && !w.zone.value.deleting && !z.deleting
            && (c.finalizer in z.finalizers <==> c.finalizer in w.zone.value.finalizers) ==>
      Enabled(c, w, OthersChangeZone(z)) && Next(c, w, OthersChangeZone(z)) == w.(zone := Some(z))
    ensures w.zone.Some? ==>
      var o := w.zone.value;
      Enabled(c, w, OthersDeleteZone)
      && Next(c, w, OthersDeleteZone) == w.(zone := if o.finalizers == {} then None else Some(o.(deleting := true)))
  {
  }

  /** And with the resources. */
  lemma OthersActOnResources(c: Config, w: World, n: string, fs: set<string>)
    ensures n in w.resources ==>
      var r := w.resources[n];
      Enabled(c, w, OthersDelete(n))
      && Next(c, w, OthersDelete(n)) ==
           w.(resources := if r.finalizers == {} then w.resources - {n} else w.resources[n := r.(deleting := true)])
    ensures n in w.resources && fs <= w.resources[n].finalizers ==>
      var r := w.resources[n];
      Enabled(c, w, OthersLetGo(n, fs))
      && Next(c, w, OthersLetGo(n, fs)) ==
           w.(resources := if r.deleting && fs == {} then w.resources - {n} else w.resources[n := r.(finalizers := fs)])
  {
  }

  /** A request may find that the controller is not responsible, and break off at any moment. */
  lemma RequestsEnd(c: Config, w: World)
    ensures Enabled(c, w, BreakOff) && Next(c, w, BreakOff) == w.(phase := Idle)
    ensures w.phase.Deciding? ==> Enabled(c, w, NotResponsible) && Next(c, w, NotResponsible) == w.(phase := Idle)
  {
  }

  // ----- safety ---------------------------------------------------------------------------------------------

  predicate Alive(w: World, n: string) {
    n in w.resources && !w.resources[n].deleting
  }

  predicate Held(c: Config, w: World) {
    w.zone.Some? && c.finalizer in w.zone.value.finalizers
  }

  ghost predicate NoneAlive(c: Config, w: World) {
    forall n | n in c.standard :: !Alive(w, n)
  }

  ghost predicate PhaseFine(c: Config, w: World) {
    match w.phase
    case Idle => true
    case Deciding(z) => c.finalizer in z.finalizers ==> Held(c, w)
    case Acquiring(z) => true
    case Applying => Held(c, w)
    case Cleaning(_, plan, failed) =>
      !failed ==> forall n | n in c.standard && n !in plan :: !Alive(w, n)
    case Finishing(z) => NoneAlive(c, w)
  }

  /** A standard resource that is there to stay has its zone, and the zone its finalizer. */
  ghost predicate Inv(c: Config, w: World) {
    (Held(c, w) || NoneAlive(c, w)) && PhaseFine(c, w)
  }

  lemma DeleteKeeps(c: Config, w: World)
    requires Inv(c, w) && Enabled(c, w, Delete)
    ensures Inv(c, Next(c, w, Delete))
  {
    var p := w.phase;
    var w1 := Next(c, w, Delete);
    assert p.plan == [p.plan[0]] + p.plan[1..];
    if !w1.phase.failed {
      forall n | n in c.standard && n !in p.plan[1..] ensures !Alive(w1, n) {
        if n != p.plan[0] { assert n !in p.plan; }
      }
    }
  }

  /** Every step keeps it. */
  lemma StepKeeps(c: Config, w: World, step: Step)
    requires Inv(c, w) && Enabled(c, w, step)
    ensures Inv(c, Next(c, w, step))
  {
    match step
    case Delete => DeleteKeeps(c, w);
    case Decided(plan) => NeverStrips(c, w.phase.zone);
    case _ =>
  }

  ghost predicate Run(c: Config, worlds: seq<World>, steps: seq<Step>) {
    && |worlds| == |steps| + 1 && worlds[0] == World(None, map[], Idle)
    && forall i {:trigger steps[i]} | 0 <= i < |steps| ::
         Enabled(c, worlds[i], steps[i]) && worlds[i + 1] == Next(c, worlds[i], steps[i])
  }

  /** At every moment of every run a standard resource that exists and is not being deleted belongs
      to a zone that exists and carries the finalizer. */
  lemma {:induction false} ResourcesAreOwned(c: Config, worlds: seq<World>, steps: seq<Step>, i: nat)
    requires Run(c, worlds, steps) && i < |worlds|
    ensures Inv(c, worlds[i])
    ensures forall n | n in c.standard && Alive(worlds[i], n) :: Held(c, worlds[i])
    decreases i
  {
    if i > 0 {
      ResourcesAreOwned(c, worlds, steps, i - 1);
      StepKeeps(c, worlds[i - 1], steps[i - 1]);
    }
  }

  /** Only the last step of a cleanup without problems gives the finalizer back. */
  lemma ReleasedOnlyAfterCleanup(c: Config, w: World, step: Step)
    requires Inv(c, w) && Enabled(c, w, step) && Held(c, w) && !Held(c, Next(c, w, step))
    ensures step == Finish && NoneAlive(c, w) && NoneAlive(c, Next(c, w, step))
  {
    if step.Decided? { NeverStrips(c, w.phase.zone); }
  }

  /** Resources are applied only while the finalizer is held. */
  lemma AppliedOnlyWhileHeld(c: Config, w: World, step: Step, n: string)
    requires Inv(c, w) && Enabled(c, w, step) && !Alive(w, n) && Alive(Next(c, w, step), n)
    ensures step.Apply? && Held(c, w)
  {
  }

  // ----- undisturbed requests -----------------------------------------------------------------------------------

  ghost predicate Possible(c: Config, w: World, steps: seq<Step>)
    decreases |steps|
  {
    steps == [] || (Enabled(c, w, steps[0]) && Possible(c, Next(c, w, steps[0]), steps[1..]))
  }

  ghost function After(c: Config, w: World, steps: seq<Step>): World
    requires Possible(c, w, steps)
    decreases |steps|
  {
    if steps == [] then w else After(c, Next(c, w, steps[0]), steps[1..])
  }

  /** The steps lead from `w` to `w1`. */
  ghost predicate Leads(c: Config, w: World, steps: seq<Step>, w1: World) {
    Possible(c, w, steps) && After(c, w, steps) == w1
  }

  lemma LeadsOne(c: Config, w: World, s: Step)
    requires Enabled(c, w, s)
    ensures Leads(c, w, [s], Next(c, w, s))
  {
    assert [s][0] == s && [s][1..] == [];
    assert Possible(c, Next(c, w, s), []);
  }

  lemma {:induction false} LeadsOn(c: Config, w: World, steps: seq<Step>, w1: World, more: seq<Step>, w2: World)
    requires Leads(c, w, steps, w1) && Leads(c, w1, more, w2)
    ensures Leads(c, w, steps + more, w2)
    decreases |steps|
  {
    var all := steps + more;
    if steps == [] {
      assert all == more;
    } else {
      assert all[0] == steps[0] && all[1..] == steps[1..] + more;
      LeadsOn(c, Next(c, w, steps[0]), steps[1..], w1, more, w2);
    }
  }

  /** The request reads the zone and decides. */
  lemma Decides(c: Config, w: World, plan: seq<string>)
    requires w.phase.Idle? && w.zone.Some? && Covers(c, plan)
    ensures var w1 := w.(phase := Deciding(w.zone.value));
      Leads(c, w, [Begin, Decided(plan)], AfterDecision(c, w1, w.zone.value, plan))
  {
    var w1 := w.(phase := Deciding(w.zone.value));
    LeadsOne(c, w, Begin);
    LeadsOne(c, w1, Decided(plan));
    LeadsOn(c, w, [Begin], w1, [Decided(plan)], Next(c, w1, Decided(plan)));
    assert [Begin] + [Decided(plan)] == [Begin, Decided(plan)];
  }

  /** The resources as the controller applies them, each with the finalizers others give it. */
  function Applies(ns: seq<(string, set<string>)>): (steps: seq<Step>)
    ensures |steps| == |ns|
  {
    if ns == [] then [] else Applies(ns[..|ns| - 1]) + [Apply(ns[|ns| - 1].0, ns[|ns| - 1].1)]
  }

  /** Every resource named is there, live if it was not there before; no other has changed. */
  ghost predicate Applied(rs: map<string, Resource>, ns: seq<(string, set<string>)>, rs1: map<string, Resource>) {
    && (forall i {:trigger ns[i]} | 0 <= i < |ns| :: ns[i].0 in rs1)
    && (forall n {:trigger rs1[n]} {:trigger n in rs1} | n in rs1 :: if n in rs then rs1[n] == rs[n]
          else !rs1[n].deleting && exists i :: 0 <= i < |ns| && ns[i].0 == n)
    && (forall n | n in rs :: n in rs1)
  }

  lemma {:induction false} ApplyAll(c: Config, w: World, ns: seq<(string, set<string>)>) returns (w1: World)
    requires w.phase.Applying?
    ensures Leads(c, w, Applies(ns), w1) && w1.phase.Applying? && w1.zone == w.zone
    ensures Applied(w.resources, ns, w1.resources)
    decreases |ns|
  {
    if ns == [] {
      w1 := w;
    } else {
      var k := |ns| - 1;
      var w0 := ApplyAll(c, w, ns[..k]);
      var s := Apply(ns[k].0, ns[k].1);
      w1 := Next(c, w0, s);
      LeadsOne(c, w0, s);
      LeadsOn(c, w, Applies(ns[..k]), w0, [s], w1);
      OneMoreApplied(w.resources, ns, w0.resources, w1.resources);
    }
  }

  lemma OneMoreApplied(rs: map<string, Resource>, ns: seq<(string, set<string>)>, rs1: map<string, Resource>,
                       rs2: map<string, Resource>)
    requires ns != [] && Applied(rs, ns[..|ns| - 1], rs1)
    requires var (n, fs) := ns[|ns| - 1]; rs2 == if n in rs1 then rs1 else rs1[n := Resource(false, fs)]
    ensures Applied(rs, ns, rs2)
  {
    var k := |ns| - 1;
    forall i | 0 <= i < |ns| ensures ns[i].0 in rs2 {
      if i < k { assert ns[..k][i] == ns[i]; }
    }
    forall n | n in rs2 ensures if n in rs then rs2[n] == rs[n]
        else !rs2[n].deleting && exists i :: 0 <= i < |ns| && ns[i].0 == n
    {
      if n in rs1 {
        assert rs2[n] == rs1[n];
        if n !in rs {
          var i :| 0 <= i < k && ns[..k][i].0 == n;
          assert ns[i].0 == n;
        }
      } else {
        assert ns[k].0 == n;
      }
    }
  }

  /** A live top-level zone whose responsibility has not changed: an undisturbed request leaves it with
      the finalizer and every resource it applies in place. */
  lemma RequestServes(c: Config, w: World, plan: seq<string>, ns: seq<(string, set<string>)>) returns (w1: World)
    requires w.phase.Idle? && w.zone.Some? && Covers(c, plan)
    requires var z := w.zone.value;
      !z.deleting && !z.nested && (c.finalizer in z.finalizers ==> z.observed != Some(false))
    ensures var z := w.zone.value;
      var take := if c.finalizer in z.finalizers then [] else [Take];
      Leads(c, w, [Begin, Decided(plan)] + take + Applies(ns), w1)
      && w1.zone == Some(z.(finalizers := z.finalizers + {c.finalizer}))
    ensures Applied(w.resources, ns, w1.resources)
  {
    var z := w.zone.value;
    var start := [Begin, Decided(plan)];
    DecideIff(c, z);
    Decides(c, w, plan);
    if c.finalizer in z.finalizers {
      var w0 := w.(phase := Applying);
      w1 := ApplyAll(c, w0, ns);
      LeadsOn(c, w, start, w0, Applies(ns), w1);
      assert z.finalizers + {c.finalizer} == z.finalizers && start + [] == start;
    } else {
      var w0 := w.(phase := Acquiring(z));
      var held := World(Some(z.(finalizers := z.finalizers + {c.finalizer})), w.resources, Applying);
      LeadsOne(c, w0, Take);
      LeadsOn(c, w, start, w0, [Take], held);
      w1 := ApplyAll(c, held, ns);
      LeadsOn(c, w, start + [Take], held, Applies(ns), w1);
    }
  }
}
