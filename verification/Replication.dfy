/** The replication of objects from a source to a target cluster (replicate/common/generic/logic.go)
    as a state machine: every access to an API server is a step of its own, interleaved in any order
    with the steps for other objects and with everybody else's changes. Requests for the same object
    are not handled concurrently. Source and target may be the same cluster. */
module Replication {
  import opened Wrappers

  datatype Key = Key(namespace: string, name: string)

  datatype Ref = Ref(cluster: string, key: Key)

  /** An object as far as the protocol looks at it; `annotated` marks replicas. */
  datatype Obj = Obj(finalizers: set<string>, deleting: bool, annotated: bool)

  /** `mapKey` stands for `MapKey` with the options of the controller. */
  datatype Config = Config(source: string, target: string, finalizer: string, mapKey: Key -> Key) {
    function Origin(k: Key): Ref {
      Ref(source, k)
    }

    function Replica(k: Key): Ref {
      Ref(target, mapKey(k))
    }
  }

  /** What is assumed of the generated names: different objects get different replicas. */
  ghost predicate Injective(c: Config) {
    forall k, l {:trigger c.Replica(k), c.Replica(l)} :: c.Replica(k) == c.Replica(l) ==> k == l
  }

  // ----- the API server ---------------------------------------------------------------------------

  /** A patch of the finalizers. A deleting object takes no new ones and vanishes with the last. */
  function Patched(objs: map<Ref, Obj>, r: Ref, finalizers: set<string>): map<Ref, Obj> {
    if r !in objs || (objs[r].deleting && !(finalizers <= objs[r].finalizers)) then objs
    else if objs[r].deleting && finalizers == {} then objs - {r}
    else objs[r := objs[r].(finalizers := finalizers)]
  }

  predicate Accepts(objs: map<Ref, Obj>, r: Ref, finalizers: set<string>) {
    r in objs && (objs[r].deleting ==> finalizers <= objs[r].finalizers)
  }

  function Deleted(objs: map<Ref, Obj>, r: Ref): map<Ref, Obj> {
    if r !in objs then objs
    else if objs[r].finalizers == {} then objs - {r}
    else objs[r := objs[r].(deleting := true)]
  }

  // ----- the steps --------------------------------------------------------------------------------------

  /** Where the request for an object stands; `obj` is the copy read at its start. */
  datatype Phase =
    | Taking(obj: Obj)                      // responsible, the finalizer is next (line 52)
    | Holding(obj: Obj)                     // the finalizer is set, the replica is read next (line 85)
    | Writing(obj: Obj, found: Option<Obj>) // the replica is created or updated next (lines 86-116)
    | Ending(obj: Obj)                      // ReconcileDeleting, the replica is read next (line 126)
    | Releasing(obj: Obj)                   // no replica: the finalizer goes next (line 133)
    | Dropping(replica: Obj)                // the replica is to go (line 141)

  datatype World = World(objs: map<Ref, Obj>, inflight: map<Key, Phase>)

  datatype Step =
    | Begin(key: Key, responsible: bool)
    | Take(key: Key)
    | Look(key: Key)
    | Write(key: Key)
    | Check(key: Key)
    | Release(key: Key)
    | Drop(key: Key)
    | GiveUp(key: Key)                                      // a failed access or a restart
    | OthersCreate(ref: Ref, obj: Obj)
    | OthersPatch(ref: Ref, finalizers: set<string>)
    | OthersDelete(ref: Ref)

  function Stop(w: World, k: Key, objs: map<Ref, Obj>): World {
    World(objs, w.inflight - {k})
  }

  function At(w: World, k: Key, p: Phase): World {
    w.(inflight := w.inflight[k := p])
  }

  predicate InPhase(w: World, step: Step) {
    match step
    case Take(k) => k in w.inflight && w.inflight[k].Taking?
    case Look(k) => k in w.inflight && w.inflight[k].Holding?
    case Write(k) => k in w.inflight && w.inflight[k].Writing?
    case Check(k) => k in w.inflight && w.inflight[k].Ending?
    case Release(k) => k in w.inflight && w.inflight[k].Releasing?
    case Drop(k) => k in w.inflight && w.inflight[k].Dropping?
    case GiveUp(k) => k in w.inflight
    case _ => true
  }

  /** What others do is not restricted, except that they leave the controller's finalizer alone and
      create nothing under the generated names of the target. */
  ghost predicate Enabled(c: Config, w: World, step: Step) {
    InPhase(w, step) &&
    match step
    case Begin(k, _) => k !in w.inflight && c.Origin(k) in w.objs
    case OthersCreate(r, o) =>
      r !in w.objs && c.finalizer !in o.finalizers && forall k {:trigger c.Replica(k)} :: r != c.Replica(k)
    case OthersPatch(r, fs) => r in w.objs && (c.finalizer in fs <==> c.finalizer in w.objs[r].finalizers)
    case OthersDelete(r) => true
    case _ => true
  }

  function Next(c: Config, w: World, step: Step): World
    requires InPhase(w, step)
  {
    match step
    case Begin(k, responsible) =>
      if c.Origin(k) !in w.objs then w
      else
        var o := w.objs[c.Origin(k)];
        if o.deleting then At(w, k, Ending(o))
        else if o.annotated then w
        else if !responsible then At(w, k, Ending(o))
        else At(w, k, Taking(o))
    case Take(k) =>
      var o := w.inflight[k].obj;
      var fs := o.finalizers + {c.finalizer};
      if c.finalizer in o.finalizers then At(w, k, Holding(o))
      else if Accepts(w.objs, c.Origin(k), fs) then
        World(Patched(w.objs, c.Origin(k), fs), w.inflight[k := Holding(o.(finalizers := fs))])
      else Stop(w, k, w.objs)
    case Look(k) =>
      var found := if c.Replica(k) in w.objs then Some(w.objs[c.Replica(k)]) else None;
      At(w, k, Writing(w.inflight[k].obj, found))
    case Write(k) => Stop(w, k, Written(c, w.objs, k, w.inflight[k].obj, w.inflight[k].found))
    case Check(k) =>
      if c.Replica(k) !in w.objs then At(w, k, Releasing(w.inflight[k].obj))
      else At(w, k, Dropping(w.objs[c.Replica(k)]))
    case Release(k) =>
      var o := w.inflight[k].obj;
      Stop(w, k, if c.finalizer in o.finalizers
                 then Patched(w.objs, c.Origin(k), o.finalizers - {c.finalizer}) else w.objs)
    case Drop(k) => Stop(w, k, Dropped(c, w.objs, k, w.inflight[k].replica))
    case GiveUp(k) => Stop(w, k, w.objs)
    case OthersCreate(r, o) => w.(objs := w.objs[r := o])
    case OthersPatch(r, fs) => w.(objs := Patched(w.objs, r, fs))
    case OthersDelete(r) => w.(objs := Deleted(w.objs, r))
  }

  /** Lines 68-115: a new replica without the controller's finalizer, or an update of the one found
      that keeps its finalizers. */
  function Written(c: Config, objs: map<Ref, Obj>, k: Key, o: Obj, found: Option<Obj>): map<Ref, Obj> {
    var r := c.Replica(k);
    match found
    case None => if r in objs then objs else objs[r := Obj(o.finalizers - {c.finalizer}, false, true)]
    case Some(t) =>
      if t.deleting || r !in objs then objs
      else
        var objs1 := Patched(objs, r, t.finalizers);
        if r in objs1 then objs1[r := objs1[r].(annotated := true)] else objs1
  }

  /** Lines 141-157. The patch goes to the source cluster, as written; if it finds nothing there the
      request ends. */
  function Dropped(c: Config, objs: map<Ref, Obj>, k: Key, t: Obj): map<Ref, Obj> {
    if c.finalizer in t.finalizers then
      var stray := Ref(c.source, c.mapKey(k));
      var fs := t.finalizers - {c.finalizer};
      if !Accepts(objs, stray, fs) then objs
      else if t.deleting then Patched(objs, stray, fs)
      else Deleted(Patched(objs, stray, fs), c.Replica(k))
    else if t.deleting then objs
    else Deleted(objs, c.Replica(k))
  }

  /** What others may do, and what it does: create any object that leaves the controller alone, change
      finalizers and delete as the API server does it. */
  lemma OthersAct(c: Config, w: World, r: Ref, o: Obj, fs: set<string>)
    ensures r !in w.objs && c.finalizer !in o.finalizers && (forall k {:trigger c.Replica(k)} :: r != c.Replica(k)) ==>
      Enabled(c, w, OthersCreate(r, o)) && Next(c, w, OthersCreate(r, o)) == World(w.objs[r := o], w.inflight)
    ensures r in w.objs && (c.finalizer in fs <==> c.finalizer in w.objs[r].finalizers) ==>
      Enabled(c, w, OthersPatch(r, fs))
      && var w1 := Next(c, w, OthersPatch(r, fs));
         w1.inflight == w.inflight
         && (!w.objs[r].deleting || (fs <= w.objs[r].finalizers && fs != {}) ==>
               w1.objs == w.objs[r := w.objs[r].(finalizers := fs)])
         && (w.objs[r].deleting && fs == {} ==> w1.objs == w.objs - {r})
    ensures r in w.objs ==>
      Enabled(c, w, OthersDelete(r))
      && Next(c, w, OthersDelete(r)) ==
           World(if w.objs[r].finalizers == {} then w.objs - {r} else w.objs[r := w.objs[r].(deleting := true)],
             w.inflight)
  {
  }

  /** Any request may begin when none for the object is under way, and break off at any moment. */
  lemma RequestsAct(c: Config, w: World, k: Key, responsible: bool)
    ensures k !in w.inflight && c.Origin(k) in w.objs ==> Enabled(c, w, Begin(k, responsible))
    ensures k in w.inflight ==>
      Enabled(c, w, GiveUp(k)) && Next(c, w, GiveUp(k)) == World(w.objs, w.inflight - {k})
  {
  }

  // ----- safety --------------------------------------------------------------------------------------------

  ghost predicate Held(c: Config, objs: map<Ref, Obj>, k: Key) {
    c.Origin(k) in objs && c.finalizer in objs[c.Origin(k)].finalizers
  }

  /** Replicas are marked and do not carry the controller's finalizer; their originals do. */
  ghost predicate ReplicaFine(c: Config, objs: map<Ref, Obj>, k: Key) {
    c.Replica(k) in objs ==>
      objs[c.Replica(k)].annotated && c.finalizer !in objs[c.Replica(k)].finalizers && Held(c, objs, k)
  }

  /** No replica lives under the key. */
  ghost predicate Free(c: Config, k: Key) {
    forall l {:trigger c.Replica(l)} :: c.Origin(k) != c.Replica(l)
  }

  ghost predicate PhaseFine(c: Config, objs: map<Ref, Obj>, k: Key, p: Phase) {
    match p
    case Taking(o) => Free(c, k) && (c.finalizer in o.finalizers ==> Held(c, objs, k))
    case Holding(o) => Free(c, k) && Held(c, objs, k)
    case Writing(o, found) =>
      Free(c, k) && Held(c, objs, k) && (found.Some? ==> c.finalizer !in found.value.finalizers)
    case Ending(o) => c.finalizer in o.finalizers ==> Free(c, k)
    case Releasing(o) => c.Replica(k) !in objs && (c.finalizer in o.finalizers ==> Free(c, k))
    case Dropping(t) => c.finalizer !in t.finalizers
  }

  ghost predicate Inv(c: Config, w: World) {
    && (forall k :: ReplicaFine(c, w.objs, k))
    && (forall k {:trigger w.inflight[k]} | k in w.inflight :: PhaseFine(c, w.objs, k, w.inflight[k]))
  }

  // ----- one object at a time ----------------------------------------------------------------------------

  /** What a change of the store must leave alone for the objects of others: finalizers of the
      controller stay, no replica appears, and those there stay marked. */
  ghost predicate Harmless(c: Config, objs: map<Ref, Obj>, objs1: map<Ref, Obj>) {
    && (forall r {:trigger r in objs1} {:trigger objs[r]} | r in objs && c.finalizer in objs[r].finalizers ::
          r in objs1 && c.finalizer in objs1[r].finalizers)
    && (forall k {:trigger c.Replica(k)} | c.Replica(k) in objs1 ::
          c.Replica(k) in objs
          && objs1[c.Replica(k)].annotated == objs[c.Replica(k)].annotated
          && (c.finalizer in objs1[c.Replica(k)].finalizers ==> c.finalizer in objs[c.Replica(k)].finalizers))
  }

  lemma HarmlessKeeps(c: Config, w: World, objs1: map<Ref, Obj>)
    requires Inv(c, w) && Harmless(c, w.objs, objs1)
    ensures Inv(c, w.(objs := objs1))
  {
    forall k ensures ReplicaFine(c, objs1, k) {
      if c.Replica(k) in objs1 { assert ReplicaFine(c, w.objs, k); }
    }
    forall k | k in w.inflight ensures PhaseFine(c, objs1, k, w.inflight[k]) {
      assert PhaseFine(c, w.objs, k, w.inflight[k]);
    }
  }

  lemma PatchHarmless(c: Config, objs: map<Ref, Obj>, r: Ref, fs: set<string>)
    requires r in objs ==> (c.finalizer in fs <==> c.finalizer in objs[r].finalizers)
    ensures Harmless(c, objs, Patched(objs, r, fs))
  {
  }

  lemma DeleteHarmless(c: Config, objs: map<Ref, Obj>, r: Ref)
    ensures Harmless(c, objs, Deleted(objs, r))
  {
  }

  /** A request that ends, or that has made sure of what its next phase needs. */
  lemma Moves(c: Config, w: World, k: Key, p: Phase)
    requires Inv(c, w) && PhaseFine(c, w.objs, k, p)
    ensures Inv(c, At(w, k, p))
  {
  }

  lemma Ends(c: Config, w: World, k: Key)
    requires Inv(c, w)
    ensures Inv(c, Stop(w, k, w.objs))
  {
  }

  lemma BeginKeeps(c: Config, w: World, k: Key, responsible: bool)
    requires Inv(c, w) && Enabled(c, w, Begin(k, responsible))
    ensures Inv(c, Next(c, w, Begin(k, responsible)))
  {
    var o := w.objs[c.Origin(k)];
    if !o.annotated || c.finalizer in o.finalizers {
      forall l ensures c.Origin(k) != c.Replica(l) {
        assert ReplicaFine(c, w.objs, l);
      }
    }
  }

  /** The patch that takes an object into possession. */
  lemma TakeKeeps(c: Config, w: World, k: Key)
    requires Inv(c, w) && Enabled(c, w, Take(k))
    ensures Inv(c, Next(c, w, Take(k)))
  {
    var o := w.inflight[k].obj;
    var fs := o.finalizers + {c.finalizer};
    assert PhaseFine(c, w.objs, k, w.inflight[k]);
    if c.finalizer !in o.finalizers && Accepts(w.objs, c.Origin(k), fs) {
      var objs1 := Patched(w.objs, c.Origin(k), fs);
      TakingHarmless(c, w.objs, k, fs);
      HarmlessKeeps(c, w, objs1);
      Moves(c, w.(objs := objs1), k, Holding(o.(finalizers := fs)));
    }
  }

  lemma TakingHarmless(c: Config, objs: map<Ref, Obj>, k: Key, fs: set<string>)
    requires Free(c, k) && Accepts(objs, c.Origin(k), fs) && c.finalizer in fs
    ensures Harmless(c, objs, Patched(objs, c.Origin(k), fs)) && Held(c, Patched(objs, c.Origin(k), fs), k)
  {
  }

  lemma LookKeeps(c: Config, w: World, k: Key)
    requires Inv(c, w) && Enabled(c, w, Look(k))
    ensures Inv(c, Next(c, w, Look(k)))
  {
    assert PhaseFine(c, w.objs, k, w.inflight[k]);
    assert ReplicaFine(c, w.objs, k);
  }

  lemma CheckKeeps(c: Config, w: World, k: Key)
    requires Inv(c, w) && Enabled(c, w, Check(k))
    ensures Inv(c, Next(c, w, Check(k)))
  {
    assert ReplicaFine(c, w.objs, k);
  }

  /** Writing a replica: its original is held, so it may. */
  lemma WriteKeeps(c: Config, w: World, k: Key)
    requires Injective(c) && Inv(c, w) && Enabled(c, w, Write(k))
    ensures Inv(c, Next(c, w, Write(k)))
  {
    var o, found := w.inflight[k].obj, w.inflight[k].found;
    assert PhaseFine(c, w.objs, k, w.inflight[k]);
    assert ReplicaFine(c, w.objs, k);
    var w1 := Stop(w, k, w.objs);
    Ends(c, w, k);
    var objs1 := Written(c, w.objs, k, o, found);
    forall l ensures ReplicaFine(c, objs1, l) {
      WrittenFine(c, w.objs, k, o, found, l);
    }
    forall l | l in w1.inflight ensures PhaseFine(c, objs1, l, w1.inflight[l]) {
      assert PhaseFine(c, w.objs, l, w.inflight[l]);
      WrittenElsewhere(c, w.objs, k, o, found, l);
    }
  }

  lemma WrittenFine(c: Config, objs: map<Ref, Obj>, k: Key, o: Obj, found: Option<Obj>, l: Key)
    requires Injective(c) && Free(c, k) && Held(c, objs, k) && ReplicaFine(c, objs, k) && ReplicaFine(c, objs, l)
    requires found.Some? ==> c.finalizer !in found.value.finalizers
    ensures ReplicaFine(c, Written(c, objs, k, o, found), l)
  {
  }

  lemma WrittenElsewhere(c: Config, objs: map<Ref, Obj>, k: Key, o: Obj, found: Option<Obj>, l: Key)
    requires Injective(c) && Free(c, k) && Held(c, objs, k) && ReplicaFine(c, objs, k) && l != k
    requires found.Some? ==> c.finalizer !in found.value.finalizers
    ensures Held(c, objs, l) ==> Held(c, Written(c, objs, k, o, found), l)
    ensures c.Replica(l) !in objs ==> c.Replica(l) !in Written(c, objs, k, o, found)
  {
  }

  /** The finalizer goes only while there is no replica. */
  lemma ReleaseKeeps(c: Config, w: World, k: Key)
    requires Inv(c, w) && Enabled(c, w, Release(k))
    ensures Inv(c, Next(c, w, Release(k)))
  {
    var o := w.inflight[k].obj;
    assert PhaseFine(c, w.objs, k, w.inflight[k]);
    if c.finalizer in o.finalizers {
      var objs1 := Patched(w.objs, c.Origin(k), o.finalizers - {c.finalizer});
      forall l ensures ReplicaFine(c, objs1, l) {
        assert ReplicaFine(c, w.objs, l);
      }
      forall l | l in w.inflight && l != k ensures PhaseFine(c, objs1, l, w.inflight[l]) {
        assert PhaseFine(c, w.objs, l, w.inflight[l]);
      }
    }
  }

  lemma DropKeeps(c: Config, w: World, k: Key)
    requires Inv(c, w) && Enabled(c, w, Drop(k))
    ensures Inv(c, Next(c, w, Drop(k)))
  {
    assert PhaseFine(c, w.objs, k, w.inflight[k]);
    Ends(c, w, k);
    DeleteHarmless(c, w.objs, c.Replica(k));
    HarmlessKeeps(c, Stop(w, k, w.objs), Dropped(c, w.objs, k, w.inflight[k].replica));
  }

  lemma CreateHarmless(c: Config, w: World, r: Ref, o: Obj)
    requires Enabled(c, w, OthersCreate(r, o))
    ensures Harmless(c, w.objs, w.objs[r := o])
  {
  }

  /** Every step keeps the invariant. */
  lemma StepKeeps(c: Config, w: World, step: Step)
    requires Injective(c) && Inv(c, w) && Enabled(c, w, step)
    ensures Inv(c, Next(c, w, step))
  {
    match step
    case Begin(k, responsible) => BeginKeeps(c, w, k, responsible);
    case Take(k) => TakeKeeps(c, w, k);
    case Look(k) => LookKeeps(c, w, k);
    case Write(k) => WriteKeeps(c, w, k);
    case Check(k) => CheckKeeps(c, w, k);
    case Release(k) => ReleaseKeeps(c, w, k);
    case Drop(k) => DropKeeps(c, w, k);
    case GiveUp(k) => Ends(c, w, k);
    case OthersCreate(r, o) =>
      CreateHarmless(c, w, r, o);
      HarmlessKeeps(c, w, w.objs[r := o]);
    case OthersPatch(r, fs) =>
      PatchHarmless(c, w.objs, r, fs);
      HarmlessKeeps(c, w, Patched(w.objs, r, fs));
    case OthersDelete(r) =>
      DeleteHarmless(c, w.objs, r);
      HarmlessKeeps(c, w, Deleted(w.objs, r));
  }

  // ----- whole runs -----------------------------------------------------------------------------------------

  /** Before the controller runs nothing carries its finalizer or one of the generated names. */
  ghost predicate Fresh(c: Config, w: World) {
    && w.inflight == map[]
    && (forall r {:trigger w.objs[r]} | r in w.objs :: c.finalizer !in w.objs[r].finalizers)
    && (forall k :: c.Replica(k) !in w.objs)
  }

  ghost predicate Run(c: Config, worlds: seq<World>, steps: seq<Step>) {
    && |worlds| == |steps| + 1 && Fresh(c, worlds[0])
    && forall i {:trigger steps[i]} | 0 <= i < |steps| ::
         Enabled(c, worlds[i], steps[i]) && worlds[i + 1] == Next(c, worlds[i], steps[i])
  }

  lemma {:induction false} RunKeeps(c: Config, worlds: seq<World>, steps: seq<Step>, i: nat)
    requires Injective(c) && Run(c, worlds, steps) && i < |worlds|
    ensures Inv(c, worlds[i])
    decreases i
  {
    if i > 0 {
      RunKeeps(c, worlds, steps, i - 1);
      StepKeeps(c, worlds[i - 1], steps[i - 1]);
    }
  }

  /** At every moment of every run, whatever the interleaving: an object that has a replica still
      exists and carries the finalizer, and it is no replica itself. */
  lemma ReplicasAreOwned(c: Config, worlds: seq<World>, steps: seq<Step>, i: nat, k: Key)
    requires Injective(c) && Run(c, worlds, steps) && i < |worlds| && c.Replica(k) in worlds[i].objs
    ensures c.Origin(k) in worlds[i].objs && c.finalizer in worlds[i].objs[c.Origin(k)].finalizers
    ensures forall l :: c.Origin(k) != c.Replica(l)
  {
    RunKeeps(c, worlds, steps, i);
    assert ReplicaFine(c, worlds[i].objs, k);
    forall l ensures c.Origin(k) != c.Replica(l) {
      assert ReplicaFine(c, worlds[i].objs, l);
    }
  }

  // ----- draining -------------------------------------------------------------------------------------------

  /** No request is under way that would hand the object over to a replica. */
  ghost predicate Draining(c: Config, w: World, k: Key) {
    k in w.inflight ==> w.inflight[k].Ending? || w.inflight[k].Releasing? || w.inflight[k].Dropping?
  }

  /** No such request begins with the step: the controller is not responsible for the object, or no
      longer, or the object is being deleted. */
  ghost predicate Leaves(c: Config, w: World, step: Step, k: Key) {
    step == Begin(k, true) ==> c.Origin(k) in w.objs && w.objs[c.Origin(k)].deleting
  }

  /** Live replica, deleting replica, only the finalizer left, nothing left. */
  ghost function Left(c: Config, w: World, k: Key): nat {
    if c.Replica(k) in w.objs then if w.objs[c.Replica(k)].deleting then 2 else 3
    else if Held(c, w.objs, k) then 1 else 0
  }

  lemma PatchedRest(objs: map<Ref, Obj>, r: Ref, fs: set<string>)
    ensures var objs1 := Patched(objs, r, fs);
      (forall s {:trigger s in objs1} {:trigger objs1[s]} | s in objs1 ::
        s in objs && objs1[s].deleting == objs[s].deleting)
      && (forall s {:trigger s in objs1} {:trigger objs[s]} | s in objs && s != r :: s in objs1 && objs1[s] == objs[s])
  {
  }

  lemma DeletedRest(objs: map<Ref, Obj>, r: Ref)
    ensures var objs1 := Deleted(objs, r);
      (forall s {:trigger s in objs1} {:trigger objs1[s]} | s in objs1 ::
         s in objs && (objs[s].deleting ==> objs1[s].deleting) && objs1[s].finalizers == objs[s].finalizers)
      && (forall s {:trigger s in objs1} {:trigger objs[s]} | s in objs && s != r :: s in objs1 && objs1[s] == objs[s])
  {
  }

  /** A change that takes nothing back: no replica appears or comes alive again, no finalizer is
      regained. */
  ghost predicate Wanes(c: Config, objs: map<Ref, Obj>, objs1: map<Ref, Obj>, k: Key) {
    && (c.Replica(k) in objs1 ==>
          c.Replica(k) in objs && (objs[c.Replica(k)].deleting ==> objs1[c.Replica(k)].deleting))
    && (Held(c, objs1, k) ==> Held(c, objs, k))
  }

  lemma WanesLowers(c: Config, w: World, w1: World, k: Key)
    requires Inv(c, w) && Inv(c, w1) && Wanes(c, w.objs, w1.objs, k)
    ensures Left(c, w1, k) <= Left(c, w, k)
  {
    assert ReplicaFine(c, w.objs, k) && ReplicaFine(c, w1.objs, k);
  }

  function RequestOf(step: Step): Option<Key> {
    match step
    case OthersCreate(_, _) => None
    case OthersPatch(_, _) => None
    case OthersDelete(_) => None
    case _ => Some(step.key)
  }

  lemma OthersWane(c: Config, w: World, step: Step, k: Key)
    requires Inv(c, w) && Enabled(c, w, step)
    requires RequestOf(step) == None
    ensures Wanes(c, w.objs, Next(c, w, step).objs, k)
  {
    match step
    case OthersPatch(r, fs) => PatchedRest(w.objs, r, fs);
    case OthersDelete(r) => DeletedRest(w.objs, r);
    case OthersCreate(r, o) =>
  }

  /** Requests for other objects do not touch the pair. */
  lemma RequestsElsewhereWane(c: Config, w: World, step: Step, l: Key, k: Key)
    requires Injective(c) && Inv(c, w) && Enabled(c, w, step) && l != k
    requires RequestOf(step) == Some(l)
    requires Free(c, k)
    ensures Wanes(c, w.objs, Next(c, w, step).objs, k)
  {
  }

  /** A request for the object itself. */
  lemma OwnRequestWanes(c: Config, w: World, step: Step, k: Key)
    requires Inv(c, w) && Enabled(c, w, step) && RequestOf(step) == Some(k)
    requires Draining(c, w, k) && Leaves(c, w, step, k)
    ensures Wanes(c, w.objs, Next(c, w, step).objs, k) && Draining(c, Next(c, w, step), k)
  {
    if k in w.inflight { assert PhaseFine(c, w.objs, k, w.inflight[k]); }
    match step
    case Release(_) => PatchedRest(w.objs, c.Origin(k), w.inflight[k].obj.finalizers - {c.finalizer});
    case Drop(_) => DeletedRest(w.objs, c.Replica(k));
    case _ =>
  }

  /** While no request takes the object into possession, because it is being deleted or because the
      controller is not responsible for it any more, nothing comes back: no step of anybody raises
      what is left of replica and finalizer. */
  lemma DrainKeeps(c: Config, w: World, step: Step, k: Key)
    requires Injective(c) && Inv(c, w) && Enabled(c, w, step) && Free(c, k)
    requires Draining(c, w, k) && Leaves(c, w, step, k)
    ensures Draining(c, Next(c, w, step), k) && Left(c, Next(c, w, step), k) <= Left(c, w, k)
  {
    StepKeeps(c, w, step);
    match RequestOf(step)
    case None => OthersWane(c, w, step, k);
    case Some(l) =>
      if l == k { OwnRequestWanes(c, w, step, k); } else { RequestsElsewhereWane(c, w, step, l, k); }
    WanesLowers(c, w, Next(c, w, step), k);
  }

  /** So it is over every run. */
  lemma {:induction false} DrainRuns(c: Config, worlds: seq<World>, steps: seq<Step>, i: nat, j: nat, k: Key)
    requires Injective(c) && Run(c, worlds, steps) && i <= j < |worlds| && Free(c, k) && Draining(c, worlds[i], k)
    requires forall n {:trigger steps[n]} | i <= n < j :: Leaves(c, worlds[n], steps[n], k)
    ensures Draining(c, worlds[j], k) && Left(c, worlds[j], k) <= Left(c, worlds[i], k)
    decreases j
  {
    if i < j {
      DrainRuns(c, worlds, steps, i, j - 1, k);
      RunKeeps(c, worlds, steps, j - 1);
      assert Enabled(c, worlds[j - 1], steps[j - 1]) && Leaves(c, worlds[j - 1], steps[j - 1], k);
      DrainKeeps(c, worlds[j - 1], steps[j - 1], k);
    }
  }

  ghost predicate Dying(c: Config, w: World, k: Key) {
    c.Origin(k) in w.objs ==> w.objs[c.Origin(k)].deleting
  }

  /** An object that is being deleted stays so until it is gone, and stays gone unless somebody
      creates a new one under its name. */
  lemma DyingStays(c: Config, w: World, step: Step, k: Key)
    requires Inv(c, w) && Enabled(c, w, step) && Free(c, k) && Dying(c, w, k)
    requires step.OthersCreate? ==> step.ref != c.Origin(k)
    ensures Dying(c, Next(c, w, step), k)
  {
    match step
    case OthersPatch(r, fs) => PatchedRest(w.objs, r, fs);
    case OthersDelete(r) => DeletedRest(w.objs, r);
    case Take(l) => PatchedRest(w.objs, c.Origin(l), w.inflight[l].obj.finalizers + {c.finalizer});
    case Release(l) => PatchedRest(w.objs, c.Origin(l), w.inflight[l].obj.finalizers - {c.finalizer});
    case Write(l) =>
    case Drop(l) =>
      assert PhaseFine(c, w.objs, l, w.inflight[l]);
      DeletedRest(w.objs, c.Replica(l));
    case _ =>
  }

  /** So the deletion of an object drains it, whoever is responsible, short of a new object of that
      name. */
  lemma {:induction false} DeletionDrains(c: Config, worlds: seq<World>, steps: seq<Step>, i: nat, j: nat, k: Key)
    requires Injective(c) && Run(c, worlds, steps) && i <= j < |worlds| && Free(c, k)
    requires Dying(c, worlds[i], k) && Draining(c, worlds[i], k)
    requires forall n | i <= n < j && steps[n].OthersCreate? :: steps[n].ref != c.Origin(k)
    ensures Dying(c, worlds[j], k) && Draining(c, worlds[j], k) && Left(c, worlds[j], k) <= Left(c, worlds[i], k)
    decreases j
  {
    if i < j {
      DeletionDrains(c, worlds, steps, i, j - 1, k);
      RunKeeps(c, worlds, steps, j - 1);
      assert Enabled(c, worlds[j - 1], steps[j - 1]);
      DyingStays(c, worlds[j - 1], steps[j - 1], k);
      DrainKeeps(c, worlds[j - 1], steps[j - 1], k);
    }
  }

  /** The finalizer goes only by a release, and only while there is no replica. */
  lemma ReleasedOnlyWithoutReplica(c: Config, w: World, step: Step, k: Key)
    requires Injective(c) && Inv(c, w) && Enabled(c, w, step)
    requires Held(c, w.objs, k) && !Held(c, Next(c, w, step).objs, k)
    ensures step == Release(k) && c.Replica(k) !in w.objs && c.Replica(k) !in Next(c, w, step).objs
  {
    StepKeeps(c, w, step);
    assert ReplicaFine(c, Next(c, w, step).objs, k);
    OnlyRelease(c, w, step, k);
    assert PhaseFine(c, w.objs, k, w.inflight[k]);
  }

  lemma OnlyRelease(c: Config, w: World, step: Step, k: Key)
    requires Injective(c) && Inv(c, w) && Enabled(c, w, step)
    requires Held(c, w.objs, k) && !Held(c, Next(c, w, step).objs, k)
    ensures step == Release(k)
  {
    match step
    case OthersPatch(r, fs) => PatchHarmless(c, w.objs, r, fs);
    case OthersDelete(r) => DeleteHarmless(c, w.objs, r);
    case Drop(l) =>
      assert PhaseFine(c, w.objs, l, w.inflight[l]);
      DeleteHarmless(c, w.objs, c.Replica(l));
    case Write(l) =>
      assert PhaseFine(c, w.objs, l, w.inflight[l]) && ReplicaFine(c, w.objs, l);
      if l != k { WrittenElsewhere(c, w.objs, l, w.inflight[l].obj, w.inflight[l].found, k); }
    case _ =>
  }

  /** Undisturbed, one request for an object that is being deleted, or that the controller is not
      responsible for, brings it a step further, unless the replica is being deleted already and only
      others hold it. A live object marked as a replica is left alone. */
  lemma RequestProgresses(c: Config, w: World, k: Key, responsible: bool)
    requires Inv(c, w) && k !in w.inflight && Held(c, w.objs, k)
    requires var o := w.objs[c.Origin(k)]; o.deleting || (!responsible && !o.annotated)
    requires c.Replica(k) in w.objs ==> !w.objs[c.Replica(k)].deleting
    ensures var w1 := Next(c, w, Begin(k, responsible));
      InPhase(w1, Check(k))
      && var w2 := Next(c, w1, Check(k));
         var step := if c.Replica(k) in w.objs then Drop(k) else Release(k);
         InPhase(w2, step) && Left(c, Next(c, w2, step), k) < Left(c, w, k)
  {
    assert ReplicaFine(c, w.objs, k);
    var w1 := Next(c, w, Begin(k, responsible));
    assert w1.objs == w.objs && w1.inflight[k] == Ending(w.objs[c.Origin(k)]);
  }

  /** And when the last of those others lets go of a deleting replica, it is gone. */
  lemma LettingGoProgresses(c: Config, w: World, k: Key)
    requires Inv(c, w) && c.Replica(k) in w.objs && w.objs[c.Replica(k)].deleting
    ensures Left(c, Next(c, w, OthersPatch(c.Replica(k), {})), k) < Left(c, w, k)
  {
    assert ReplicaFine(c, w.objs, k);
  }

  // ----- the end of draining ----------------------------------------------------------------------------------

  ghost predicate Possible(c: Config, w: World, steps: seq<Step>)
    decreases |steps|
  {
    steps == [] || (Enabled(c, w, steps[0]) && Possible(c, Next(c, w, steps[0]), steps[1..]))
  }

  ghost function After(c: Config, w: World, steps: seq<Step>): World
    requires Possible(c, w, steps)
    decreases |steps|
  {
    if steps == [] then w else After(c, Next(c, w, steps[0]), steps[1..])
  }

  lemma {:induction false} OnAndOn(c: Config, w: World, steps: seq<Step>, more: seq<Step>)
    requires Possible(c, w, steps) && Possible(c, After(c, w, steps), more)
    ensures Possible(c, w, steps + more) && After(c, w, steps + more) == After(c, After(c, w, steps), more)
    decreases |steps|
  {
    var all := steps + more;
    if steps == [] {
      assert all == more;
    } else {
      assert all[0] == steps[0] && all[1..] == steps[1..] + more;
      OnAndOn(c, Next(c, w, steps[0]), steps[1..], more);
    }
  }

  /** No request for the object is under way, and the next one will let it go. */
  ghost predicate Ready(c: Config, w: World, k: Key, responsible: bool) {
    k !in w.inflight &&
    (Held(c, w.objs, k) ==> var o := w.objs[c.Origin(k)]; o.deleting || (!responsible && !o.annotated))
  }

  /** One request, or the others letting go of the replica. */
  ghost function Round(c: Config, w: World, k: Key, responsible: bool): seq<Step> {
    var r := c.Replica(k);
    if r in w.objs && w.objs[r].deleting then [OthersPatch(r, {})]
    else [Begin(k, responsible), Check(k), if r in w.objs then Drop(k) else Release(k)]
  }

  lemma RoundProgresses(c: Config, w: World, k: Key, responsible: bool)
    requires Injective(c) && Inv(c, w) && Ready(c, w, k, responsible) && Held(c, w.objs, k)
    ensures var steps := Round(c, w, k, responsible);
      Possible(c, w, steps)
      && var w1 := After(c, w, steps);
         Inv(c, w1) && Ready(c, w1, k, responsible) && Left(c, w1, k) < Left(c, w, k)
  {
    assert ReplicaFine(c, w.objs, k);
    var r := c.Replica(k);
    if r in w.objs && w.objs[r].deleting {
      var s := OthersPatch(r, {});
      LettingGoProgresses(c, w, k);
      StepKeeps(c, w, s);
      assert [s][1..] == [];
    } else {
      RequestRuns(c, w, k, responsible);
    }
  }

  lemma RequestRuns(c: Config, w: World, k: Key, responsible: bool)
    requires Injective(c) && Inv(c, w) && Ready(c, w, k, responsible) && Held(c, w.objs, k)
    requires c.Replica(k) in w.objs ==> !w.objs[c.Replica(k)].deleting
    ensures var steps := Round(c, w, k, responsible);
      Possible(c, w, steps)
      && var w1 := After(c, w, steps);
         Inv(c, w1) && Ready(c, w1, k, responsible) && Left(c, w1, k) < Left(c, w, k)
  {
    RequestProgresses(c, w, k, responsible);
    assert ReplicaFine(c, w.objs, k);
    var s1, s2 := Begin(k, responsible), Check(k);
    var s3 := if c.Replica(k) in w.objs then Drop(k) else Release(k);
    var w1 := Next(c, w, s1);
    var w2 := Next(c, w1, s2);
    StepKeeps(c, w, s1);
    StepKeeps(c, w1, s2);
    StepKeeps(c, w2, s3);
    ThreeSteps(c, w, s1, s2, s3);
  }

  lemma ThreeSteps(c: Config, w: World, s1: Step, s2: Step, s3: Step)
    requires Enabled(c, w, s1) && Enabled(c, Next(c, w, s1), s2) && Enabled(c, Next(c, Next(c, w, s1), s2), s3)
    ensures Possible(c, w, [s1, s2, s3])
    ensures After(c, w, [s1, s2, s3]) == Next(c, Next(c, Next(c, w, s1), s2), s3)
  {
    var w1 := Next(c, w, s1);
    var w2 := Next(c, w1, s2);
    assert [s3][1..] == [] && [s2, s3][1..] == [s3] && [s1, s2, s3][1..] == [s2, s3];
    assert Possible(c, w2, [s3]) && After(c, w2, [s3]) == Next(c, w2, s3);
    assert Possible(c, w1, [s2, s3]) && After(c, w1, [s2, s3]) == After(c, w2, [s3]);
  }

  function Most(left: nat): nat {
    if left == 0 then 0 else if left == 1 then 3 else if left == 2 then 4 else 7
  }

  /** Undisturbed, a drain comes to its end: two requests at most and the others letting go of the replica
      once, and neither replica nor finalizer is left. */
  lemma {:induction false} DrainEnds(c: Config, w: World, k: Key, responsible: bool) returns (steps: seq<Step>)
    requires Injective(c) && Inv(c, w) && Ready(c, w, k, responsible)
    ensures Possible(c, w, steps) && Left(c, After(c, w, steps), k) == 0 && |steps| <= Most(Left(c, w, k))
    ensures forall s | s in steps :: RequestOf(s) == Some(k) || s == OthersPatch(c.Replica(k), {})
    decreases Left(c, w, k)
  {
    assert ReplicaFine(c, w.objs, k);
    if Left(c, w, k) == 0 {
      steps := [];
    } else {
      var round := Round(c, w, k, responsible);
      RoundProgresses(c, w, k, responsible);
      var rest := DrainEnds(c, After(c, w, round), k, responsible);
      OnAndOn(c, w, round, rest);
      steps := round + rest;
    }
  }

  // ----- what a request for an owned object leads to ------------------------------------------------------------

  function Replicating(k: Key): seq<Step> {
    [Begin(k, true), Take(k), Look(k), Write(k)]
  }

  lemma OneStep(c: Config, w: World, s: Step)
    requires Enabled(c, w, s)
    ensures Possible(c, w, [s]) && After(c, w, [s]) == Next(c, w, s)
  {
    assert [s][0] == s && [s][1..] == [];
    assert Possible(c, Next(c, w, s), []);
  }

  lemma FourSteps(c: Config, w: World, s1: Step, s2: Step, s3: Step, s4: Step)
    requires Enabled(c, w, s1) && Enabled(c, Next(c, w, s1), s2) && Enabled(c, Next(c, Next(c, w, s1), s2), s3)
    requires Enabled(c, Next(c, Next(c, Next(c, w, s1), s2), s3), s4)
    ensures Possible(c, w, [s1, s2, s3, s4])
    ensures After(c, w, [s1, s2, s3, s4]) == Next(c, Next(c, Next(c, Next(c, w, s1), s2), s3), s4)
  {
    ThreeSteps(c, w, s1, s2, s3);
    OneStep(c, Next(c, Next(c, Next(c, w, s1), s2), s3), s4);
    OnAndOn(c, w, [s1, s2, s3], [s4]);
    assert [s1, s2, s3] + [s4] == [s1, s2, s3, s4];
  }

  /** A live object that is no replica, while the controller is responsible for it: an undisturbed request
      leaves it with the finalizer and, unless a replica being deleted is in the way, with a live replica
      that is marked as such. A new one carries the other finalizers of the object, one found keeps its
      own. Nothing else changes. */
  lemma RequestReplicates(c: Config, w: World, k: Key)
    requires Inv(c, w) && Free(c, k) && k !in w.inflight && c.Origin(k) in w.objs
    requires !w.objs[c.Origin(k)].deleting && !w.objs[c.Origin(k)].annotated
    ensures Possible(c, w, Replicating(k))
    ensures var objs, objs1 := w.objs, After(c, w, Replicating(k)).objs;
      var o, r := c.Origin(k), c.Replica(k);
      && o in objs1 && objs1[o] == objs[o].(finalizers := objs[o].finalizers + {c.finalizer})
      && (r !in objs ==> r in objs1 && objs1[r] == Obj(objs[o].finalizers - {c.finalizer}, false, true))
      && (r in objs && !objs[r].deleting ==> r in objs1 && objs1[r] == objs[r].(annotated := true))
      && (r in objs && objs[r].deleting ==> r in objs1 && objs1[r] == objs[r])
      && objs1.Keys == objs.Keys + {r} && forall x | x in objs && x != o && x != r :: objs1[x] == objs[x]
    ensures k !in After(c, w, Replicating(k)).inflight
  {
    var w1 := Next(c, w, Begin(k, true));
    var w2 := Next(c, w1, Take(k));
    var w3 := Next(c, w2, Look(k));
    var o := w.objs[c.Origin(k)];
    assert ReplicaFine(c, w.objs, k) && c.Replica(k) != c.Origin(k);
    assert w1.objs == w.objs && w1.inflight[k] == Taking(o);
    assert w2.inflight[k] == Holding(o.(finalizers := o.finalizers + {c.finalizer}));
    assert w3.objs == w2.objs && w3.inflight[k].Writing?;
    FourSteps(c, w, Begin(k, true), Take(k), Look(k), Write(k));
  }

  /** A write that was overtaken: a replica that came in between stays as it is, one that is gone stays
      away, and one whose finalizers were changed since it was read gets those it was read with. */
  lemma OvertakenWrite(c: Config, w: World, k: Key)
    requires Enabled(c, w, Write(k)) && c.Replica(k) in w.objs && !w.objs[c.Replica(k)].deleting
    ensures var r, found := c.Replica(k), w.inflight[k].found;
      var objs1 := Next(c, w, Write(k)).objs;
      var rest := w.objs - {r};
      && objs1 - {r} == rest && r in objs1
      && (found == None || found.value.deleting ==> objs1[r] == w.objs[r])
      && (found.Some? && !found.value.deleting ==> objs1[r] == Obj(found.value.finalizers, false, true))
  {
  }

  lemma VanishedWrite(c: Config, w: World, k: Key)
    requires Enabled(c, w, Write(k)) && c.Replica(k) !in w.objs && w.inflight[k].found.Some?
    ensures Next(c, w, Write(k)).objs == w.objs
  {
  }

  /** No replica carries the controller's finalizer: nothing is ever patched in the wrong cluster. */
  lemma DropDeletes(c: Config, w: World, k: Key)
    requires Inv(c, w) && Enabled(c, w, Drop(k))
    ensures Next(c, w, Drop(k)).objs ==
      if w.inflight[k].replica.deleting then w.objs else Deleted(w.objs, c.Replica(k))
  {
  }
}
