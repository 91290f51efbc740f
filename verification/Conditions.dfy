/** The status of a nested HostedZone follows its root (direct/hostedzone/conditions.go). */
module Conditions {
  import opened Wrappers

  datatype Condition = Condition(type_: string, status: bool, reason: string, message: string, generation: nat)

  const VALIDATION := "Validation"
  const RUNTIME := "Runtime"
  const NAMESERVER := "Nameserver"
  const SERVER := "DNSServer"
  const STATE_READY := "Ready"
  const RUNTIME_DEPLOYING := "RuntimeDeploying"

  const TRANSFERRED: set<string> := {RUNTIME, NAMESERVER}
  const MINE: set<string> := {VALIDATION, RUNTIME, NAMESERVER}

  // ----- the condition lists of the API machinery -----------------------------------------------------

  /** meta.FindStatusCondition: the first of the type. */
  function Find(cs: seq<Condition>, t: string): (r: Option<Condition>)
    ensures r.Some? ==> r.value in cs && r.value.type_ == t
    ensures r.None? ==> forall c | c in cs :: c.type_ != t
  {
    if cs == [] then None else if cs[0].type_ == t then Some(cs[0]) else Find(cs[1..], t)
  }

  /** meta.SetStatusCondition: the first of the type is replaced, or the condition is appended. */
  function Set(cs: seq<Condition>, c: Condition): seq<Condition> {
    if cs == [] then [c] else if cs[0].type_ == c.type_ then [c] + cs[1..] else [cs[0]] + Set(cs[1..], c)
  }

  /** meta.RemoveStatusCondition: all of the type go. */
  function Remove(cs: seq<Condition>, t: string): seq<Condition> {
    if cs == [] then [] else if cs[0].type_ == t then Remove(cs[1..], t) else [cs[0]] + Remove(cs[1..], t)
  }

  lemma {:induction false} FindAfterSet(cs: seq<Condition>, c: Condition, t: string)
    ensures Find(Set(cs, c), t) == if t == c.type_ then Some(c) else Find(cs, t)
    decreases |cs|
  {
    if cs != [] && cs[0].type_ != c.type_ { FindAfterSet(cs[1..], c, t); }
  }

  lemma {:induction false} FindAfterRemove(cs: seq<Condition>, u: string, t: string)
    ensures Find(Remove(cs, u), t) == if t == u then None else Find(cs, t)
    decreases |cs|
  {
    if cs != [] { FindAfterRemove(cs[1..], u, t); }
  }

  predicate UniqueTypes(cs: seq<Condition>) {
    forall i, j | 0 <= i < j < |cs| :: cs[i].type_ != cs[j].type_
  }

  lemma {:induction false} FindUnique(cs: seq<Condition>, i: nat)
    requires UniqueTypes(cs) && i < |cs|
    ensures Find(cs, cs[i].type_) == Some(cs[i])
    decreases |cs|
  {
    if i > 0 {
      assert cs[0].type_ != cs[i].type_;
      FindUnique(cs[1..], i - 1);
    }
  }

  /** Types stay unique, whatever is set or removed. */
  lemma {:induction false} TypesAfterSet(cs: seq<Condition>, c: Condition)
    requires UniqueTypes(cs)
    ensures UniqueTypes(Set(cs, c)) && forall d | d in Set(cs, c) :: d == c || (d in cs && d.type_ != c.type_)
    decreases |cs|
  {
    if cs != [] {
      assert forall i | 0 <= i < |cs| - 1 :: cs[1..][i] == cs[i + 1] && cs[0].type_ != cs[i + 1].type_;
      if cs[0].type_ != c.type_ {
        TypesAfterSet(cs[1..], c);
      }
    }
  }

  lemma {:induction false} TypesAfterRemove(cs: seq<Condition>, t: string)
    requires UniqueTypes(cs)
    ensures UniqueTypes(Remove(cs, t)) && forall d :: d in Remove(cs, t) <==> d in cs && d.type_ != t
    decreases |cs|
  {
    if cs != [] {
      assert forall i | 0 <= i < |cs| - 1 :: cs[1..][i] == cs[i + 1] && cs[0].type_ != cs[i + 1].type_;
      TypesAfterRemove(cs[1..], t);
      assert forall d :: d in cs <==> d == cs[0] || d in cs[1..];
    }
  }

  // ----- what the summary says ----------------------------------------------------------------------------

  predicate Holds(cs: seq<Condition>, t: string) {
    Find(cs, t).Some? && Find(cs, t).value.status
  }

  /** The first condition in the order of the summary that is missing or not True. */
  function FirstOpen(cs: seq<Condition>): Option<string> {
    if !Holds(cs, VALIDATION) then Some(VALIDATION)
    else if !Holds(cs, RUNTIME) then Some(RUNTIME)
    else if !Holds(cs, NAMESERVER) then Some(NAMESERVER)
    else if !Holds(cs, SERVER) then Some(SERVER)
    else None
  }

  /** The condition in front of a type, whose message is shown while that type is missing. */
  function Before(t: string): Option<string> {
    if t == RUNTIME then Some(VALIDATION) else if t == NAMESERVER then Some(RUNTIME)
    else if t == SERVER then Some(NAMESERVER) else None
  }

  class ZoneStatus {
    var generation: nat
    var conditions: seq<Condition>
    var state: string
    var message: string

    constructor (g: nat, cs: seq<Condition>)
      ensures generation == g && conditions == cs
    {
      generation, conditions, state, message := g, cs, "", "";
    }

    /** Lines 20-42. The second loop runs over the conditions as they were before it. */
    method TransferConditions(from: seq<Condition>)
      requires UniqueTypes(from)
      modifies this
      ensures generation == old(generation)
      ensures UniqueTypes(old(conditions)) ==> UniqueTypes(conditions)
      ensures forall t | t == RUNTIME || t == NAMESERVER ::
        Find(conditions, t) == (match Find(from, t)
                                case None => None
                                case Some(c) => Some(c.(generation := generation)))
      ensures Find(conditions, VALIDATION) ==
        if Find(from, VALIDATION).None? then None else Find(old(conditions), VALIDATION)
      ensures forall t | t != VALIDATION && t != RUNTIME && t != NAMESERVER ::
        Find(conditions, t) == Find(old(conditions), t)
      ensures state == STATE_READY <==>
        Holds(conditions, VALIDATION) && Holds(conditions, RUNTIME) && Holds(conditions, NAMESERVER) &&
          Holds(conditions, SERVER)
    {
      Transfer(from);
      DropMissing(from);
      MergedMeans(old(conditions), from, generation, conditions);
      Summary();
    }

    /** The first loop: runtime and nameserver conditions are copied (lines 22-32). */
    method Transfer(from: seq<Condition>)
      requires UniqueTypes(from)
      modifies this`conditions
      ensures forall t :: Find(conditions, t) == Transferred(old(conditions), from, generation, t)
      ensures UniqueTypes(old(conditions)) ==> UniqueTypes(conditions)
    {
      for i := 0 to |from|
        invariant UniqueTypes(old(conditions)) ==> UniqueTypes(conditions)
        invariant forall t :: Find(conditions, t) == Transferred(old(conditions), from[..i], generation, t)
      {
        ghost var before := conditions;
        var c := from[i];
        if c.type_ in TRANSFERRED {
          conditions := Set(conditions, c.(generation := generation));
          if UniqueTypes(before) { TypesAfterSet(before, c.(generation := generation)); }
        }
        forall t ensures Find(conditions, t) == Transferred(old(conditions), from[..i + 1], generation, t) {
          FindAfterSet(before, c.(generation := generation), t);
          TransferredNext(old(conditions), from, generation, i, t);
        }
      }
      assert from[..|from|] == from;
    }

    /** The second loop: what the root lacks goes (lines 33-40). */
    method DropMissing(from: seq<Condition>)
      modifies this`conditions
      ensures forall t ::
        Find(conditions, t) == (if t in MINE && Find(from, t) == None then None else Find(old(conditions), t))
      ensures UniqueTypes(old(conditions)) ==> UniqueTypes(conditions)
    {
      var snapshot := conditions;
      for i := 0 to |snapshot|
        invariant UniqueTypes(snapshot) ==> UniqueTypes(conditions)
        invariant forall t :: Find(conditions, t) == Dropped(snapshot, from, i, t)
      {
        ghost var before := conditions;
        var c := snapshot[i];
        if c.type_ in MINE {
          if Find(from, c.type_) == None {
            conditions := Remove(conditions, c.type_);
            if UniqueTypes(before) { TypesAfterRemove(before, c.type_); }
          }
        }
        DroppedNext(snapshot, from, i, before);
      }
      DroppedAll(snapshot, from);
    }

    /** Lines 44-81. */
    method Summary()
      modifies this`state, this`message
      ensures state == STATE_READY <==>
        Holds(conditions, VALIDATION) && Holds(conditions, RUNTIME) && Holds(conditions, NAMESERVER) &&
          Holds(conditions, SERVER)
      ensures state in {STATE_READY, "Pending", "Failed"}
      ensures state == "Pending" <==>
        || (FirstOpen(conditions) == Some(NAMESERVER) && Find(conditions, NAMESERVER).Some?)
        || (FirstOpen(conditions) == Some(RUNTIME) && Find(conditions, RUNTIME).Some?
            && Find(conditions, RUNTIME).value.reason == RUNTIME_DEPLOYING)
      ensures message ==
        match FirstOpen(conditions)
        case None => Find(conditions, SERVER).value.message
        case Some(t) =>
          if Find(conditions, t).Some? then Find(conditions, t).value.message
          else if t == VALIDATION then "status unknown"
          else Find(conditions, Before(t).value).value.message
    {
      var status, msg := "Failed", "status unknown";
      var c := Find(conditions, VALIDATION);
      if c.Some? {
        msg := c.value.message;
        if c.value.status {
          c := Find(conditions, RUNTIME);
          if c.Some? {
            msg := c.value.message;
            if c.value.status {
              c := Find(conditions, NAMESERVER);
              if c.Some? {
                msg := c.value.message;
                if c.value.status {
                  c := Find(conditions, SERVER);
                  if c.Some? {
                    msg := c.value.message;
                    if c.value.status {
                      status := STATE_READY;
                    }
                  }
                } else {
                  status := "Pending";
                }
              }
            } else {
              if c.value.reason == RUNTIME_DEPLOYING {
                status := "Pending";
              }
            }
          }
        }
      }
      message := msg;
      state := status;
    }
  }

  /** The condition of type `t` after the transfer from `from`. */
  function Transferred(cs: seq<Condition>, from: seq<Condition>, generation: nat, t: string): Option<Condition> {
    match Find(from, t)
    case Some(c) => if t in TRANSFERRED then Some(c.(generation := generation)) else Find(cs, t)
    case None => Find(cs, t)
  }

  /** What both loops leave, type by type. */
  lemma MergedMeans(cs: seq<Condition>, from: seq<Condition>, generation: nat, cs1: seq<Condition>)
    requires forall t ::
      Find(cs1, t) == if t in MINE && Find(from, t) == None then None else Transferred(cs, from, generation, t)
    ensures forall t | t == RUNTIME || t == NAMESERVER ::
      Find(cs1, t) == (match Find(from, t) case None => None case Some(c) => Some(c.(generation := generation)))
    ensures Find(cs1, VALIDATION) == if Find(from, VALIDATION).None? then None else Find(cs, VALIDATION)
    ensures forall t | t != VALIDATION && t != RUNTIME && t != NAMESERVER :: Find(cs1, t) == Find(cs, t)
  {
    forall t | t == RUNTIME || t == NAMESERVER
      ensures Find(cs1, t) == match Find(from, t) case None => None case Some(c) => Some(c.(generation := generation))
    {
      assert t in MINE;
    }
    forall t | t != VALIDATION && t != RUNTIME && t != NAMESERVER ensures Find(cs1, t) == Find(cs, t) {
      assert t !in TRANSFERRED;
    }
    assert VALIDATION in MINE && VALIDATION !in TRANSFERRED;
  }

  lemma TransferredNext(cs: seq<Condition>, from: seq<Condition>, generation: nat, i: nat, t: string)
    requires UniqueTypes(from) && i < |from|
    ensures Transferred(cs, from[..i + 1], generation, t) ==
      if from[i].type_ == t && t in TRANSFERRED then Some(from[i].(generation := generation))
      else Transferred(cs, from[..i], generation, t)
  {
    assert from[..i + 1] == from[..i] + [from[i]];
    FindInSum(from[..i], [from[i]], t);
    if Find(from[..i], t).Some? {
      assert from[i].type_ != t by {
        var j :| 0 <= j < i && from[..i][j].type_ == t;
        assert from[j].type_ != from[i].type_;
      }
    }
  }

  lemma {:induction false} FindInSum(a: seq<Condition>, b: seq<Condition>, t: string)
    ensures Find(a + b, t) == if Find(a, t).Some? then Find(a, t) else Find(b, t)
    decreases |a|
  {
    if a == [] {
      assert a + b == b;
    } else {
      assert (a + b)[0] == a[0] && (a + b)[1..] == a[1..] + b;
      FindInSum(a[1..], b, t);
    }
  }

  /** The condition of type `t` once the second loop has passed the first `i` conditions. */
  function Dropped(snapshot: seq<Condition>, from: seq<Condition>, i: nat, t: string): Option<Condition>
    requires i <= |snapshot|
  {
    if t in MINE && Find(from, t) == None && (exists j :: 0 <= j < i && snapshot[j].type_ == t) then None
    else Find(snapshot, t)
  }

  lemma DroppedNext(snapshot: seq<Condition>, from: seq<Condition>, i: nat, before: seq<Condition>)
    requires i < |snapshot| && forall t :: Find(before, t) == Dropped(snapshot, from, i, t)
    ensures var u := snapshot[i].type_;
      var cs := if u in MINE && Find(from, u) == None then Remove(before, u) else before;
      forall t :: Find(cs, t) == Dropped(snapshot, from, i + 1, t)
  {
    var u := snapshot[i].type_;
    var cs := if u in MINE && Find(from, u) == None then Remove(before, u) else before;
    forall t ensures Find(cs, t) == Dropped(snapshot, from, i + 1, t) {
      DroppedNextAt(snapshot, from, i, before, t);
    }
  }

  lemma DroppedNextAt(snapshot: seq<Condition>, from: seq<Condition>, i: nat, before: seq<Condition>, t: string)
    requires i < |snapshot| && Find(before, t) == Dropped(snapshot, from, i, t)
    ensures var u := snapshot[i].type_;
      var cs := if u in MINE && Find(from, u) == None then Remove(before, u) else before;
      Find(cs, t) == Dropped(snapshot, from, i + 1, t)
  {
    var u := snapshot[i].type_;
    FindAfterRemove(before, u, t);
    if u != t {
      assert (exists j :: 0 <= j < i + 1 && snapshot[j].type_ == t) <==>
        (exists j :: 0 <= j < i && snapshot[j].type_ == t);
    } else {
      assert snapshot[i].type_ == t;
    }
  }

  lemma DroppedAll(snapshot: seq<Condition>, from: seq<Condition>)
    ensures forall t ::
      Dropped(snapshot, from, |snapshot|, t) == if t in MINE && Find(from, t) == None then None else Find(snapshot, t)
  {
    forall t ensures Find(snapshot, t).Some? ==> exists j :: 0 <= j < |snapshot| && snapshot[j].type_ == t {
    }
  }
}
