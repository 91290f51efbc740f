/** Who is told when the responsibility for a zone changes (replicate/hostedzone/logic.go): `Handle`
    is called with every verdict, `Delete` when the replica of a zone is to go. */
module Notifications {
  import opened Wrappers

  /** What the indices list for a zone at the time of a call; nothing where one cannot be read. */
  datatype Dependents = Dependents(children: seq<string>, entries: seq<string>)

  datatype Call =
    | Handle(request: string, verdict: bool, dependents: Dependents)
    | Delete(request: string, dependents: Dependents)

  // ----- what should happen, told by the history alone ----------------------------------------------

  /** The last verdict on the zone since it was last deleted. */
  function LastVerdict(calls: seq<Call>, request: string): Option<bool> {
    if calls == [] then None
    else
      var c := calls[|calls| - 1];
      if c.request != request then LastVerdict(calls[..|calls| - 1], request)
      else if c.Delete? then None else Some(c.verdict)
  }

  /** A call is news: a deletion, a first verdict or another one than before. */
  predicate News(calls: seq<Call>, i: nat)
    requires i < |calls|
  {
    calls[i].Delete? || LastVerdict(calls[..i], calls[i].request) != Some(calls[i].verdict)
  }

  /** Whoever is to be notified, in order: the dependents of every zone there is news of, as they are
      when the news comes. */
  function Notified(calls: seq<Call>): seq<string> {
    if calls == [] then []
    else
      var k := |calls| - 1;
      var d := calls[k].dependents;
      Notified(calls[..k]) + if News(calls, k) then d.children + d.entries else []
  }

  // ----- the handler ------------------------------------------------------------------------------------

  class Handler {
    var unresponsible: map<string, bool>
    var queue: seq<string>
    /** The calls so far. */
    ghost var history: seq<Call>

    /** The map holds the last verdicts, and exactly the dependents of the news were enqueued. */
    ghost predicate Valid()
      reads this
    {
      && (forall r {:trigger r in unresponsible} :: r in unresponsible <==> LastVerdict(history, r).Some?)
      && (forall r {:trigger unresponsible[r]} | r in unresponsible ::
            LastVerdict(history, r) == Some(unresponsible[r]))
      && queue == Notified(history)
    }

    constructor ()
      ensures Valid() && history == [] && queue == []
    {
      unresponsible, queue, history := map[], [], [];
    }

    method TriggerChildren(d: Dependents)
      modifies this`queue
      ensures queue == old(queue) + d.children
    {
      var cs := d.children;
      for i := 0 to |cs|
        invariant queue == old(queue) + cs[..i]
      {
        queue := queue + [cs[i]];
      }
      assert cs[..|cs|] == cs;
    }

    method TriggerEntries(d: Dependents)
      modifies this`queue
      ensures queue == old(queue) + d.entries
    {
      var es := d.entries;
      for i := 0 to |es|
        invariant queue == old(queue) + es[..i]
      {
        queue := queue + [es[i]];
      }
      assert es[..|es|] == es;
    }

    /** Lines 102-118. */
    method Handle(request: string, verdict: bool, d: Dependents)
      requires Valid()
      modifies this
      ensures Valid() && history == old(history) + [Call.Handle(request, verdict, d)]
      ensures request in unresponsible && unresponsible[request] == verdict
      ensures queue == if request in old(unresponsible) && old(unresponsible)[request] == verdict then old(queue)
                       else old(queue) + d.children + d.entries
    {
      ghost var calls := history + [Call.Handle(request, verdict, d)];
      OneMoreCall(history, Call.Handle(request, verdict, d));
      history := calls;
      if request in unresponsible && unresponsible[request] == verdict {
        return;
      }
      unresponsible := unresponsible[request := verdict];
      TriggerChildren(d);
      TriggerEntries(d);
    }

    /** Lines 61-66. */
    method Delete(request: string, d: Dependents)
      requires Valid()
      modifies this
      ensures Valid() && history == old(history) + [Call.Delete(request, d)]
      ensures request !in unresponsible
      ensures queue == old(queue) + d.children + d.entries
    {
      OneMoreCall(history, Call.Delete(request, d));
      history := history + [Call.Delete(request, d)];
      unresponsible := unresponsible - {request};
      TriggerChildren(d);
      TriggerEntries(d);
    }
  }

  lemma OneMoreCall(calls: seq<Call>, c: Call)
    ensures forall r {:trigger LastVerdict(calls + [c], r)} ::
      LastVerdict(calls + [c], r) ==
        (if r != c.request then LastVerdict(calls, r) else if c.Delete? then None else Some(c.verdict))
    ensures Notified(calls + [c]) ==
      if c.Delete? || LastVerdict(calls, c.request) != Some(c.verdict)
      then Notified(calls) + (c.dependents.children + c.dependents.entries) else Notified(calls)
  {
    var all := calls + [c];
    var k := |calls|;
    assert all[..k] == calls && all[k] == c;
    assert News(all, k) <==> c.Delete? || LastVerdict(calls, c.request) != Some(c.verdict);
  }

  /** The last verdict is the one of the latest call for the zone, if that was no deletion. */
  lemma {:induction false} LastVerdictIff(calls: seq<Call>, request: string, verdict: bool)
    ensures LastVerdict(calls, request) == Some(verdict) <==>
      exists i: nat :: LatestAt(calls, request, i) && calls[i].Handle? && calls[i].verdict == verdict
    decreases |calls|
  {
    if calls != [] {
      var k := |calls| - 1;
      LastVerdictIff(calls[..k], request, verdict);
      if calls[k].request == request {
        assert LatestAt(calls, request, k);
      } else {
        forall i: nat | i < k
          ensures LatestAt(calls[..k], request, i) <==> LatestAt(calls, request, i)
          ensures calls[..k][i] == calls[i]
        {
          LatestFurther(calls, request, i);
        }
      }
    }
  }

  /** Call `i` is the latest for the zone. */
  predicate LatestAt(calls: seq<Call>, request: string, i: nat) {
    i < |calls| && calls[i].request == request
    && forall j {:trigger calls[j]} | i < j < |calls| :: calls[j].request != request
  }

  lemma LatestFurther(calls: seq<Call>, request: string, i: nat)
    requires i + 1 < |calls| && calls[|calls| - 1].request != request
    ensures LatestAt(calls[..|calls| - 1], request, i) <==> LatestAt(calls, request, i)
  {
    var k := |calls| - 1;
    assert forall j | i < j < k :: calls[..k][j] == calls[j];
  }

  /** A verdict is no news exactly when the latest call for the zone was the same verdict. */
  lemma NoNewsIff(calls: seq<Call>, i: nat)
    requires i < |calls| && calls[i].Handle?
    ensures !News(calls, i) <==>
      exists h: nat :: LatestAt(calls[..i], calls[i].request, h) && calls[h].Handle? &&
        calls[h].verdict == calls[i].verdict
  {
    LastVerdictIff(calls[..i], calls[i].request, calls[i].verdict);
  }
}
