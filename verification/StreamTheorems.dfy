/** What holds of streams in every reachable state and along every run. */
module StreamTheorems {
  import opened Wrappers
  import opened Subsequences
  import opened StreamMachine
  import opened StreamInvariants

  // ----- who has the write half -----

  predicate RecordHolds(s: System, id: Sid, w: Half) {
    id in s.recs && s.recs[id].write == Some(w)
  }

  predicate TaskHolds(s: System, t: Tid, w: Half) {
    t in s.tasks && s.tasks[t].w == w
  }

  /**
   A half that was ever inserted is closed, or in its own idle record, or with exactly one task; and a
   record that has it is empty and not ended.
   */
  lemma SingleOwner(s: System, w: Half)
    requires Reachable(s) && w in s.sinks && w.of in s.owner
    ensures s.sinks[w].closed <==> !RecordHolds(s, w.of, w) && forall t :: !TaskHolds(s, t, w)
    ensures forall id :: RecordHolds(s, id, w) ==>
      id == w.of && s.recs[id].q == [] && !s.recs[id].ended && forall t :: !TaskHolds(s, t, w)
    ensures forall t, t' :: TaskHolds(s, t, w) && TaskHolds(s, t', w) ==> t == t'
  {
    ReachableInv(s);
    assert StreamOk(s, w.of);
    forall id | RecordHolds(s, id, w)
      ensures id == w.of && s.owner[id] == ByRecord && s.recs[id].q == [] && !s.recs[id].ended
    {
      RecordFacts(s, id);
    }
    forall t | TaskHolds(s, t, w) ensures s.owner[w.of] == ByTask(t) {
      TaskFacts(s, t);
    }
    if s.owner[w.of].ByTask? {
      assert TaskHolds(s, s.owner[w.of].t, w);
    }
  }

  predicate RunsLoop(s: System, t: Tid, id: Sid) {
    t in s.tasks && !s.tasks[t].Closing? && s.tasks[t].id == id
  }

  /** At most one write loop runs for a stream. */
  lemma OneLoopPerStream(s: System, t: Tid, t': Tid, id: Sid)
    requires Reachable(s) && RunsLoop(s, t, id) && RunsLoop(s, t', id)
    ensures t == t'
  {
    ReachableInv(s);
    TaskFacts(s, t);
    TaskFacts(s, t');
  }

  /** A write loop always finds its record, with nothing left of its last batch to swap in. */
  lemma LoopFindsItsRecord(s: System, t: Tid)
    requires Reachable(s) && t in s.tasks && s.tasks[t].Locking?
    ensures s.tasks[t].id in s.recs && s.recs[s.tasks[t].id].write == None && s.tasks[t].items == []
  {
    ReachableInv(s);
    TaskFacts(s, t);
  }

  /** No task is ever stuck, and a write is held up by nothing. */
  lemma EveryTaskCanStep(s: System, t: Tid)
    requires Reachable(s) && t in s.tasks
    ensures Enabled(s, Lock(t)) || Enabled(s, WriteItem(t)) || Enabled(s, EndDrain(t)) || Enabled(s, Shutdown(t))
    ensures forall id, buf, t' :: t' !in s.tasks ==> Enabled(s, Write(id, buf, t'))
  {
    ReachableInv(s);
    TaskFacts(s, t);
    forall id | id in s.recs ensures id in s.accepted {
      RecordFacts(s, id);
      OwnedFacts(s, id);
    }
  }

  // ----- delivery -----

  /** Delivered, then in flight, then queued: all that was accepted, in order. */
  lemma NothingIsLost(s: System, id: Sid, t: Tid)
    requires Reachable(s) && id in s.owner && id !in s.lossy
    requires TaskHolds(s, t, Half(id)) && !s.tasks[t].Closing?
    ensures id in s.accepted
    ensures Delivered(s, id) + Concat(s.tasks[t].items) + Concat(Queued(s, id)) == s.accepted[id]
  {
    ReachableInv(s);
    TaskFacts(s, t);
    assert StreamOk(s, id);
  }

  /** A stream no task works for has delivered everything; it is closed if and only if it was removed. */
  lemma IdleMeansDelivered(s: System, id: Sid)
    requires Reachable(s) && id in s.owner && forall t :: !TaskHolds(s, t, Half(id))
    ensures id in s.accepted && Half(id) in s.sinks
    ensures s.sinks[Half(id)].closed <==> id in s.removed
    ensures id !in s.lossy ==> Delivered(s, id) == s.accepted[id]
  {
    ReachableInv(s);
    assert StreamOk(s, id);
    assert !TaskHolds(s, if s.owner[id].ByTask? then s.owner[id].t else Tid(0), Half(id));
  }

  /** A half being shut down, or closed, has seen everything, whether queued before or after the end was asked for. */
  lemma ClosedAfterEverything(s: System, id: Sid)
    requires Reachable(s) && id in s.owner
    requires (id in s.owner && Half(id) in s.sinks && s.sinks[Half(id)].closed)
      || exists t :: TaskHolds(s, t, Half(id)) && s.tasks[t].Closing?
    ensures id in s.removed && id !in s.recs && id in s.accepted
    ensures id !in s.lossy ==> Delivered(s, id) == s.accepted[id]
  {
    ReachableInv(s);
    assert StreamOk(s, id);
    if !s.sinks[Half(id)].closed {
      var t :| TaskHolds(s, t, Half(id)) && s.tasks[t].Closing?;
      TaskFacts(s, t);
    }
  }

  /** Failed writes lose data, but never reorder, repeat or invent it. */
  lemma FailuresOnlyDrop(s: System, id: Sid)
    requires Reachable(s) && id in s.owner
    ensures id in s.accepted && Subsequence(Delivered(s, id), s.accepted[id])
  {
    ReachableInv(s);
    assert StreamOk(s, id);
    var rest := Concat(InFlight(s, id)) + Concat(Queued(s, id));
    assert Sent(s, id) == Delivered(s, id) + rest + [];
    SubsequenceDropMiddle(Delivered(s, id), rest, [], s.accepted[id]);
    assert Delivered(s, id) + [] == Delivered(s, id);
  }

  // ----- along a run -----

  predicate StreamGrows(s: System, s': System, id: Sid) {
    && id in s.owner && id in s'.owner && id in s.accepted && id in s'.accepted
    && s.accepted[id] <= s'.accepted[id] && Delivered(s, id) <= Delivered(s', id)
    && (s.owner[id].Finished? ==>
          s'.owner[id].Finished? && s'.accepted[id] == s.accepted[id] && Delivered(s', id) == Delivered(s, id))
  }

  lemma StepGrows(s: System, a: Action, id: Sid)
    requires Inv(s) && Enabled(s, a) && id in s.owner
    ensures StreamGrows(s, Next(s, a), id)
  {
    assert StreamOk(s, id);
    if id != Of(s, a) {
      OthersStay(s, a, id);
    } else {
      match a
      case Insert(_) =>
      case Write(_, _, _) =>
      case Remove(_, _) =>
      case _ => TaskFacts(s, a.t);
    }
  }

  lemma RunStepGrows(h: seq<System>, j: int, id: Sid)
    requires IsRun(h) && 0 < j < |h| && id in h[j - 1].owner
    ensures StreamGrows(h[j - 1], h[j], id)
  {
    RunInv(h, j - 1);
    assert StepAt(h, j);
    var a :| Enabled(h[j - 1], a) && h[j] == Next(h[j - 1], a);
    StepGrows(h[j - 1], a, id);
  }

  lemma GrowthAddsUp(s: System, s': System, s'': System, id: Sid)
    requires StreamGrows(s, s', id) && StreamGrows(s', s'', id)
    ensures StreamGrows(s, s'', id)
  {
  }

  lemma GrowthStarts(s: System, id: Sid)
    requires Inv(s) && id in s.owner
    ensures StreamGrows(s, s, id)
  {
    OwnedFacts(s, id);
  }

  /** What a stream has delivered and accepted only grows, and once closed neither changes again. */
  lemma {:induction false} RunsOnlyAppend(h: seq<System>, i: int, j: int, id: Sid)
    requires IsRun(h) && 0 <= i <= j < |h| && id in h[i].owner
    ensures StreamGrows(h[i], h[j], id)
    decreases j - i
  {
    if i == j {
      RunInv(h, i);
      GrowthStarts(h[i], id);
    } else {
      RunsOnlyAppend(h, i, j - 1, id);
      RunStepGrows(h, j, id);
      GrowthAddsUp(h[i], h[j - 1], h[j], id);
    }
  }

  // ----- the loop ends -----

  predicate ByItself(a: Action) {
    !a.Insert? && !a.Write? && !a.Remove?
  }

  function LockWork(q: seq<seq<int>>): nat {
    if q == [] then 2 else |q| + 4
  }

  /** How many more steps the loop of a stream can take by itself. */
  function Work(s: System, id: Sid): nat {
    if id !in s.owner || !s.owner[id].ByTask? || s.owner[id].t !in s.tasks then 0
    else
      match s.tasks[s.owner[id].t]
      case Closing(_) => 1
      case Locking(_, _, _) => LockWork(Queued(s, id))
      case Draining(_, _, items) => |items| + 1 + LockWork(Queued(s, id))
  }

  lemma StepCosts(s: System, a: Action)
    requires Inv(s) && Enabled(s, a) && ByItself(a)
    ensures Work(Next(s, a), Of(s, a)) < Work(s, Of(s, a))
  {
    TaskFacts(s, a.t);
    if a.Lock? {
      LockCosts(s, a.t);
    }
  }

  lemma LockCosts(s: System, t: Tid)
    requires Inv(s) && Enabled(s, Lock(t))
    ensures Work(Next(s, Lock(t)), s.tasks[t].w.of) < Work(s, s.tasks[t].w.of)
  {
    TaskFacts(s, t);
  }

  /** Steps of write loops and shutdowns, one after the other. */
  ghost predicate Schedule(s: System, steps: seq<Action>)
    decreases |steps|
  {
    steps == [] || (ByItself(steps[0]) && Enabled(s, steps[0]) && Schedule(Next(s, steps[0]), steps[1..]))
  }

  /** How many of them are for one stream. */
  ghost function StepsFor(s: System, steps: seq<Action>, id: Sid): nat
    requires Schedule(s, steps)
    decreases |steps|
  {
    if steps == [] then 0
    else (if Of(s, steps[0]) == id then 1 else 0) + StepsFor(Next(s, steps[0]), steps[1..], id)
  }

  /** Without new writes, however the steps are interleaved, the loop of a stream soon ends. */
  lemma {:induction false} LoopsEnd(s: System, steps: seq<Action>, id: Sid)
    requires Inv(s) && id in s.owner && Schedule(s, steps)
    ensures StepsFor(s, steps, id) <= Work(s, id)
    decreases |steps|
  {
    if steps != [] {
      var a := steps[0];
      StepKeepsInv(s, a);
      StepGrowsOwner(s, a, id);
      LoopsEnd(Next(s, a), steps[1..], id);
      if Of(s, a) == id {
        StepCosts(s, a);
      } else {
        OthersStay(s, a, id);
      }
    }
  }

  lemma StepGrowsOwner(s: System, a: Action, id: Sid)
    requires Inv(s) && Enabled(s, a) && id in s.owner
    ensures id in Next(s, a).owner
  {
    StepGrows(s, a, id);
  }
}
