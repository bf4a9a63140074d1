/** What every step of the stream machine keeps. */
module StreamInvariants {
  import opened Wrappers
  import opened Subsequences
  import opened StreamMachine

  function Concat(q: seq<seq<int>>): seq<int> {
    if q == [] then [] else q[0] + Concat(q[1..])
  }

  lemma {:induction false} ConcatSnoc(q: seq<seq<int>>, b: seq<int>)
    ensures Concat(q + [b]) == Concat(q) + b
  {
    if q == [] {
      assert [b][1..] == [];
    } else {
      assert (q + [b])[1..] == q[1..] + [b];
      ConcatSnoc(q[1..], b);
    }
  }

  function Queued(s: System, id: Sid): seq<seq<int>> {
    if id in s.recs then s.recs[id].q else []
  }

  /** What the loop of a stream has taken out of the queue and not written yet. */
  function InFlight(s: System, id: Sid): seq<seq<int>> {
    if id in s.owner && s.owner[id].ByTask? && s.owner[id].t in s.tasks && !s.tasks[s.owner[id].t].Closing?
    then s.tasks[s.owner[id].t].items
    else []
  }

  function Delivered(s: System, id: Sid): seq<int> {
    if Half(id) in s.sinks then s.sinks[Half(id)].bytes else []
  }

  function Sent(s: System, id: Sid): seq<int> {
    Delivered(s, id) + Concat(InFlight(s, id)) + Concat(Queued(s, id))
  }

  // ----- the invariant -----

  /** The half of a stream is where its owner says, and nowhere else. */
  predicate OwnerOk(s: System, id: Sid)
    requires id in s.owner
  {
    match s.owner[id]
    case ByRecord =>
      id in s.recs && s.recs[id] == StreamRec(Some(Half(id)), [], false) && id !in s.removed
    case ByTask(t) =>
      && t in s.tasks && s.tasks[t].w == Half(id)
      && (match s.tasks[t]
          case Locking(i, _, items) => i == id && items == [] && RecordWithoutHalf(s, id)
          case Draining(i, _, _) => i == id && RecordWithoutHalf(s, id)
          case Closing(_) => id !in s.recs && id in s.removed)
    case Finished => id !in s.recs && id in s.removed
  }

  predicate RecordWithoutHalf(s: System, id: Sid) {
    id in s.recs && s.recs[id].write == None && (s.recs[id].ended <==> id in s.removed)
  }

  predicate DeliveryOk(s: System, id: Sid) {
    && id in s.accepted && Half(id) in s.sinks
    && (id !in s.lossy ==> Sent(s, id) == s.accepted[id])
    && Subsequence(Sent(s, id), s.accepted[id])
  }

  predicate StreamOk(s: System, id: Sid) {
    && id in s.owner
    && OwnerOk(s, id)
    && DeliveryOk(s, id)
    && (s.sinks[Half(id)].closed <==> s.owner[id].Finished?)
  }

  predicate TaskOk(s: System, t: Tid) {
    t in s.tasks && s.tasks[t].w.of in s.owner && s.owner[s.tasks[t].w.of] == ByTask(t)
  }

  ghost predicate Inv(s: System) {
    && (forall id {:trigger StreamOk(s, id)} :: id in s.owner ==> StreamOk(s, id))
    && (forall t {:trigger TaskOk(s, t)} :: t in s.tasks ==> TaskOk(s, t))
    && s.recs.Keys + s.removed + s.lossy <= s.owner.Keys
  }

  // ----- streams that a step does not touch -----

  predicate SameTask(s: System, s': System, id: Sid)
    requires id in s.owner
  {
    s.owner[id].ByTask? ==>
      var t := s.owner[id].t;
      t in s.tasks && t in s'.tasks && s'.tasks[t] == s.tasks[t]
  }

  predicate SameStream(s: System, s': System, id: Sid) {
    && id in s.owner && id in s'.owner && s'.owner[id] == s.owner[id] && SameTask(s, s', id)
    && id in s.accepted && id in s'.accepted && s'.accepted[id] == s.accepted[id]
    && Half(id) in s.sinks && Half(id) in s'.sinks && s'.sinks[Half(id)] == s.sinks[Half(id)]
    && (id in s'.recs <==> id in s.recs) && (id in s.recs ==> s'.recs[id] == s.recs[id])
    && (id in s'.removed <==> id in s.removed)
    && (id in s'.lossy <==> id in s.lossy)
  }

  lemma SameStreamOk(s: System, s': System, id: Sid)
    requires StreamOk(s, id) && SameStream(s, s', id)
    ensures StreamOk(s', id) && Sent(s', id) == Sent(s, id)
  {
    assert InFlight(s', id) == InFlight(s, id);
  }

  /** The stream an action works on. */
  function Of(s: System, a: Action): Sid
    requires Enabled(s, a)
  {
    match a
    case Insert(id) => id
    case Write(id, _, _) => id
    case Remove(id, _) => id
    case Lock(t) => s.tasks[t].w.of
    case WriteItem(t) => s.tasks[t].w.of
    case WriteFails(t, _) => s.tasks[t].w.of
    case EndDrain(t) => s.tasks[t].w.of
    case Shutdown(t) => s.tasks[t].w.of
  }

  lemma RecordFacts(s: System, id: Sid)
    requires Inv(s) && id in s.recs
    ensures id in s.owner && !s.owner[id].Finished?
    ensures s.recs[id].write.Some? ==> s.owner[id] == ByRecord && s.recs[id] == StreamRec(Some(Half(id)), [], false)
  {
    assert StreamOk(s, id);
  }

  lemma TaskFacts(s: System, t: Tid)
    requires Inv(s) && t in s.tasks
    ensures var task := s.tasks[t];
      var id := task.w.of;
      && id in s.owner && s.owner[id] == ByTask(t) && task.w == Half(id) && task.w in s.sinks
      && (!task.Closing? ==> task.id == id && id in s.recs && s.recs[id].write == None)
      && (task.Locking? ==> task.items == [])
  {
    assert TaskOk(s, t) && StreamOk(s, s.tasks[t].w.of);
  }

  lemma OwnedFacts(s: System, id: Sid)
    requires Inv(s) && id in s.owner
    ensures id in s.accepted && Half(id) in s.sinks
    ensures s.owner[id].ByTask? ==> s.owner[id].t in s.tasks && s.tasks[s.owner[id].t].w.of == id
  {
    assert StreamOk(s, id);
  }

  lemma OthersStay(s: System, a: Action, id: Sid)
    requires Inv(s) && Enabled(s, a) && id in s.owner && id != Of(s, a)
    ensures SameStream(s, Next(s, a), id)
  {
    OwnedFacts(s, id);
    match a
    case Insert(_) =>
    case Write(i, _, _) => if i in s.recs { RecordFacts(s, i); }
    case Remove(i, _) => if i in s.recs { RecordFacts(s, i); }
    case Lock(t) => LockLeavesOthers(s, t, id);
    case _ => TaskFacts(s, a.t);
  }

  lemma LockLeavesOthers(s: System, t: Tid, id: Sid)
    requires Inv(s) && Enabled(s, Lock(t)) && id in s.owner && id != s.tasks[t].w.of
    ensures SameStream(s, Next(s, Lock(t)), id)
  {
    OwnedFacts(s, id);
    TaskFacts(s, t);
  }

  // ----- the stream that a step works on -----

  lemma InsertKeeps(s: System, id: Sid)
    requires Inv(s) && Enabled(s, Insert(id))
    ensures StreamOk(Next(s, Insert(id)), id)
  {
  }

  lemma WriteIsSent(s: System, id: Sid, buf: seq<int>, t: Tid)
    requires Inv(s) && Enabled(s, Write(id, buf, t)) && id in s.recs
    ensures Sent(Next(s, Write(id, buf, t)), id) == Sent(s, id) + buf
  {
    assert StreamOk(s, id);
    var s' := Next(s, Write(id, buf, t));
    ConcatSnoc(Queued(s, id), buf);
    assert Concat(InFlight(s', id)) == Concat(InFlight(s, id));
  }

  lemma WriteKeeps(s: System, id: Sid, buf: seq<int>, t: Tid)
    requires Inv(s) && Enabled(s, Write(id, buf, t)) && id in s.recs
    ensures StreamOk(Next(s, Write(id, buf, t)), id)
    ensures Sent(Next(s, Write(id, buf, t)), id) == Sent(s, id) + buf
  {
    assert StreamOk(s, id);
    WriteIsSent(s, id, buf, t);
    SubsequenceGrows(Sent(s, id), s.accepted[id], buf);
  }

  lemma RemoveKeeps(s: System, id: Sid, t: Tid)
    requires Inv(s) && Enabled(s, Remove(id, t)) && id in s.recs
    ensures StreamOk(Next(s, Remove(id, t)), id)
    ensures Sent(Next(s, Remove(id, t)), id) == Sent(s, id)
  {
    assert StreamOk(s, id);
    var s' := Next(s, Remove(id, t));
    assert Concat(InFlight(s', id)) == Concat(InFlight(s, id));
  }

  lemma LockKeepsSent(s: System, t: Tid)
    requires Inv(s) && Enabled(s, Lock(t))
    ensures Sent(Next(s, Lock(t)), s.tasks[t].w.of) == Sent(s, s.tasks[t].w.of)
  {
    var id, s' := s.tasks[t].w.of, Next(s, Lock(t));
    TaskFacts(s, t);
    assert InFlight(s, id) == [] && Delivered(s', id) == Delivered(s, id);
    assert Concat(InFlight(s', id)) + Concat(Queued(s', id)) == Concat(Queued(s, id));
  }

  lemma LockKeeps(s: System, t: Tid)
    requires Inv(s) && Enabled(s, Lock(t))
    ensures StreamOk(Next(s, Lock(t)), s.tasks[t].w.of)
  {
    var id, s' := s.tasks[t].w.of, Next(s, Lock(t));
    TaskFacts(s, t);
    assert StreamOk(s, id);
    assert OwnerOk(s', id);
    LockKeepsSent(s, t);
  }

  lemma WriteItemKeeps(s: System, t: Tid)
    requires Inv(s) && Enabled(s, WriteItem(t))
    ensures var id := s.tasks[t].w.of;
      StreamOk(Next(s, WriteItem(t)), id) && Sent(Next(s, WriteItem(t)), id) == Sent(s, id)
  {
    var id, s' := s.tasks[t].w.of, Next(s, WriteItem(t));
    assert TaskOk(s, t) && StreamOk(s, id);
    assert Delivered(s', id) + Concat(InFlight(s', id)) == Delivered(s, id) + Concat(InFlight(s, id));
    assert Sent(s', id) == Sent(s, id);
  }

  lemma WriteFailsKeeps(s: System, t: Tid, n: int)
    requires Inv(s) && Enabled(s, WriteFails(t, n))
    ensures StreamOk(Next(s, WriteFails(t, n)), s.tasks[t].w.of)
  {
    var id, s' := s.tasks[t].w.of, Next(s, WriteFails(t, n));
    assert TaskOk(s, t) && StreamOk(s, id);
    var items, q := s.tasks[t].items, Concat(Queued(s, id));
    var lost := items[0][n..] + Concat(items[1..]);
    assert items[0] == items[0][..n] + items[0][n..];
    assert Sent(s, id) == Delivered(s', id) + lost + q;
    assert Sent(s', id) == Delivered(s', id) + q;
    SubsequenceDropMiddle(Delivered(s', id), lost, q, s.accepted[id]);
  }

  lemma EndDrainKeeps(s: System, t: Tid)
    requires Inv(s) && Enabled(s, EndDrain(t))
    ensures var id := s.tasks[t].w.of;
      StreamOk(Next(s, EndDrain(t)), id) && Sent(Next(s, EndDrain(t)), id) == Sent(s, id)
  {
    assert TaskOk(s, t) && StreamOk(s, s.tasks[t].w.of);
  }

  lemma ShutdownKeeps(s: System, t: Tid)
    requires Inv(s) && Enabled(s, Shutdown(t))
    ensures var id := s.tasks[t].w.of;
      StreamOk(Next(s, Shutdown(t)), id) && Sent(Next(s, Shutdown(t)), id) == Sent(s, id)
  {
    assert TaskOk(s, t) && StreamOk(s, s.tasks[t].w.of);
  }

  // ----- every step, every run -----

  lemma TouchedStays(s: System, a: Action)
    requires Inv(s) && Enabled(s, a) && Of(s, a) in Next(s, a).owner
    ensures StreamOk(Next(s, a), Of(s, a))
  {
    match a
    case Insert(id) => InsertKeeps(s, id);
    case Write(id, buf, t) => if id in s.recs { WriteKeeps(s, id, buf, t); } else { assert StreamOk(s, id); }
    case Remove(id, t) => if id in s.recs { RemoveKeeps(s, id, t); } else { assert StreamOk(s, id); }
    case Lock(t) => LockKeeps(s, t);
    case WriteItem(t) => WriteItemKeeps(s, t);
    case WriteFails(t, n) => WriteFailsKeeps(s, t, n);
    case EndDrain(t) => EndDrainKeeps(s, t);
    case Shutdown(t) => ShutdownKeeps(s, t);
  }

  lemma TasksStay(s: System, a: Action, t: Tid)
    requires Inv(s) && Enabled(s, a) && t in Next(s, a).tasks
    ensures TaskOk(Next(s, a), t)
  {
    if t in s.tasks {
      TaskFacts(s, t);
    }
    match a
    case Insert(_) =>
    case Write(i, _, _) => if i in s.recs { RecordFacts(s, i); }
    case Remove(i, _) => if i in s.recs { RecordFacts(s, i); }
    case _ => TaskFacts(s, a.t);
  }

  lemma StepKeepsInv(s: System, a: Action)
    requires Inv(s) && Enabled(s, a)
    ensures Inv(Next(s, a))
  {
    var s' := Next(s, a);
    forall id {:trigger StreamOk(s', id)} | id in s'.owner ensures StreamOk(s', id) {
      if id == Of(s, a) {
        TouchedStays(s, a);
      } else {
        assert StreamOk(s, id) by { OwnersAppearByInsertion(s, a, id); }
        OthersStay(s, a, id);
        SameStreamOk(s, s', id);
      }
    }
    forall t {:trigger TaskOk(s', t)} | t in s'.tasks ensures TaskOk(s', t) {
      TasksStay(s, a, t);
    }
    NamesStay(s, a);
  }

  lemma OwnersAppearByInsertion(s: System, a: Action, id: Sid)
    requires Inv(s) && Enabled(s, a) && id in Next(s, a).owner && id != Of(s, a)
    ensures id in s.owner
  {
    match a
    case Insert(_) =>
    case Write(i, _, _) => if i in s.recs { RecordFacts(s, i); }
    case Remove(i, _) => if i in s.recs { RecordFacts(s, i); }
    case _ => TaskFacts(s, a.t);
  }

  lemma NamesStay(s: System, a: Action)
    requires Inv(s) && Enabled(s, a)
    ensures Next(s, a).recs.Keys + Next(s, a).removed + Next(s, a).lossy <= Next(s, a).owner.Keys
  {
    match a
    case Insert(_) =>
    case Write(i, _, _) => if i in s.recs { RecordFacts(s, i); }
    case Remove(i, _) => if i in s.recs { RecordFacts(s, i); }
    case _ => TaskFacts(s, a.t);
  }

  lemma {:induction false} RunInv(h: seq<System>, i: int)
    requires IsRun(h) && 0 <= i < |h|
    ensures Inv(h[i])
    decreases i
  {
    if i > 0 {
      RunInv(h, i - 1);
      assert StepAt(h, i);
      var a :| Enabled(h[i - 1], a) && h[i] == Next(h[i - 1], a);
      StepKeepsInv(h[i - 1], a);
    }
  }

  lemma ReachableInv(s: System)
    requires Reachable(s)
    ensures Inv(s)
  {
    var h :| IsRun(h) && h[|h| - 1] == s;
    RunInv(h, |h| - 1);
  }
}
