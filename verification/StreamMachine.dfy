/**
 The hand-over of the write half of a stream between the stream table and the write loop, as
 interleaved atomic sections: what happens under the lock is one step, every item written is one.
 */
module StreamMachine {
  import opened Wrappers

  datatype Sid = Sid(n: int)
  datatype Tid = Tid(n: int)

  /** A write half, named after the id it was inserted under. */
  datatype Half = Half(of: Sid)

  datatype StreamRec = StreamRec(write: Option<Half>, q: seq<seq<int>>, ended: bool)

  type Table = map<Sid, StreamRec>

  // ----- the critical sections -----

  function InsertIn(m: Table, id: Sid, w: Half): Table {
    m[id := StreamRec(Some(w), [], false)]
  }

  /** The new table, and the half with which a write loop is spawned. */
  function WriteIn(m: Table, id: Sid, buf: seq<int>): (Table, Option<Half>) {
    if id !in m then (m, None)
    else (m[id := m[id].(q := m[id].q + [buf], write := None)], m[id].write)
  }

  /** The new table, and the half that is shut down at once. */
  function RemoveIn(m: Table, id: Sid): (Table, Option<Half>) {
    if id !in m then (m, None)
    else if m[id].write.Some? then (m - {id}, m[id].write)
    else (m[id := m[id].(ended := true)], None)
  }

  /** What the loop does after its critical section: stop and shut down, end quietly, or write items. */
  datatype LoopNext = ShutDown | GiveBack | Drain(items: seq<seq<int>>)

  function LockIn(m: Table, id: Sid, w: Half, items: seq<seq<int>>): (Table, LoopNext) {
    if id !in m then (m, ShutDown)
    else if m[id].q == [] then
      if m[id].ended then (m - {id}, ShutDown)
      else (m[id := m[id].(write := Some(w))], GiveBack)
    else (m[id := m[id].(q := items)], Drain(m[id].q))
  }

  // ----- the system -----

  datatype Task =
    | Locking(id: Sid, w: Half, items: seq<seq<int>>)
    | Draining(id: Sid, w: Half, items: seq<seq<int>>)
    | Closing(w: Half)

  datatype Sink = Sink(bytes: seq<int>, closed: bool)

  datatype Owner = ByRecord | ByTask(t: Tid) | Finished

  /**
   recs is the table, tasks what has been spawned and not ended, sinks what the other end of each
   half sees. The rest is history: who has each half, what was accepted for it, whether its removal
   was asked for while it had a record, and whether a write to it has failed.
   */
  datatype System = System(
    recs: Table, tasks: map<Tid, Task>, sinks: map<Half, Sink>,
    owner: map<Sid, Owner>, accepted: map<Sid, seq<int>>, removed: set<Sid>, lossy: set<Sid>)

  const INIT_SYSTEM := System(map[], map[], map[], map[], map[], {}, {})

  datatype Action =
    | Insert(id: Sid)
    | Write(id: Sid, buf: seq<int>, t: Tid)
    | Remove(id: Sid, t: Tid)
    | Lock(t: Tid)
    | WriteItem(t: Tid)
    | WriteFails(t: Tid, n: int)
    | EndDrain(t: Tid)
    | Shutdown(t: Tid)

  predicate IsDraining(s: System, t: Tid) {
    t in s.tasks && s.tasks[t].Draining? && s.tasks[t].w in s.sinks
  }

  /** Ids are inserted once; a spawned task has a new name. */
  predicate Enabled(s: System, a: Action) {
    match a
    case Insert(id) => id !in s.owner
    case Write(id, _, t) => t !in s.tasks && (id in s.recs ==> id in s.accepted)
    case Remove(_, t) => t !in s.tasks
    case Lock(t) => t in s.tasks && s.tasks[t].Locking?
    case WriteItem(t) => IsDraining(s, t) && s.tasks[t].items != []
    case WriteFails(t, n) => IsDraining(s, t) && s.tasks[t].items != [] && 0 <= n <= |s.tasks[t].items[0]|
    case EndDrain(t) => IsDraining(s, t) && s.tasks[t].items == []
    case Shutdown(t) => t in s.tasks && s.tasks[t].Closing? && s.tasks[t].w in s.sinks
  }

  function Next(s: System, a: Action): System
    requires Enabled(s, a)
  {
    match a
    case Insert(id) =>
      s.(recs := InsertIn(s.recs, id, Half(id)), sinks := s.sinks[Half(id) := Sink([], false)],
         owner := s.owner[id := ByRecord], accepted := s.accepted[id := []])
    case Write(id, buf, t) =>
      if id !in s.recs then s
      else
        var (recs, spawned) := WriteIn(s.recs, id, buf);
        var s1 := s.(recs := recs, accepted := s.accepted[id := s.accepted[id] + buf]);
        if spawned.Some? then
          s1.(tasks := s.tasks[t := Locking(id, spawned.value, [])], owner := s.owner[spawned.value.of := ByTask(t)])
        else s1
    case Remove(id, t) =>
      if id !in s.recs then s
      else
        var (recs, closing) := RemoveIn(s.recs, id);
        var s1 := s.(recs := recs, removed := s.removed + {id});
        if closing.Some? then
          s1.(tasks := s.tasks[t := Closing(closing.value)], owner := s.owner[closing.value.of := ByTask(t)])
        else s1
    case Lock(t) => DoLock(s, t)
    case WriteItem(t) =>
      var task := s.tasks[t];
      s.(sinks := s.sinks[task.w := s.sinks[task.w].(bytes := s.sinks[task.w].bytes + task.items[0])],
         tasks := s.tasks[t := Draining(task.id, task.w, task.items[1..])])
    case WriteFails(t, n) =>
      var task := s.tasks[t];
      s.(sinks := s.sinks[task.w := s.sinks[task.w].(bytes := s.sinks[task.w].bytes + task.items[0][..n])],
         tasks := s.tasks[t := Draining(task.id, task.w, [])], lossy := s.lossy + {task.w.of})
    case EndDrain(t) =>
      s.(tasks := s.tasks[t := Locking(s.tasks[t].id, s.tasks[t].w, [])])
    case Shutdown(t) =>
      var w := s.tasks[t].w;
      s.(sinks := s.sinks[w := s.sinks[w].(closed := true)], tasks := s.tasks - {t}, owner := s.owner[w.of := Finished])
  }

  function DoLock(s: System, t: Tid): System
    requires Enabled(s, Lock(t))
  {
    var task := s.tasks[t];
    var (recs, next) := LockIn(s.recs, task.id, task.w, task.items);
    match next
    case ShutDown => s.(recs := recs, tasks := s.tasks[t := Closing(task.w)])
    case GiveBack => s.(recs := recs, tasks := s.tasks - {t}, owner := s.owner[task.w.of := ByRecord])
    case Drain(items) => s.(recs := recs, tasks := s.tasks[t := Draining(task.id, task.w, items)])
  }

  ghost predicate Step(s: System, s': System) {
    exists a :: Enabled(s, a) && s' == Next(s, a)
  }

  ghost predicate StepAt(h: seq<System>, i: int)
    requires 0 < i < |h|
  {
    Step(h[i - 1], h[i])
  }

  ghost predicate IsRun(h: seq<System>) {
    && |h| > 0 && h[0] == INIT_SYSTEM
    && forall i | 0 < i < |h| :: StepAt(h, i)
  }

  ghost predicate Reachable(s: System) {
    exists h :: IsRun(h) && h[|h| - 1] == s
  }
}
