/** The stream table itself; each method is one critical section under its lock. */
module StreamTable {
  import opened Wrappers
  import opened StreamMachine
  import opened StreamInvariants

  class Streams {
    var table: Table

    constructor ()
      ensures table == map[]
    {
      table := map[];
    }

    method Insert(id: Sid, stream: Half)
      modifies this
      ensures table == InsertIn(old(table), id, stream)
    {
      table := table[id := StreamRec(Some(stream), [], false)];
    }

    /** spawn is the half a new write loop is started with. */
    method Write(id: Sid, buf: seq<int>) returns (spawn: Option<Half>)
      modifies this
      ensures (table, spawn) == WriteIn(old(table), id, buf)
    {
      spawn := None;
      if id in table {
        var s := table[id];
        s := s.(q := s.q + [buf]);
        if s.write.Some? {
          spawn := s.write;
          s := s.(write := None);
        }
        table := table[id := s];
      }
    }

    /** closing is the half to shut down once the lock is released. */
    method Remove(id: Sid) returns (closing: Option<Half>)
      modifies this
      ensures (table, closing) == RemoveIn(old(table), id)
    {
      closing := None;
      if id in table {
        if table[id].write.Some? {
          closing := table[id].write;
          table := table - {id};
        } else {
          table := table[id := table[id].(ended := true)];
        }
      }
    }

    /** The locked part of one turn of the write loop: items is swapped with the queue. */
    method Turn(id: Sid, w: Half, items: seq<seq<int>>) returns (next: LoopNext)
      modifies this
      ensures (table, next) == LockIn(old(table), id, w, items)
    {
      if id !in table {
        return ShutDown;
      }
      if table[id].q == [] {
        if table[id].ended {
          table := table - {id};
          return ShutDown;
        }
        table := table[id := table[id].(write := Some(w))];
        return GiveBack;
      }
      next := Drain(table[id].q);
      table := table[id := table[id].(q := items)];
    }
  }

  /** The other end of a stream. */
  class Pipe {
    var bytes: seq<int>
    var closed: bool

    constructor ()
      ensures bytes == [] && !closed
    {
      bytes, closed := [], false;
    }

    method WriteAll(items: seq<seq<int>>)
      modifies this
      ensures bytes == old(bytes) + Concat(items) && closed == old(closed)
    {
      for i := 0 to |items|
        invariant bytes + Concat(items[i..]) == old(bytes) + Concat(items) && closed == old(closed)
      {
        assert items[i..][1..] == items[i + 1..];
        assert bytes + (items[i] + Concat(items[i + 1..])) == bytes + items[i] + Concat(items[i + 1..]);
        bytes := bytes + items[i];
      }
      assert items[|items|..] == [];
    }
  }

  /**
   A write loop that nobody interferes with and whose writes succeed: it writes the whole queue, then
   either hands the half back to the record or, if the end was asked for, removes the record and shuts down.
   */
  method WriteLoop(id: Sid, w: Half, streams: Streams, pipe: Pipe)
    modifies streams, pipe
    ensures id !in old(streams.table) ==>
      streams.table == old(streams.table) && pipe.closed && pipe.bytes == old(pipe.bytes)
    ensures id in old(streams.table) ==>
      var rec := old(streams.table)[id];
      && pipe.bytes == old(pipe.bytes) + Concat(rec.q)
      && (if rec.ended then streams.table == old(streams.table) - {id} && pipe.closed
          else streams.table == old(streams.table)[id := StreamRec(Some(w), [], false)]
               && pipe.closed == old(pipe.closed))
  {
    var next := streams.Turn(id, w, []);
    while next.Drain?
      invariant id !in old(streams.table) ==>
        next == ShutDown && streams.table == old(streams.table) && pipe.bytes == old(pipe.bytes)
      invariant pipe.closed == old(pipe.closed)
      invariant id in old(streams.table) ==>
        var rec := old(streams.table)[id];
        && (if next.Drain? then pipe.bytes + Concat(next.items) == old(pipe.bytes) + Concat(rec.q)
            else pipe.bytes == old(pipe.bytes) + Concat(rec.q))
        && (next == ShutDown <==> !next.Drain? && rec.ended)
        && streams.table ==
          if next.Drain? then old(streams.table)[id := rec.(q := [])]
          else if rec.ended then old(streams.table) - {id}
          else old(streams.table)[id := StreamRec(Some(w), [], false)]
      decreases next.Drain?
    {
      pipe.WriteAll(next.items);
      next := streams.Turn(id, w, []);
    }
    if next == ShutDown {
      pipe.closed := true;
    }
  }
}
