/** One end of a connection, as an object, tied to the machine of calls under way. */
module RpcEndpoints {
  import opened Wrappers
  import opened RpcDispatch
  import opened RpcCalls
  import opened RpcTheorems

  /** The kinds of the methods of an endpoint. */
  function KindsOf(methods: Methods): Kinds {
    map name | name in methods :: methods[name].kind
  }

  /** What the callback of c has been invoked with. */
  function Given(fired: seq<(CallNo, Outcome)>, c: CallNo): seq<Outcome> {
    if fired == [] then []
    else
      var last := fired[|fired| - 1];
      Given(fired[..|fired| - 1], c) + if last.0 == c then [last.1] else []
  }

  lemma GivenSnoc(fired: seq<(CallNo, Outcome)>, c: CallNo, outcome: Outcome, x: CallNo)
    ensures Given(fired + [(c, outcome)], x) == Given(fired, x) + if c == x then [outcome] else []
  {
    assert (fired + [(c, outcome)])[..|fired|] == fired;
  }

  function OutcomesOf(reps: seq<Rep>): seq<Outcome> {
    seq(|reps|, i requires 0 <= i < |reps| => reps[i].outcome)
  }

  lemma OutcomesSnoc(reps: seq<Rep>, r: Rep)
    ensures OutcomesOf(reps + [r]) == OutcomesOf(reps) + [r.outcome]
  {
  }

  /** A message that has been read is the request q. */
  predicate IsRequest(partial: PartialIncoming, body: Body, q: Req) {
    partial.method_ == Some(q.name) && body == q.body && q.id.n < ID_SPACE && partial.id == Some(q.id.n)
  }

  /** A message that has been read is the answer rep. */
  predicate IsAnswer(partial: PartialIncoming, body: Body, rep: Rep) {
    && partial.method_.None? && rep.id.n < ID_SPACE && partial.id == Some(rep.id.n)
    && partial.error.GetOr(Success(body)) == rep.outcome
  }

  /**
   The reaction to the request q is what the machine does when it handles q with this outcome: the answer
   is on its way at once, or q is being worked on and the answer follows when that is done.
   */
  ghost predicate Handles(ks: Kinds, s: System, q: Req, outcome: Outcome, r: Reaction)
    requires q in s.requests
  {
    var rep, handle := Rep(q.of, q.id, outcome), Handle(q, outcome);
    && q.id.n < ID_SPACE && IsReply(r) && ReplyOf(r) == Some(Response(q.id.n, outcome)) && Enabled(ks, s, handle)
    && var s' := Next(ks, s, handle);
      if r.Now? then rep in s'.replies
      else q in s'.working && rep in Next(ks, s', Finish(q, outcome)).replies
  }

  function RequestReaction(methods: Methods, id: Option<MessageId>, name: string, body: Body, ran: Result<Body, string>)
    : Reaction
  {
    if name in methods then Run(methods[name], id, body, ran) else Now(Respond(id, NotFound(name)))
  }

  /** What a dispatcher replies to a request, by the kind of the method and whether its parameters can be read. */
  lemma RequestReplies(methods: Methods, id: Option<MessageId>, name: string, body: Body, ran: Result<Body, string>)
    ensures var r := RequestReaction(methods, id, name, body, ran);
      && IsReply(r)
      && ReplyOf(r) == (if id.None? then None else Some(Response(id.value, Answer(methods, name, body, ran))))
      && (r.Now? <==> name !in methods || methods[name].kind.Sync?)
      && (r.Streams? <==> name in methods && methods[name].kind.Duplex? && methods[name].params(body).Ok?)
      && (r.Streams? ==> r.reqId == id.GetOr(0))
  {
  }

  /**
   An answer is a success if and only if the method exists, its parameters can be read and its callback
   succeeds, and then it is the callback's result; otherwise code and message tell which of these failed.
   */
  lemma AnswerTells(methods: Methods, name: string, body: Body, ran: Result<Body, string>, r: Body, e: string)
    ensures var answer := Answer(methods, name, body, ran);
      && (name !in methods ==> answer == Failure(-1, "Method not found: " + name))
      && (answer == Success(r) <==> name in methods && methods[name].params(body).Ok? && ran == Ok(r))
      && (name in methods && methods[name].params(body) == Err(e) ==> answer == Failure(0, e))
      && (name in methods && methods[name].params(body).Ok? && ran == Err(e) ==> answer == Failure(-1, e))
  {
  }

  /** It handles a request as the machine does. */
  lemma RequestHandled(methods: Methods, s: System, q: Req, body: Body, ran: Result<Body, string>)
    requires q in s.requests && q.id.n < ID_SPACE
    ensures Handles(KindsOf(methods), s, q, Answer(methods, q.name, body, ran),
                    RequestReaction(methods, Some(q.id.n), q.name, body, ran))
  {
    RequestReplies(methods, Some(q.id.n), q.name, body, ran);
  }

  type Callbacks = map<MessageId, CallNo>

  /** The table, the counter and the callbacks invoked so far are those of the machine. */
  ghost predicate MatchesTable(calls: Callbacks, counter: MessageId, fired: seq<(CallNo, Outcome)>, s: System) {
    && counter == s.next % ID_SPACE
    && (forall id | id in calls :: Id(id) in s.calls && s.calls[Id(id)] == calls[id])
    && (forall i | i in s.calls :: i.n < ID_SPACE && i.n in calls)
    && (forall c :: Given(fired, c) == OutcomesOf(FiredOf(s, c)))
  }

  /** The callback of the id is taken out of the table and invoked, if there is one. */
  function AfterAnswer(calls: Callbacks, fired: seq<(CallNo, Outcome)>, id: MessageId, outcome: Outcome)
    : (Callbacks, seq<(CallNo, Outcome)>)
  {
    if id in calls then (calls - {id}, fired + [(calls[id], outcome)]) else (calls, fired)
  }

  /** An answer does to the table and to the callbacks what the machine does when it delivers it. */
  lemma DeliverMatches(ks: Kinds, calls: Callbacks, counter: MessageId, fired: seq<(CallNo, Outcome)>, s: System,
                       rep: Rep)
    requires MatchesTable(calls, counter, fired, s) && rep in s.replies && rep.id.n < ID_SPACE
    ensures var (calls', fired') := AfterAnswer(calls, fired, rep.id.n, rep.outcome);
      MatchesTable(calls', counter, fired', Next(ks, s, Deliver(rep)))
    ensures rep.id.n in calls <==> rep.id in s.calls
  {
    var s' := Next(ks, s, Deliver(rep));
    var (calls', fired') := AfterAnswer(calls, fired, rep.id.n, rep.outcome);
    if rep.id.n in calls {
      assert Id(rep.id.n) == rep.id;
      forall c
        ensures Given(fired', c) == OutcomesOf(FiredOf(s', c))
      {
        GivenSnoc(fired, calls[rep.id.n], rep.outcome, c);
        OutcomesSnoc(FiredOf(s, c), rep);
      }
    }
  }

  /** A call that is new. */
  predicate NewCall(s: System, c: CallNo) {
    c !in s.issued && c !in s.fired
  }

  lemma SendMatches(ks: Kinds, calls: Callbacks, counter: MessageId, fired: seq<(CallNo, Outcome)>, s: System,
                    c: CallNo, name: string, body: Body)
    requires MatchesTable(calls, counter, fired, s) && NewCall(s, c)
    ensures var after := (counter + 1) % ID_SPACE;
      && MatchesTable(calls, after, fired, Next(ks, s, TakeId))
      && MatchesTable(calls, after, fired, Next(ks, s, Send(c, name, body)))
  {
    var s' := Next(ks, s, Send(c, name, body));
    assert (s.next + 1) % ID_SPACE == (s.next % ID_SPACE + 1) % ID_SPACE;
    forall x
      ensures FiredOf(s', x) == FiredOf(s, x)
    {
    }
  }

  lemma RegisterMatches(ks: Kinds, calls: Callbacks, counter: MessageId, fired: seq<(CallNo, Outcome)>, s: System,
                        c: CallNo, id: MessageId)
    requires MatchesTable(calls, counter, fired, s) && c in s.starting && s.starting[c] == Id(id)
    ensures MatchesTable(calls[id := c], counter, fired, Next(ks, s, Register(c)))
  {
  }

  /**
   A call that is sent with a free id, registers, is handled by a dispatcher and has its answer delivered gets
   what the method's callback has given, or why it has given nothing, once.
   */
  lemma CallIsAnswered(methods: Methods, s: System, c: CallNo, name: string, body: Body, ran: Result<Body, string>)
    returns (h: seq<System>)
    requires NewCall(s, c) && IsFree(s, NextId(s))
    ensures IsCleanPath(KindsOf(methods), s, h)
    ensures var s' := h[|h| - 1];
      c in s'.fired && OutcomesOf(s'.fired[c]) == [Answer(methods, name, body, ran)]
  {
    var ks, q, outcome := KindsOf(methods), Req(c, NextId(s), name, body), Answer(methods, name, body, ran);
    var rep := Rep(c, q.id, outcome);
    h := PathStep(ks, s, [s], Send(c, name, body));
    h := PathStep(ks, s, h, Register(c));
    var s2 := h[|h| - 1];
    assert s2.calls[q.id] == c && q in s2.requests && s2.fired[c] == [];
    h := PathStep(ks, s, h, Handle(q, outcome));
    if WorkedOnLater(ks, q) {
      h := PathStep(ks, s, h, Finish(q, outcome));
    }
    var s4 := h[|h| - 1];
    assert rep in s4.replies && s4.calls[q.id] == c && s4.fired[c] == [];
    h := PathStep(ks, s, h, Deliver(rep));
  }

  /** The dispatcher's half of a connection and the caller's. A callback is known by its call. */
  class RpcEndpoint {
    const methods: Methods
    var calls: Callbacks
    var counter: MessageId
    /** Callbacks that have been invoked, and with what. */
    var fired: seq<(CallNo, Outcome)>

    /** As a caller, the endpoint is where the machine is. */
    ghost predicate Matches(s: System)
      reads this
    {
      MatchesTable(calls, counter, fired, s)
    }

    constructor (methods: Methods)
      ensures this.methods == methods && calls == map[] && counter == 0 && fired == [] && Matches(INIT_SYSTEM)
    {
      this.methods, calls, counter, fired := methods, map[], 0, [];
    }

    method NextMessageId() returns (id: MessageId)
      modifies this`counter
      ensures id == old(counter) && counter == (old(counter) + 1) % ID_SPACE
    {
      id := counter;
      counter := if counter == 0xffff_ffff then 0 else counter + 1;
    }

    /** The first half of a call takes an id and sends the request, which may fail. */
    method SendRequest(sent: bool, ghost ks: Kinds, ghost s: System, ghost q: Req) returns (id: MessageId)
      requires Matches(s) && NewCall(s, q.of)
      modifies this`counter
      ensures id == old(counter) && Id(id) == NextId(s)
      ensures Matches(if sent then Next(ks, s, Send(q.of, q.name, q.body)) else Next(ks, s, TakeId))
    {
      SendMatches(ks, calls, counter, fired, s, q.of, q.name, q.body);
      id := NextMessageId();
    }

    /** The second half registers the callback; others may have come in between. */
    method RegisterCallback(id: MessageId, c: CallNo, ghost ks: Kinds, ghost s: System)
      requires Matches(s) && c in s.starting && s.starting[c] == Id(id)
      modifies this`calls
      ensures calls == old(calls)[id := c] && Matches(Next(ks, s, Register(c)))
    {
      RegisterMatches(ks, calls, counter, fired, s, c, id);
      calls := calls[id := c];
    }

    /** An undisturbed call. One whose request could not be sent is never registered. */
    method Call(c: CallNo, sent: bool, ghost ks: Kinds, ghost s: System, ghost name: string, ghost body: Body)
      returns (id: MessageId)
      requires Matches(s) && NewCall(s, c)
      modifies this`counter, this`calls
      ensures id == old(counter) && calls == if sent then old(calls)[id := c] else old(calls)
      ensures Matches(if sent then Next(ks, Next(ks, s, Send(c, name, body)), Register(c)) else Next(ks, s, TakeId))
    {
      id := SendRequest(sent, ks, s, Req(c, NextId(s), name, body));
      if sent {
        RegisterCallback(id, c, ks, Next(ks, s, Send(c, name, body)));
      }
    }

    /** Every answer invokes the callback of its own id, once, or nothing, as the machine delivers it. */
    method TakeAnswer(id: MessageId, outcome: Outcome, ghost ks: Kinds, ghost s: System) returns (r: Reaction)
      modifies this`calls, this`fired
      ensures calls == old(calls) - {id}
      ensures fired == old(fired) + if id in old(calls) then [(old(calls)[id], outcome)] else []
      ensures r == if id in old(calls) then Resolved(id, outcome) else Unclaimed
      ensures old(Matches(s)) ==>
        forall rep | rep in s.replies && rep.id == Id(id) && rep.outcome == outcome ::
          Matches(Next(ks, s, Deliver(rep))) && (r.Unclaimed? <==> rep.id !in s.calls)
    {
      if Matches(s) {
        forall rep | rep in s.replies && rep.id == Id(id) && rep.outcome == outcome
          ensures var (calls', fired') := AfterAnswer(calls, fired, id, outcome);
            MatchesTable(calls', counter, fired', Next(ks, s, Deliver(rep)))
          ensures id in calls <==> rep.id in s.calls
        {
          DeliverMatches(ks, calls, counter, fired, s, rep);
        }
      }
      if id !in calls {
        return Unclaimed;
      }
      var callback := calls[id];
      calls := calls - {id};
      fired := fired + [(callback, outcome)];
      r := Resolved(id, outcome);
    }

    /**
     Every request gets exactly one reply, bearing its id, or none if it has no id: at once from a sync or
     unknown method, later from the others. Every answer invokes the callback of its own id, once, or nothing.
     So a request is handled, and an answer delivered, as the machine does it.
     */
    method DispatchWithPartial(body: Body, partial: PartialIncoming, ran: Result<Body, string>,
                               ghost ks: Kinds, ghost s: System)
      returns (r: Reaction)
      modifies this`calls, this`fired
      ensures partial.method_.Some? ==>
        unchanged(this) && IsReply(r)
        && ReplyOf(r) == if partial.id.None? then None
                         else Some(Response(partial.id.value, Answer(methods, partial.method_.value, body, ran)))
      ensures partial.method_.Some? ==>
        var name := partial.method_.value;
        && (r.Now? <==> name !in methods || methods[name].kind.Sync?)
        && (r.Streams? <==> name in methods && methods[name].kind.Duplex? && methods[name].params(body).Ok?)
        && (r.Streams? ==> r.reqId == partial.id.GetOr(0))
      ensures partial.method_.None? ==> (r.Panics? <==> partial.id.None?)
      ensures r.Panics? ==> unchanged(this)
      ensures partial.method_.None? && partial.id.Some? ==>
        var id, outcome := partial.id.value, partial.error.GetOr(Success(body));
        && calls == old(calls) - {id}
        && fired == old(fired) + (if id in old(calls) then [(old(calls)[id], outcome)] else [])
        && r == if id in old(calls) then Resolved(id, outcome) else Unclaimed
      ensures ks == KindsOf(methods) ==>
        forall q | q in s.requests && IsRequest(partial, body, q) ::
          Handles(ks, s, q, Answer(methods, q.name, body, ran), r)
      ensures old(Matches(s)) ==>
        forall rep | rep in s.replies && IsAnswer(partial, body, rep) ::
          Matches(Next(ks, s, Deliver(rep))) && (r.Unclaimed? <==> rep.id !in s.calls)
    {
      var id := partial.id;
      match partial.method_
      case Some(name) =>
        if name in methods {
          r := Run(methods[name], id, body, ran);
        } else {
          r := Now(Respond(id, NotFound(name)));
        }
        RequestReplies(methods, id, name, body, ran);
        if ks == KindsOf(methods) {
          forall q | q in s.requests && IsRequest(partial, body, q)
            ensures Handles(ks, s, q, Answer(methods, q.name, body, ran), r)
          {
            RequestHandled(methods, s, q, body, ran);
          }
        }
      case None =>
        if id.None? {
          return Panics;
        }
        var outcome := if partial.error.Some? then partial.error.value else Success(body);
        r := TakeAnswer(id.value, outcome, ks, s);
    }
  }
}
