/**
 Calls between two endpoints: requests may be worked on in any order, answered in any way, and answers
 may come back in any order. Ids wrap around, and a call sends its request before it registers its
 callback, so an answer may come too early.
 */
module RpcCalls {
  import opened Wrappers
  import opened RpcDispatch

  /** Ids have 32 bits. */
  const ID_SPACE: nat := 0x1_0000_0000

  datatype Id = Id(n: nat)
  datatype CallNo = CallNo(n: int)

  /** Messages; of is history and says which call they belong to, which nobody can see. */
  datatype Req = Req(of: CallNo, id: Id, name: string, body: Body)
  datatype Rep = Rep(of: CallNo, id: Id, outcome: Outcome)

  /** The methods of the other endpoint and their kinds. */
  type Kinds = map<string, Kind>

  /**
   next counts the ids taken; starting holds the calls that have sent but not yet registered, calls is
   the table of those that have; the sets are the messages under way and the requests being worked on.
   The rest is history: what each call sent, its answer, the answers its callback was given, and the
   calls whose answer found nobody.
   */
  datatype System = System(
    next: nat, starting: map<CallNo, Id>, calls: map<Id, CallNo>,
    requests: set<Req>, working: set<Req>, replies: set<Rep>,
    issued: map<CallNo, Req>, answered: map<CallNo, Rep>, fired: map<CallNo, seq<Rep>>, unclaimed: set<CallNo>)

  const INIT_SYSTEM := System(0, map[], map[], {}, {}, {}, map[], map[], map[], {})

  datatype Action =
    | TakeId
    | Send(c: CallNo, name: string, body: Body)
    | Register(c: CallNo)
    | Handle(q: Req, outcome: Outcome)
    | Finish(q: Req, outcome: Outcome)
    | Deliver(r: Rep)

  predicate Enabled(ks: Kinds, s: System, a: Action) {
    match a
    case TakeId => true
    case Send(c, _, _) => c !in s.issued
    case Register(c) => c in s.starting
    case Handle(q, outcome) => q in s.requests && (q.name !in ks ==> outcome == NotFound(q.name))
    case Finish(q, _) => q in s.working
    case Deliver(r) => r in s.replies
  }

  function NextId(s: System): Id {
    Id(s.next % ID_SPACE)
  }

  predicate WorkedOnLater(ks: Kinds, q: Req) {
    q.name in ks && !ks[q.name].Sync?
  }

  function Reply(s: System, q: Req, outcome: Outcome): System {
    var r := Rep(q.of, q.id, outcome);
    s.(replies := s.replies + {r}, answered := s.answered[q.of := r])
  }

  function FiredOf(s: System, c: CallNo): seq<Rep> {
    if c in s.fired then s.fired[c] else []
  }

  function Next(ks: Kinds, s: System, a: Action): System
    requires Enabled(ks, s, a)
  {
    match a
    case TakeId => s.(next := s.next + 1)
    case Send(c, name, body) =>
      var q := Req(c, NextId(s), name, body);
      s.(next := s.next + 1, starting := s.starting[c := q.id], requests := s.requests + {q},
         issued := s.issued[c := q], fired := s.fired[c := []])
    case Register(c) =>
      s.(calls := s.calls[s.starting[c] := c], starting := s.starting - {c})
    case Handle(q, outcome) =>
      var s1 := s.(requests := s.requests - {q});
      if WorkedOnLater(ks, q) then s1.(working := s1.working + {q}) else Reply(s1, q, outcome)
    case Finish(q, outcome) => Reply(s.(working := s.working - {q}), q, outcome)
    case Deliver(r) =>
      var s1 := s.(replies := s.replies - {r});
      if r.id in s.calls then
        var c := s.calls[r.id];
        s1.(calls := s.calls - {r.id}, fired := s.fired[c := FiredOf(s, c) + [r]])
      else s1.(unclaimed := s.unclaimed + {r.of})
  }

  // ----- runs -----

  ghost predicate Step(ks: Kinds, s: System, s': System) {
    exists a :: Enabled(ks, s, a) && s' == Next(ks, s, a)
  }

  ghost predicate StepAt(ks: Kinds, h: seq<System>, i: int)
    requires 0 < i < |h|
  {
    Step(ks, h[i - 1], h[i])
  }

  ghost predicate IsRun(ks: Kinds, h: seq<System>) {
    && |h| > 0 && h[0] == INIT_SYSTEM
    && forall i {:trigger StepAt(ks, h, i)} :: 0 < i < |h| ==> StepAt(ks, h, i)
  }

  ghost predicate Reachable(ks: Kinds, s: System) {
    exists h :: IsRun(ks, h) && h[|h| - 1] == s
  }

  lemma ReachableStep(ks: Kinds, s: System, a: Action)
    requires Reachable(ks, s) && Enabled(ks, s, a)
    ensures Reachable(ks, Next(ks, s, a))
  {
    var h :| IsRun(ks, h) && h[|h| - 1] == s;
    var h' := h + [Next(ks, s, a)];
    forall i {:trigger StepAt(ks, h', i)} | 0 < i < |h'|
      ensures StepAt(ks, h', i)
    {
      if i < |h| {
        assert StepAt(ks, h, i);
      } else {
        assert Step(ks, s, Next(ks, s, a));
      }
    }
    assert IsRun(ks, h') && h'[|h'| - 1] == Next(ks, s, a);
  }

  // ----- runs that use free ids -----

  /** No call holds the id: none that is about to register, and none in the table. */
  predicate IsFree(s: System, id: Id) {
    id !in s.calls && forall c :: c in s.starting ==> s.starting[c] != id
  }

  predicate UsesFreeId(s: System, a: Action) {
    a.Send? ==> IsFree(s, NextId(s))
  }

  ghost predicate CleanStep(ks: Kinds, s: System, s': System) {
    exists a :: Enabled(ks, s, a) && UsesFreeId(s, a) && s' == Next(ks, s, a)
  }

  ghost predicate CleanAt(ks: Kinds, h: seq<System>, i: int)
    requires 0 < i < |h|
  {
    CleanStep(ks, h[i - 1], h[i])
  }

  /** A run in which every call is sent with a free id. */
  ghost predicate IsCleanRun(ks: Kinds, h: seq<System>) {
    && |h| > 0 && h[0] == INIT_SYSTEM
    && forall i {:trigger CleanAt(ks, h, i)} :: 0 < i < |h| ==> CleanAt(ks, h, i)
  }

  // ----- what clean runs keep -----

  /** A call that is about to register or waits for its answer. */
  predicate Live(s: System, c: CallNo) {
    c in s.issued && (c in s.starting || FiredOf(s, c) == [])
  }

  /** The request of a call is at one place at a time, and its callback gets what was answered to it. */
  predicate CallOk(s: System, c: CallNo) {
    && c in s.issued && c in s.fired
    && var q := s.issued[c];
    && q.of == c
    && (q in s.requests ==> q !in s.working && c !in s.answered)
    && (q in s.working ==> c !in s.answered)
    && (c !in s.answered ==> q in s.requests || q in s.working)
    && (c in s.answered ==> s.answered[c].of == c && s.answered[c].id == q.id)
    && (c in s.unclaimed ==> c in s.answered && s.answered[c] !in s.replies)
    && s.fired[c] == (if c in s.answered && s.answered[c] !in s.replies && c !in s.unclaimed
                      then [s.answered[c]] else [])
    && (c in s.starting ==> s.starting[c] == q.id && s.fired[c] == [])
    && (q.id in s.calls && s.calls[q.id] == c <==> c !in s.starting && s.fired[c] == [])
  }

  predicate ReqOk(s: System, q: Req) {
    q.of in s.issued && s.issued[q.of] == q
  }

  predicate RepOk(s: System, r: Rep) {
    r.of in s.issued && r.of in s.answered && s.answered[r.of] == r
  }

  predicate EntryOk(s: System, id: Id) {
    id in s.calls && s.calls[id] in s.issued && s.issued[s.calls[id]].id == id
  }

  ghost predicate Inv(s: System) {
    && (forall c {:trigger CallOk(s, c)} :: c in s.issued ==> CallOk(s, c))
    && (forall q {:trigger ReqOk(s, q)} :: q in s.requests || q in s.working ==> ReqOk(s, q))
    && (forall r {:trigger RepOk(s, r)} :: r in s.replies ==> RepOk(s, r))
    && (forall id {:trigger EntryOk(s, id)} :: id in s.calls ==> EntryOk(s, id))
    && (forall c, d {:trigger Live(s, c), Live(s, d)} ::
          Live(s, c) && Live(s, d) && s.issued[c].id == s.issued[d].id ==> c == d)
    && s.starting.Keys + s.answered.Keys + s.fired.Keys + s.unclaimed <= s.issued.Keys
  }

  lemma RequestFacts(s: System, q: Req)
    requires Inv(s) && (q in s.requests || q in s.working)
    ensures q.of in s.issued && s.issued[q.of] == q && q.of !in s.answered
  {
    assert ReqOk(s, q) && CallOk(s, q.of);
  }

  /** An answer that arrives finds its own call in the table, or nobody. */
  lemma ReplyFacts(s: System, r: Rep)
    requires Inv(s) && r in s.replies
    ensures r.of in s.issued && s.issued[r.of].id == r.id && r.of in s.answered && s.answered[r.of] == r
    ensures r.of in s.fired && s.fired[r.of] == [] && r.of !in s.unclaimed
    ensures if r.of in s.starting then r.id !in s.calls else r.id in s.calls && s.calls[r.id] == r.of
  {
    assert RepOk(s, r) && CallOk(s, r.of) && Live(s, r.of);
    if r.id in s.calls {
      var c := s.calls[r.id];
      assert EntryOk(s, r.id) && CallOk(s, c);
      assert Live(s, c);
    }
  }

  // ----- calls that a step does not touch -----

  predicate SameCall(s: System, s': System, c: CallNo) {
    && c in s.issued && c in s'.issued && s'.issued[c] == s.issued[c]
    && c in s.fired && c in s'.fired && s'.fired[c] == s.fired[c]
    && (c in s'.answered <==> c in s.answered) && (c in s.answered ==> s'.answered[c] == s.answered[c])
    && (c in s.answered ==> (s.answered[c] in s'.replies <==> s.answered[c] in s.replies))
    && (c in s'.unclaimed <==> c in s.unclaimed)
    && (c in s'.starting <==> c in s.starting) && (c in s.starting ==> s'.starting[c] == s.starting[c])
    && var q := s.issued[c];
    && (q in s'.requests <==> q in s.requests) && (q in s'.working <==> q in s.working)
    && (q.id in s'.calls && s'.calls[q.id] == c <==> q.id in s.calls && s.calls[q.id] == c)
  }

  lemma SameCallOk(s: System, s': System, c: CallNo)
    requires CallOk(s, c) && SameCall(s, s', c)
    ensures CallOk(s', c) && (Live(s', c) <==> Live(s, c))
  {
  }

  /** The call an action works on. */
  function Of(a: Action): Option<CallNo> {
    match a
    case TakeId => None
    case Send(c, _, _) => Some(c)
    case Register(c) => Some(c)
    case Handle(q, _) => Some(q.of)
    case Finish(q, _) => Some(q.of)
    case Deliver(r) => Some(r.of)
  }

  lemma OthersStay(ks: Kinds, s: System, a: Action, c: CallNo)
    requires Inv(s) && Enabled(ks, s, a) && c in s.issued && Of(a) != Some(c)
    ensures SameCall(s, Next(ks, s, a), c)
  {
    match a
    case TakeId => assert CallOk(s, c);
    case Send(_, _, _) => assert CallOk(s, c);
    case Register(c') => RegisterLeavesOthers(ks, s, c', c);
    case Handle(q, outcome) => HandleLeavesOthers(ks, s, q, outcome, c);
    case Finish(q, outcome) => FinishLeavesOthers(ks, s, q, outcome, c);
    case Deliver(r) => DeliverLeavesOthers(ks, s, r, c);
  }

  lemma RegisterLeavesOthers(ks: Kinds, s: System, c': CallNo, c: CallNo)
    requires Inv(s) && c' in s.starting && c in s.issued && c != c'
    ensures SameCall(s, Next(ks, s, Register(c')), c)
  {
    assert CallOk(s, c) && CallOk(s, c') && Live(s, c');
    assert Live(s, c) || !Live(s, c);
  }

  lemma HandleLeavesOthers(ks: Kinds, s: System, q: Req, outcome: Outcome, c: CallNo)
    requires Inv(s) && Enabled(ks, s, Handle(q, outcome)) && c in s.issued && c != q.of
    ensures SameCall(s, Next(ks, s, Handle(q, outcome)), c)
  {
    RequestFacts(s, q);
    assert CallOk(s, c);
  }

  lemma FinishLeavesOthers(ks: Kinds, s: System, q: Req, outcome: Outcome, c: CallNo)
    requires Inv(s) && q in s.working && c in s.issued && c != q.of
    ensures SameCall(s, Next(ks, s, Finish(q, outcome)), c)
  {
    RequestFacts(s, q);
    assert CallOk(s, c);
  }

  lemma DeliverLeavesOthers(ks: Kinds, s: System, r: Rep, c: CallNo)
    requires Inv(s) && r in s.replies && c in s.issued && c != r.of
    ensures SameCall(s, Next(ks, s, Deliver(r)), c)
  {
    ReplyFacts(s, r);
    assert CallOk(s, c);
  }

  // ----- the call that a step works on -----

  lemma SendKeeps(ks: Kinds, s: System, c: CallNo, name: string, body: Body)
    requires Inv(s) && Enabled(ks, s, Send(c, name, body)) && IsFree(s, NextId(s))
    ensures CallOk(Next(ks, s, Send(c, name, body)), c)
  {
    var q := Req(c, NextId(s), name, body);
    if q in s.working {
      RequestFacts(s, q);
    }
    assert c !in s.answered && c !in s.unclaimed;
  }

  lemma RegisterKeeps(ks: Kinds, s: System, c: CallNo)
    requires Inv(s) && Enabled(ks, s, Register(c))
    ensures CallOk(Next(ks, s, Register(c)), c)
  {
    assert CallOk(s, c);
  }

  lemma HandleKeeps(ks: Kinds, s: System, q: Req, outcome: Outcome)
    requires Inv(s) && Enabled(ks, s, Handle(q, outcome))
    ensures CallOk(Next(ks, s, Handle(q, outcome)), q.of)
  {
    RequestFacts(s, q);
    assert CallOk(s, q.of);
  }

  lemma FinishKeeps(ks: Kinds, s: System, q: Req, outcome: Outcome)
    requires Inv(s) && Enabled(ks, s, Finish(q, outcome))
    ensures CallOk(Next(ks, s, Finish(q, outcome)), q.of)
  {
    RequestFacts(s, q);
    assert CallOk(s, q.of);
  }

  lemma DeliverKeeps(ks: Kinds, s: System, r: Rep)
    requires Inv(s) && Enabled(ks, s, Deliver(r))
    ensures CallOk(Next(ks, s, Deliver(r)), r.of)
  {
    ReplyFacts(s, r);
    assert CallOk(s, r.of);
  }

  // ----- every clean step, every clean run -----

  lemma TouchedStays(ks: Kinds, s: System, a: Action, c: CallNo)
    requires Inv(s) && Enabled(ks, s, a) && UsesFreeId(s, a) && Of(a) == Some(c)
    ensures CallOk(Next(ks, s, a), c)
  {
    match a
    case Send(_, name, body) => SendKeeps(ks, s, c, name, body);
    case Register(_) => RegisterKeeps(ks, s, c);
    case Handle(q, outcome) => HandleKeeps(ks, s, q, outcome);
    case Finish(q, outcome) => FinishKeeps(ks, s, q, outcome);
    case Deliver(r) => DeliverKeeps(ks, s, r);
  }

  lemma CallsStay(ks: Kinds, s: System, a: Action, c: CallNo)
    requires Inv(s) && Enabled(ks, s, a) && UsesFreeId(s, a) && c in Next(ks, s, a).issued
    ensures CallOk(Next(ks, s, a), c)
  {
    if Of(a) == Some(c) {
      TouchedStays(ks, s, a, c);
    } else {
      OthersStay(ks, s, a, c);
      assert CallOk(s, c);
      SameCallOk(s, Next(ks, s, a), c);
    }
  }

  lemma IssuedStays(ks: Kinds, s: System, a: Action, c: CallNo)
    requires Enabled(ks, s, a) && c in s.issued
    ensures c in Next(ks, s, a).issued && Next(ks, s, a).issued[c] == s.issued[c]
  {
  }

  lemma RequestStays(ks: Kinds, s: System, a: Action, q: Req)
    requires Inv(s) && Enabled(ks, s, a) && (q in Next(ks, s, a).requests || q in Next(ks, s, a).working)
    ensures ReqOk(Next(ks, s, a), q)
  {
    if q in s.requests || q in s.working {
      RequestFacts(s, q);
      IssuedStays(ks, s, a, q.of);
    }
  }

  lemma OthersAnswersStay(ks: Kinds, s: System, a: Action, c: CallNo)
    requires Inv(s) && Enabled(ks, s, a) && c in s.answered
    ensures var s' := Next(ks, s, a); c in s'.answered && s'.answered[c] == s.answered[c]
    ensures c in s.issued ==> c in Next(ks, s, a).issued
  {
    match a
    case Handle(q, _) => RequestFacts(s, q);
    case Finish(q, _) => RequestFacts(s, q);
    case _ =>
  }

  lemma ReplyStays(ks: Kinds, s: System, a: Action, r: Rep)
    requires Inv(s) && Enabled(ks, s, a) && r in Next(ks, s, a).replies
    ensures RepOk(Next(ks, s, a), r)
  {
    if r in s.replies {
      ReplyFacts(s, r);
      OthersAnswersStay(ks, s, a, r.of);
    } else {
      RequestFacts(s, a.q);
    }
  }

  lemma EntryStays(ks: Kinds, s: System, a: Action, id: Id)
    requires Inv(s) && Enabled(ks, s, a) && id in Next(ks, s, a).calls
    ensures EntryOk(Next(ks, s, a), id)
  {
    if a.Register? {
      assert CallOk(s, a.c);
    }
    if id in s.calls {
      assert EntryOk(s, id);
    }
  }

  /** A live call holds its id. */
  lemma LiveHoldsId(s: System, c: CallNo)
    requires Inv(s) && Live(s, c)
    ensures !IsFree(s, s.issued[c].id)
  {
    assert CallOk(s, c);
  }

  /** No step but a send brings a call to life. */
  lemma LiveStays(ks: Kinds, s: System, a: Action, c: CallNo)
    requires Inv(s) && Enabled(ks, s, a) && Live(Next(ks, s, a), c) && Of(a) != Some(c)
    ensures Live(s, c) && Next(ks, s, a).issued[c] == s.issued[c]
  {
    OthersStay(ks, s, a, c);
    assert CallOk(s, c);
    SameCallOk(s, Next(ks, s, a), c);
  }

  lemma TouchedWasLive(ks: Kinds, s: System, a: Action, c: CallNo)
    requires Inv(s) && Enabled(ks, s, a) && !a.Send? && Live(Next(ks, s, a), c)
    ensures Live(s, c) && Next(ks, s, a).issued[c] == s.issued[c]
  {
    assert CallOk(s, c);
    if Of(a) != Some(c) {
      LiveStays(ks, s, a, c);
    }
  }

  lemma LiveIdsDiffer(ks: Kinds, s: System, a: Action, c: CallNo, d: CallNo)
    requires Inv(s) && Enabled(ks, s, a) && UsesFreeId(s, a)
    requires Live(Next(ks, s, a), c) && Live(Next(ks, s, a), d)
    requires Next(ks, s, a).issued[c].id == Next(ks, s, a).issued[d].id
    ensures c == d
  {
    if a.Send? {
      if c != a.c {
        LiveStays(ks, s, a, c);
        LiveHoldsId(s, c);
      }
      if d != a.c {
        LiveStays(ks, s, a, d);
        LiveHoldsId(s, d);
      }
    } else {
      TouchedWasLive(ks, s, a, c);
      TouchedWasLive(ks, s, a, d);
    }
  }

  lemma NamesStay(ks: Kinds, s: System, a: Action)
    requires Inv(s) && Enabled(ks, s, a)
    ensures var s' := Next(ks, s, a);
      s'.starting.Keys + s'.answered.Keys + s'.fired.Keys + s'.unclaimed <= s'.issued.Keys
  {
    match a
    case Handle(q, _) => RequestFacts(s, q);
    case Finish(q, _) => RequestFacts(s, q);
    case Deliver(r) => ReplyFacts(s, r);
    case _ =>
  }

  lemma StepKeepsInv(ks: Kinds, s: System, a: Action)
    requires Inv(s) && Enabled(ks, s, a) && UsesFreeId(s, a)
    ensures Inv(Next(ks, s, a))
  {
    var s' := Next(ks, s, a);
    forall c {:trigger CallOk(s', c)} | c in s'.issued ensures CallOk(s', c) {
      CallsStay(ks, s, a, c);
    }
    forall q {:trigger ReqOk(s', q)} | q in s'.requests || q in s'.working ensures ReqOk(s', q) {
      RequestStays(ks, s, a, q);
    }
    forall r {:trigger RepOk(s', r)} | r in s'.replies ensures RepOk(s', r) {
      ReplyStays(ks, s, a, r);
    }
    forall id {:trigger EntryOk(s', id)} | id in s'.calls ensures EntryOk(s', id) {
      EntryStays(ks, s, a, id);
    }
    forall c, d {:trigger Live(s', c), Live(s', d)}
      | Live(s', c) && Live(s', d) && s'.issued[c].id == s'.issued[d].id
      ensures c == d
    {
      LiveIdsDiffer(ks, s, a, c, d);
    }
    NamesStay(ks, s, a);
  }

  lemma CleanStepKeepsInv(ks: Kinds, s: System, s': System)
    requires Inv(s) && CleanStep(ks, s, s')
    ensures Inv(s')
  {
    var a :| Enabled(ks, s, a) && UsesFreeId(s, a) && s' == Next(ks, s, a);
    StepKeepsInv(ks, s, a);
  }

  lemma InitInv()
    ensures Inv(INIT_SYSTEM)
  {
  }

  lemma {:induction false} RunInv(ks: Kinds, h: seq<System>, i: int)
    requires IsCleanRun(ks, h) && 0 <= i < |h|
    ensures Inv(h[i])
    decreases i
  {
    if i == 0 {
      InitInv();
    } else {
      RunInv(ks, h, i - 1);
      assert CleanAt(ks, h, i);
      CleanStepKeepsInv(ks, h[i - 1], h[i]);
    }
  }
}
