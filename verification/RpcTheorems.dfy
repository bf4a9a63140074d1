/** What callers can rely on, when, and what happens when they cannot. */
module RpcTheorems {
  import opened RpcDispatch
  import opened RpcCalls

  // ----- runs that use free ids -----

  /**
   A callback is invoked at most once, and with what was answered to its own request, in whatever order
   requests are worked on and answers arrive, and however the same request is answered at other times.
   */
  lemma AnswersFindTheirCall(ks: Kinds, h: seq<System>, s: System, c: CallNo)
    requires IsCleanRun(ks, h) && s == h[|h| - 1] && c in s.issued
    ensures c in s.fired
    ensures s.fired[c] == [] ||
      (c in s.answered && s.fired[c] == [s.answered[c]] && s.answered[c].of == c && c !in s.starting)
  {
    RunInv(ks, h, |h| - 1);
    assert CallOk(s, c);
  }

  /** The table holds exactly the calls that have registered and had no answer since. */
  lemma PendingIsExact(ks: Kinds, h: seq<System>, s: System, id: Id, c: CallNo)
    requires IsCleanRun(ks, h) && s == h[|h| - 1]
    ensures id in s.calls && s.calls[id] == c <==>
      c in s.issued && s.issued[c].id == id && c !in s.starting && c in s.fired && s.fired[c] == []
  {
    RunInv(ks, h, |h| - 1);
    if c in s.issued {
      assert CallOk(s, c);
    }
    if id in s.calls {
      assert EntryOk(s, id);
    }
  }

  /** A request is answered once: its answer is never replaced by another. */
  lemma {:induction false} AnswersAreFinal(ks: Kinds, h: seq<System>, i: int, j: int, c: CallNo)
    requires IsCleanRun(ks, h) && 0 <= i <= j < |h| && c in h[i].answered
    ensures c in h[j].answered && h[j].answered[c] == h[i].answered[c]
    decreases j - i
  {
    if i < j {
      AnswersAreFinal(ks, h, i, j - 1, c);
      RunInv(ks, h, j - 1);
      assert CleanAt(ks, h, j);
      AnswerStays(ks, h[j - 1], h[j], c);
    }
  }

  lemma AnswerStays(ks: Kinds, s: System, s': System, c: CallNo)
    requires Inv(s) && CleanStep(ks, s, s') && c in s.answered
    ensures c in s'.answered && s'.answered[c] == s.answered[c]
  {
    var a :| Enabled(ks, s, a) && UsesFreeId(s, a) && s' == Next(ks, s, a);
    OthersAnswersStay(ks, s, a, c);
  }

  /** Nothing is under way. */
  predicate AtRest(s: System) {
    s.requests == {} && s.working == {} && s.replies == {}
  }

  lemma EveryRequestIsAnswered(ks: Kinds, h: seq<System>, s: System, c: CallNo)
    requires IsCleanRun(ks, h) && s == h[|h| - 1] && s.requests == {} && s.working == {} && c in s.issued
    ensures c in s.answered && s.answered[c].id == s.issued[c].id
  {
    RunInv(ks, h, |h| - 1);
    assert CallOk(s, c);
  }

  // ----- answers that come too early -----

  /** The answer to c is delivered between two states while c has not registered yet. */
  predicate EarlyStep(s: System, s': System, c: CallNo) {
    c in s.starting && exists r :: r in s.replies && r.of == c && r !in s'.replies
  }

  predicate EarlyAt(h: seq<System>, k: int, c: CallNo)
    requires 0 <= k < |h| - 1
  {
    EarlyStep(h[k], h[k + 1], c)
  }

  lemma UnclaimedStep(ks: Kinds, s: System, s': System, c: CallNo)
    requires Inv(s) && CleanStep(ks, s, s')
    ensures c in s'.unclaimed <==> c in s.unclaimed || EarlyStep(s, s', c)
  {
    var a :| Enabled(ks, s, a) && UsesFreeId(s, a) && s' == Next(ks, s, a);
    if a.Deliver? {
      DeliveryUnclaimed(ks, s, a.r, c);
    } else {
      OnlyDeliveriesTake(ks, s, a);
    }
  }

  lemma OnlyDeliveriesTake(ks: Kinds, s: System, a: Action)
    requires Enabled(ks, s, a) && !a.Deliver?
    ensures Next(ks, s, a).unclaimed == s.unclaimed && s.replies <= Next(ks, s, a).replies
  {
  }

  lemma DeliveryUnclaimed(ks: Kinds, s: System, r: Rep, c: CallNo)
    requires Inv(s) && r in s.replies
    ensures var s' := Next(ks, s, Deliver(r)); c in s'.unclaimed <==> c in s.unclaimed || EarlyStep(s, s', c)
  {
    ReplyFacts(s, r);
    var s' := Next(ks, s, Deliver(r));
    if EarlyStep(s, s', c) {
      var r' :| r' in s.replies && r'.of == c && r' !in s'.replies;
      assert r' == r;
    }
    if c == r.of && c in s.starting {
      assert r in s.replies && r !in s'.replies;
    }
  }

  lemma {:induction false} UnclaimedIffEarly(ks: Kinds, h: seq<System>, i: int, c: CallNo)
    requires IsCleanRun(ks, h) && 0 <= i < |h|
    ensures c in h[i].unclaimed <==> exists k :: 0 <= k < i && EarlyAt(h, k, c)
    decreases i
  {
    if i > 0 {
      UnclaimedIffEarly(ks, h, i - 1, c);
      RunInv(ks, h, i - 1);
      assert CleanAt(ks, h, i);
      UnclaimedStep(ks, h[i - 1], h[i], c);
      assert EarlyAt(h, i - 1, c) <==> EarlyStep(h[i - 1], h[i], c);
    }
  }

  /**
   With nothing under way, a registered call is without answer if and only if its answer was delivered
   at a time when it had not registered yet.
   */
  lemma UnansweredIffEarly(ks: Kinds, h: seq<System>, s: System, c: CallNo)
    requires IsCleanRun(ks, h) && s == h[|h| - 1] && AtRest(s) && c in s.issued && c !in s.starting
    ensures c in s.fired
    ensures s.fired[c] == [] <==> exists k :: 0 <= k < |h| - 1 && EarlyAt(h, k, c)
  {
    RunInv(ks, h, |h| - 1);
    assert CallOk(s, c);
    UnclaimedIffEarly(ks, h, |h| - 1, c);
  }

  lemma CleanRunStep(ks: Kinds, h: seq<System>, a: Action) returns (h': seq<System>)
    requires IsCleanRun(ks, h) && Enabled(ks, h[|h| - 1], a) && UsesFreeId(h[|h| - 1], a)
    ensures IsCleanRun(ks, h') && h' == h + [Next(ks, h[|h| - 1], a)]
  {
    var s := h[|h| - 1];
    h' := h + [Next(ks, s, a)];
    forall i {:trigger CleanAt(ks, h', i)} | 0 < i < |h'|
      ensures CleanAt(ks, h', i)
    {
      if i < |h| {
        assert CleanAt(ks, h, i);
      } else {
        assert CleanStep(ks, s, Next(ks, s, a));
      }
    }
  }

  /** The first call is answered before it registers: it waits for ever, with nothing under way. */
  lemma EarlyAnswerIsLost(name: string, body: Body) returns (h: seq<System>)
    ensures IsCleanRun(map[], h)
    ensures var s := h[|h| - 1];
      AtRest(s) && CallNo(0) !in s.starting && Id(0) in s.calls && s.calls[Id(0)] == CallNo(0)
      && CallNo(0) in s.answered && CallNo(0) in s.fired && s.fired[CallNo(0)] == []
  {
    var c, q := CallNo(0), Req(CallNo(0), Id(0), name, body);
    var r := Rep(c, Id(0), NotFound(name));
    h := CleanRunStep(map[], [INIT_SYSTEM], Send(c, name, body));
    h := CleanRunStep(map[], h, Handle(q, NotFound(name)));
    h := CleanRunStep(map[], h, Deliver(r));
    h := CleanRunStep(map[], h, Register(c));
  }

  // ----- when ids are free -----

  /** All ids that are held have been taken before. */
  predicate HeldBelow(s: System) {
    && (forall id :: id in s.calls ==> id.n < s.next)
    && (forall c :: c in s.starting ==> s.starting[c].n < s.next)
  }

  lemma HeldStaysBelow(ks: Kinds, s: System, a: Action)
    requires HeldBelow(s) && Enabled(ks, s, a) && Next(ks, s, a).next <= ID_SPACE
    ensures HeldBelow(Next(ks, s, a)) && UsesFreeId(s, a)
  {
  }

  lemma HeldStep(ks: Kinds, s: System, s': System)
    requires HeldBelow(s) && Step(ks, s, s') && s'.next <= ID_SPACE
    ensures HeldBelow(s') && CleanStep(ks, s, s')
  {
    var a :| Enabled(ks, s, a) && s' == Next(ks, s, a);
    HeldStaysBelow(ks, s, a);
  }

  lemma NextOnlyGrows(ks: Kinds, s: System, s': System)
    requires Step(ks, s, s')
    ensures s.next <= s'.next
  {
    var a :| Enabled(ks, s, a) && s' == Next(ks, s, a);
    ActionsGrowNext(ks, s, a);
  }

  lemma ActionsGrowNext(ks: Kinds, s: System, a: Action)
    requires Enabled(ks, s, a)
    ensures s.next <= Next(ks, s, a).next
  {
  }

  lemma {:induction false} FewIds(ks: Kinds, h: seq<System>, i: int)
    requires IsRun(ks, h) && 0 <= i < |h| && h[i].next <= ID_SPACE
    ensures HeldBelow(h[i]) && forall k {:trigger CleanAt(ks, h, k)} :: 0 < k <= i ==> CleanAt(ks, h, k)
    decreases i
  {
    if i > 0 {
      assert StepAt(ks, h, i);
      NextOnlyGrows(ks, h[i - 1], h[i]);
      FewIds(ks, h, i - 1);
      HeldStep(ks, h[i - 1], h[i]);
      forall k {:trigger CleanAt(ks, h, k)} | 0 < k <= i
        ensures CleanAt(ks, h, k)
      {
      }
    }
  }

  /** While no more than 2^32 ids have been taken, every call is sent with a free one. */
  lemma FewIdsAreFree(ks: Kinds, h: seq<System>)
    requires IsRun(ks, h) && h[|h| - 1].next <= ID_SPACE
    ensures IsCleanRun(ks, h)
  {
    FewIds(ks, h, |h| - 1);
  }

  // ----- sending with an id that is not free -----

  /** No callback has been given the answer to another call. */
  predicate NobodyMixedUp(s: System) {
    forall c, i :: c in s.fired && 0 <= i < |s.fired[c]| ==> s.fired[c][i].of == c
  }

  /** Clean steps, starting anywhere. */
  ghost predicate IsCleanPath(ks: Kinds, s: System, h: seq<System>) {
    && |h| > 0 && h[0] == s
    && forall i {:trigger CleanAt(ks, h, i)} :: 0 < i < |h| ==> CleanAt(ks, h, i)
  }

  ghost predicate StaysSound(ks: Kinds, s: System) {
    forall h {:trigger IsCleanPath(ks, s, h)} :: IsCleanPath(ks, s, h) ==> NobodyMixedUp(h[|h| - 1])
  }

  lemma {:induction false} PathInv(ks: Kinds, s: System, h: seq<System>, i: int)
    requires Inv(s) && IsCleanPath(ks, s, h) && 0 <= i < |h|
    ensures Inv(h[i])
    decreases i
  {
    if i > 0 {
      PathInv(ks, s, h, i - 1);
      assert CleanAt(ks, h, i);
      CleanStepKeepsInv(ks, h[i - 1], h[i]);
    }
  }

  lemma InvIsSound(s: System)
    requires Inv(s)
    ensures NobodyMixedUp(s)
  {
    forall c, i | c in s.fired && 0 <= i < |s.fired[c]|
      ensures s.fired[c][i].of == c
    {
      assert CallOk(s, c);
    }
  }

  lemma PathStep(ks: Kinds, s: System, h: seq<System>, a: Action) returns (h': seq<System>)
    requires IsCleanPath(ks, s, h) && Enabled(ks, h[|h| - 1], a) && UsesFreeId(h[|h| - 1], a)
    ensures IsCleanPath(ks, s, h') && |h'| > 0 && h'[|h'| - 1] == Next(ks, h[|h| - 1], a)
  {
    h' := h + [Next(ks, h[|h| - 1], a)];
    forall i {:trigger CleanAt(ks, h', i)} | 0 < i < |h'|
      ensures CleanAt(ks, h', i)
    {
      if i < |h| {
        assert CleanAt(ks, h, i);
      } else {
        assert CleanStep(ks, h[|h| - 1], Next(ks, h[|h| - 1], a));
      }
    }
  }

  /** An outcome that the method of q may have. */
  function SomeOutcome(q: Req): Outcome {
    NotFound(q.name)
  }

  /** The request of a call that shares its id with one in the table is answered to that one. */
  lemma AnswerGoesAstray(ks: Kinds, s0: System, h: seq<System>, q: Req, c: CallNo) returns (h': seq<System>)
    requires IsCleanPath(ks, s0, h)
    requires var s := h[|h| - 1]; q in s.requests && q.id in s.calls && s.calls[q.id] == c && c != q.of
    ensures IsCleanPath(ks, s0, h') && |h'| > 0 && !NobodyMixedUp(h'[|h'| - 1])
  {
    var outcome := SomeOutcome(q);
    var r := Rep(q.of, q.id, outcome);
    h' := PathStep(ks, s0, h, Handle(q, outcome));
    if WorkedOnLater(ks, q) {
      h' := PathStep(ks, s0, h', Finish(q, outcome));
    }
    var s := h'[|h'| - 1];
    h' := PathStep(ks, s0, h', Deliver(r));
    var s' := h'[|h'| - 1];
    assert s'.fired[c] == FiredOf(s, c) + [r];
    assert s'.fired[c][|FiredOf(s, c)|].of != c;
  }

  /** If somebody holds the id, somebody may be given the answer to the new call. */
  lemma HeldIdMixesUp(ks: Kinds, s: System, c: CallNo, name: string, body: Body)
    requires Inv(s) && Enabled(ks, s, Send(c, name, body)) && !IsFree(s, NextId(s))
    ensures !StaysSound(ks, Next(ks, s, Send(c, name, body)))
  {
    var id, q := NextId(s), Req(c, NextId(s), name, body);
    var s1 := Next(ks, s, Send(c, name, body));
    var h := [s1];
    assert IsCleanPath(ks, s1, h);
    var holder;
    if id in s.calls {
      assert EntryOk(s, id);
      holder := s.calls[id];
    } else {
      holder :| holder in s.starting && s.starting[holder] == id;
      h := PathStep(ks, s1, h, Register(holder));
    }
    var h' := AnswerGoesAstray(ks, s1, h, q, holder);
    assert IsCleanPath(ks, s1, h');
  }

  /**
   A call may be sent if and only if nobody holds its id: then no callback is ever given the answer to
   another call, as long as later calls are sent with free ids; otherwise one may be.
   */
  lemma SafeToSendIffIdIsFree(ks: Kinds, s: System, c: CallNo, name: string, body: Body)
    requires Inv(s) && Enabled(ks, s, Send(c, name, body))
    ensures StaysSound(ks, Next(ks, s, Send(c, name, body))) <==> IsFree(s, NextId(s))
  {
    var s1 := Next(ks, s, Send(c, name, body));
    if IsFree(s, NextId(s)) {
      StepKeepsInv(ks, s, Send(c, name, body));
      forall h {:trigger IsCleanPath(ks, s1, h)} | IsCleanPath(ks, s1, h)
        ensures NobodyMixedUp(h[|h| - 1])
      {
        PathInv(ks, s1, h, |h| - 1);
        InvIsSound(h[|h| - 1]);
      }
    } else {
      HeldIdMixesUp(ks, s, c, name, body);
    }
  }

  // ----- the counter wraps around -----

  lemma {:induction false} TakeIds(ks: Kinds, s: System, n: nat)
    requires Reachable(ks, s)
    ensures Reachable(ks, s.(next := s.next + n))
    decreases n
  {
    if n > 0 {
      TakeIds(ks, s, n - 1);
      ReachableStep(ks, s.(next := s.next + n - 1), TakeId);
    } else {
      assert s.(next := s.next + 0) == s;
    }
  }

  /** After 2^32 ids the callback of the first call is given the answer to the second. */
  lemma WrappedIdsMixUp(name: string, first: Body, second: Body) returns (s: System)
    ensures Reachable(map[], s) && s.next == ID_SPACE + 1
    ensures CallNo(0) in s.fired && |s.fired[CallNo(0)]| == 1 && s.fired[CallNo(0)][0].of == CallNo(1)
  {
    var ks: Kinds := map[];
    assert IsRun(ks, [INIT_SYSTEM]);
    assert [INIT_SYSTEM][0] == INIT_SYSTEM;
    s := INIT_SYSTEM;
    ReachableStep(ks, s, Send(CallNo(0), name, first));
    s := Next(ks, s, Send(CallNo(0), name, first));
    ReachableStep(ks, s, Register(CallNo(0)));
    s := Next(ks, s, Register(CallNo(0)));
    TakeIds(ks, s, ID_SPACE - 1);
    s := s.(next := s.next + (ID_SPACE - 1));
    assert NextId(s) == Id(0);
    ReachableStep(ks, s, Send(CallNo(1), name, second));
    s := Next(ks, s, Send(CallNo(1), name, second));
    var q := Req(CallNo(1), Id(0), name, second);
    ReachableStep(ks, s, Handle(q, NotFound(name)));
    s := Next(ks, s, Handle(q, NotFound(name)));
    ReachableStep(ks, s, Deliver(Rep(CallNo(1), Id(0), NotFound(name))));
    s := Next(ks, s, Deliver(Rep(CallNo(1), Id(0), NotFound(name))));
  }
}
