/**
 * Matching command results to waiting callers (internal/dashboard/ws/hub.go): SendCommand,
 * its timer callback and HandleResult as interleaved steps, one step per locked region or channel
 * operation. Result channels have capacity 1.
 */
module CommandHub {

  type CallId = nat
  type HandlerId = nat

  datatype CommandResult = CommandResult(commandID: string, body: string)

  function TimedOut(id: string): CommandResult {
    CommandResult(id, "command timed out")
  }

  /** How far a SendCommand call has come. */
  datatype Phase =
    | Armed                           // timer running, not yet in the pending map
    | Sending                         // in the pending map, message not yet handed over
    | Unsending                       // handing over failed, pending entry not yet removed
    | Waiting                         // reading from its channel
    | Returned(result: CommandResult)
    | Failed

  /**
   * One SendCommand call: its message ID, its result channel and how many values that was ever
   * sent, whether its timer fired, and whether it did so before the call was in the pending map.
   */
  datatype Call = Call(id: string, phase: Phase, channel: seq<CommandResult>, sends: nat, timerFired: bool, early: bool)

  /** A HandleResult that took a pending entry and is about to write to its channel. */
  datatype Hand = Hand(call: CallId, result: CommandResult)

  datatype State = State(
    calls: map<CallId, Call>,
    pending: map<string, CallId>,
    hands: map<HandlerId, Hand>,
    blocked: bool)

  const EMPTY := State(map[], map[], map[], false)

  datatype Event =
    | Begin(call: CallId, id: string)
    | Insert(call: CallId)
    | HandOver(call: CallId, ok: bool)
    | Withdraw(call: CallId)
    | Receive(call: CallId)
    | TimerFires(call: CallId)
    | Take(handler: HandlerId, result: CommandResult)
    | Deliver(handler: HandlerId)

  predicate InPhase(s: State, c: CallId, p: Phase) {
    c in s.calls && s.calls[c].phase == p
  }

  function With(s: State, c: CallId, call: Call): State {
    s.(calls := s.calls[c := call])
  }

  function Unpend(s: State, id: string): State {
    s.(pending := s.pending - {id})
  }

  /** Writing to a result channel; a full one blocks the writer. */
  function Put(s: State, c: CallId, r: CommandResult): State {
    if c !in s.calls || |s.calls[c].channel| >= 1 then s.(blocked := true) else
    var call := s.calls[c];
    With(s, c, call.(channel := call.channel + [r], sends := call.sends + 1))
  }

  /** The effect of one step; a step that is not possible changes nothing. */
  function Step(s: State, e: Event): State {
    match e
    case Begin(c, id) =>
      if c in s.calls then s else With(s, c, Call(id, Armed, [], 0, false, false))
    case Insert(c) =>
      if !InPhase(s, c, Armed) then s else
      With(s, c, s.calls[c].(phase := Sending)).(pending := s.pending[s.calls[c].id := c])
    case HandOver(c, ok) =>
      if !InPhase(s, c, Sending) then s else With(s, c, s.calls[c].(phase := if ok then Waiting else Unsending))
    case Withdraw(c) =>
      if !InPhase(s, c, Unsending) then s else Unpend(With(s, c, s.calls[c].(phase := Failed)), s.calls[c].id)
    case Receive(c) =>
      if !InPhase(s, c, Waiting) || s.calls[c].channel == [] then s else
      var call := s.calls[c];
      With(s, c, call.(phase := Returned(call.channel[0]), channel := call.channel[1..]))
    case TimerFires(c) =>
      if c !in s.calls || s.calls[c].timerFired then s else
      var id := s.calls[c].id;
      var fired := MarkFired(s, c);
      if id in s.pending then Put(Unpend(fired, id), s.pending[id], TimedOut(id)) else fired
    case Take(h, result) =>
      var id := result.commandID;
      if h in s.hands || id !in s.pending then s else
      Unpend(s, id).(hands := s.hands[h := Hand(s.pending[id], result)])
    case Deliver(h) =>
      if h !in s.hands then s else Put(s.(hands := s.hands - {h}), s.hands[h].call, s.hands[h].result)
  }

  function MarkFired(s: State, c: CallId): State
    requires c in s.calls
  {
    var call := s.calls[c];
    With(s, c, call.(timerFired := true, early := call.phase == Armed))
  }

  function Run(events: seq<Event>): State {
    if events == [] then EMPTY else Step(Run(events[..|events| - 1]), events[|events| - 1])
  }

  // ---------------------------------------------------------------- safety for any message IDs

  predicate CallOk(call: Call) {
    && |call.channel| <= call.sends <= 1
    && (forall i :: 0 <= i < |call.channel| ==> call.channel[i].commandID == call.id)
    && (call.phase == Armed ==> call.sends == 0 && (call.timerFired ==> call.early))
    && (call.phase.Returned? ==> call.phase.result.commandID == call.id && call.sends == 1 && call.channel == [])
  }

  /** A call whose channel may still be written to. */
  predicate Open(s: State, c: CallId, id: string) {
    c in s.calls && s.calls[c].id == id && s.calls[c].phase != Armed && s.calls[c].sends == 0
  }

  predicate Inv(s: State) {
    && !s.blocked
    && (forall c :: c in s.calls ==> CallOk(s.calls[c]))
    && (forall id :: id in s.pending ==> Open(s, s.pending[id], id) && s.calls[s.pending[id]].phase != Failed)
    && (forall h :: h in s.hands ==> Open(s, s.hands[h].call, s.hands[h].result.commandID))
    && (forall h, id :: h in s.hands && id in s.pending ==> s.hands[h].call != s.pending[id])
    && (forall g, h :: g in s.hands && h in s.hands && g != h ==> s.hands[g].call != s.hands[h].call)
  }

  /** A writer that holds the only reference to an open call finds room in its channel. */
  lemma InvPut(s: State, c: CallId, r: CommandResult)
    requires Inv(s) && Open(s, c, r.commandID)
    requires forall id :: id in s.pending ==> s.pending[id] != c
    requires forall h :: h in s.hands ==> s.hands[h].call != c
    ensures Inv(Put(s, c, r))
  {
    assert CallOk(s.calls[c]);
  }

  lemma InvUnpend(s: State, id: string)
    requires Inv(s)
    ensures Inv(Unpend(s, id))
  {
  }

  /** Changing how far a call has come, short of returning. */
  lemma InvPhase(s: State, c: CallId, call: Call)
    requires Inv(s) && c in s.calls && !call.phase.Returned? && call.phase != Armed
    requires s.calls[c].(phase := call.phase, timerFired := call.timerFired, early := call.early) == call
    requires call.phase == Failed ==> call.id !in s.pending
    ensures Inv(With(s, c, call))
  {
    assert CallOk(s.calls[c]);
  }

  lemma InvFired(s: State, c: CallId)
    requires Inv(s) && c in s.calls
    ensures Inv(MarkFired(s, c))
  {
    assert CallOk(s.calls[c]);
  }

  lemma InvTimer(s: State, c: CallId)
    requires Inv(s)
    ensures Inv(Step(s, TimerFires(c)))
  {
    if c in s.calls && !s.calls[c].timerFired {
      InvFired(s, c);
      var id := s.calls[c].id;
      if id in s.pending {
        InvUnpend(MarkFired(s, c), id);
        InvPut(Unpend(MarkFired(s, c), id), s.pending[id], TimedOut(id));
      }
    }
  }

  lemma InvDeliver(s: State, h: HandlerId)
    requires Inv(s)
    ensures Inv(Step(s, Deliver(h)))
  {
    if h in s.hands {
      var t := s.(hands := s.hands - {h});
      assert Inv(t);
      InvPut(t, s.hands[h].call, s.hands[h].result);
    }
  }

  lemma InvReceive(s: State, c: CallId)
    requires Inv(s)
    ensures Inv(Step(s, Receive(c)))
  {
    if InPhase(s, c, Waiting) && s.calls[c].channel != [] {
      assert CallOk(s.calls[c]);
      assert !Open(s, c, s.calls[c].id);
    }
  }

  lemma InvWithdraw(s: State, c: CallId)
    requires Inv(s)
    ensures Inv(Step(s, Withdraw(c)))
  {
    if InPhase(s, c, Unsending) {
      InvUnpend(s, s.calls[c].id);
      InvPhase(Unpend(s, s.calls[c].id), c, s.calls[c].(phase := Failed));
    }
  }

  lemma InvBegin(s: State, c: CallId, id: string)
    requires Inv(s)
    ensures Inv(Step(s, Begin(c, id)))
  {
    assert CallOk(Call(id, Armed, [], 0, false, false));
  }

  lemma InvInsert(s: State, c: CallId)
    requires Inv(s)
    ensures Inv(Step(s, Insert(c)))
  {
    assert c in s.calls ==> CallOk(s.calls[c]);
  }

  lemma InvHandOver(s: State, c: CallId, ok: bool)
    requires Inv(s)
    ensures Inv(Step(s, HandOver(c, ok)))
  {
    if InPhase(s, c, Sending) {
      InvPhase(s, c, s.calls[c].(phase := if ok then Waiting else Unsending));
    }
  }

  lemma InvTake(s: State, h: HandlerId, r: CommandResult)
    requires Inv(s)
    ensures Inv(Step(s, Take(h, r)))
  {
    if r.commandID in s.pending {
      InvUnpend(s, r.commandID);
    }
  }

  lemma InvStep(s: State, e: Event)
    requires Inv(s)
    ensures Inv(Step(s, e))
  {
    hide *;
    match e
    case Begin(c, id) => InvBegin(s, c, id);
    case Insert(c) => InvInsert(s, c);
    case HandOver(c, ok) => InvHandOver(s, c, ok);
    case Withdraw(c) => InvWithdraw(s, c);
    case Receive(c) => InvReceive(s, c);
    case TimerFires(c) => InvTimer(s, c);
    case Take(h, r) => InvTake(s, h, r);
    case Deliver(h) => InvDeliver(s, h);
  }

  lemma {:induction false} InvRun(events: seq<Event>)
    ensures Inv(Run(events))
  {
    if events != [] {
      InvRun(events[..|events| - 1]);
      InvStep(Run(events[..|events| - 1]), events[|events| - 1]);
    }
  }

  /**
   * In every interleaving, even with repeated message IDs: no writer ever finds a result channel
   * full, each channel is sent at most one value over its lifetime, and a result that is returned
   * carries the command ID of the call it is returned from.
   */
  lemma NeverBlocksAndMatches(events: seq<Event>, c: CallId)
    requires c in Run(events).calls
    ensures var s := Run(events);
            && !s.blocked
            && s.calls[c].sends <= 1
            && (s.calls[c].phase.Returned? ==> s.calls[c].phase.result.commandID == s.calls[c].id)
  {
    InvRun(events);
    assert CallOk(Run(events).calls[c]);
  }

  // ---------------------------------------------------------------- distinct message IDs

  ghost predicate DistinctIds(s: State) {
    forall c, d :: c in s.calls && d in s.calls && s.calls[c].id == s.calls[d].id ==> c == d
  }

  /**
   * A call past its insertion can still be reached by a result: it is pending, in a handler's hand, or
   * its channel has one. (A timer that fired before the call was pending leaves it so.)
   */
  ghost predicate Served(s: State, c: CallId)
    requires c in s.calls
  {
    var call := s.calls[c];
    || (call.id in s.pending && s.pending[call.id] == c && (call.timerFired ==> call.early))
    || (exists h :: h in s.hands && s.hands[h].call == c)
    || call.channel != []
  }

  predicate Expecting(call: Call) {
    call.phase == Sending || call.phase == Waiting
  }

  ghost predicate AllServed(s: State) {
    forall c :: c in s.calls && Expecting(s.calls[c]) ==> Served(s, c)
  }

  /** Calls are never forgotten and keep their message ID; only Begin starts one. */
  lemma KeepsIds(s: State, e: Event)
    ensures forall c :: c in s.calls ==> c in Step(s, e).calls && Step(s, e).calls[c].id == s.calls[c].id
    ensures forall c :: c in Step(s, e).calls && c !in s.calls ==> Step(s, e).calls[c].phase == Armed
  {
  }

  lemma ServedTimer(s: State, d: CallId, c: CallId)
    requires Inv(s) && c in s.calls && Served(s, c) && DistinctIds(s) && s.calls[c].phase != Armed
    ensures c in Step(s, TimerFires(d)).calls && Served(Step(s, TimerFires(d)), c)
  {
    if d in s.calls && !s.calls[d].timerFired {
      var id := s.calls[d].id;
      assert d != c ==> id != s.calls[c].id;
      assert id in s.pending ==> Open(s, s.pending[id], id) && CallOk(s.calls[s.pending[id]]);
      hide Inv, DistinctIds;
      assert Step(s, TimerFires(d)).hands == s.hands;
    }
  }

  lemma ServedHandler(s: State, e: Event, c: CallId)
    requires e.Take? || e.Deliver?
    requires Inv(s) && c in s.calls && Served(s, c)
    ensures c in Step(s, e).calls && Served(Step(s, e), c)
  {
    var t := Step(s, e);
    if e.Take? && e.handler !in s.hands && e.result.commandID in s.pending {
      assert t.hands[e.handler].call == s.pending[e.result.commandID];
    }
    if g :| g in s.hands && s.hands[g].call == c {
      assert e != Deliver(g) ==> g in t.hands && t.hands[g] == s.hands[g];
    }
  }

  /** The steps of another caller. */
  lemma ServedOther(s: State, e: Event, c: CallId)
    requires e.Begin? || e.Insert? || e.HandOver? || e.Withdraw? || e.Receive?
    requires c in s.calls && Served(s, c) && e.call != c
    requires e.call in s.calls ==> s.calls[e.call].id != s.calls[c].id
    ensures c in Step(s, e).calls && Served(Step(s, e), c)
  {
    var t := Step(s, e);
    assert t.hands == s.hands && t.calls[c] == s.calls[c];
    assert s.calls[c].id in s.pending ==>
           s.calls[c].id in t.pending && t.pending[s.calls[c].id] == s.pending[s.calls[c].id];
  }

  /** The caller's own steps while it expects a result. */
  lemma ServedCaller(s: State, e: Event, c: CallId)
    requires e.Begin? || e.Insert? || e.HandOver? || e.Withdraw? || e.Receive?
    requires c in s.calls && Served(s, c) && DistinctIds(s)
    requires Expecting(s.calls[c]) && c in Step(s, e).calls && Expecting(Step(s, e).calls[c])
    ensures Served(Step(s, e), c)
  {
    if e.call == c {
      var t := Step(s, e);
      assert t.hands == s.hands && t.pending == s.pending && t.calls[c] == s.calls[c].(phase := t.calls[c].phase);
    } else {
      hide Step, Served;
      ServedOther(s, e, c);
    }
  }

  lemma ServedInsert(s: State, c: CallId)
    requires InPhase(s, c, Armed) && CallOk(s.calls[c])
    ensures Served(Step(s, Insert(c)), c)
  {
  }

  lemma ArmedUntilInsert(s: State, e: Event, c: CallId)
    requires c in s.calls && !Expecting(s.calls[c]) && c in Step(s, e).calls && Expecting(Step(s, e).calls[c])
    ensures InPhase(s, c, Armed) && e == Insert(c)
  {
  }

  lemma AllServedStep(s: State, e: Event)
    requires Inv(s) && AllServed(s) && DistinctIds(Step(s, e))
    ensures AllServed(Step(s, e))
  {
    var t := Step(s, e);
    KeepsIds(s, e);
    assert DistinctIds(s) by {
      hide Step;
    }
    forall c | c in t.calls && Expecting(t.calls[c])
      ensures Served(t, c)
    {
      hide Step, Served;
      if !Expecting(s.calls[c]) {
        ArmedUntilInsert(s, e, c);
        ServedInsert(s, c);
      } else if e.TimerFires? {
        ServedTimer(s, e.call, c);
      } else if e.Take? || e.Deliver? {
        ServedHandler(s, e, c);
      } else {
        ServedCaller(s, e, c);
      }
    }
  }

  lemma {:induction false} DistinctBefore(events: seq<Event>, n: nat)
    requires n <= |events| && DistinctIds(Run(events))
    ensures DistinctIds(Run(events[..n]))
    decreases |events|
  {
    if n < |events| {
      var m := |events| - 1;
      KeepsIds(Run(events[..m]), events[m]);
      hide Step;
      DistinctBefore(events[..m], n);
      assert events[..m][..n] == events[..n];
    } else {
      assert events[..n] == events;
    }
  }

  lemma {:induction false} AllServedRun(events: seq<Event>)
    requires DistinctIds(Run(events))
    ensures AllServed(Run(events))
  {
    if events != [] {
      var m := |events| - 1;
      DistinctBefore(events, m);
      AllServedRun(events[..m]);
      InvRun(events[..m]);
      AllServedStep(Run(events[..m]), events[m]);
    }
  }

  /**
   * With distinct message IDs, a call that has returned or failed is no longer pending, and a call
   * still waiting has its result in its channel, in a handler's hand, or its timer ahead of it
   * (unless that fired before the call was in the pending map).
   */
  lemma NothingPendingNobodyLost(events: seq<Event>, c: CallId)
    requires DistinctIds(Run(events)) && c in Run(events).calls
    ensures var s := Run(events);
            var call := s.calls[c];
            && (call.phase.Returned? || call.phase == Failed ==> call.id !in s.pending)
            && (call.phase == Waiting ==> Served(s, c))
  {
    InvRun(events);
    AllServedRun(events);
    var s := Run(events);
    hide Run;
    assert CallOk(s.calls[c]);
    assert Expecting(s.calls[c]) ==> Served(s, c);
    if s.calls[c].id in s.pending {
      assert Open(s, s.pending[s.calls[c].id], s.calls[c].id);
    }
  }

  // ---------------------------------------------------------------- whose result is returned

  /** The step takes the pending entry of call `c` for result `r`: an agent's own, or that of a timer. */
  predicate Answering(s: State, e: Event, c: CallId, r: CommandResult) {
    && r.commandID in s.pending && s.pending[r.commandID] == c
    && match e
       case Take(h, result) => h !in s.hands && result == r
       case TimerFires(d) =>
         d in s.calls && !s.calls[d].timerFired && s.calls[d].id == r.commandID && r == TimedOut(r.commandID)
       case _ => false
  }

  ghost predicate AnswersAt(events: seq<Event>, i: nat, c: CallId, r: CommandResult)
    requires i < |events|
  {
    Answering(Run(events[..i]), events[i], c, r)
  }

  /** `r` has been returned from call `c`, is in its channel or in a handler's hand for it. */
  ghost predicate HasResult(s: State, c: CallId, r: CommandResult) {
    || (c in s.calls && (s.calls[c].phase == Returned(r) || r in s.calls[c].channel))
    || (exists h :: h in s.hands && s.hands[h] == Hand(c, r))
  }

  lemma TakeResult(s: State, e: Event, c: CallId, r: CommandResult)
    requires e.Take?
    ensures HasResult(Step(s, e), c, r) <==> HasResult(s, c, r) || Answering(s, e, c, r)
  {
    var t := Step(s, e);
    assert t.calls == s.calls;
    assert Answering(s, e, c, r) ==> t.hands[e.handler] == Hand(c, r);
    assert forall h :: h in s.hands ==> h in t.hands && t.hands[h] == s.hands[h];
  }

  lemma DeliverKeepsResult(s: State, h: HandlerId, c: CallId, r: CommandResult)
    requires Inv(s)
    ensures HasResult(Step(s, Deliver(h)), c, r) <==> HasResult(s, c, r)
  {
    var t := Step(s, Deliver(h));
    if h in s.hands {
      var hand := s.hands[h];
      assert Open(s, hand.call, hand.result.commandID) && CallOk(s.calls[hand.call]);
      hide Inv;
      assert t.calls == s.calls[hand.call := t.calls[hand.call]] && t.calls[hand.call].channel == [hand.result];
      assert t.hands == s.hands - {h};
      hide Step;
      assert forall g :: g in s.hands && g != h ==> g in t.hands && t.hands[g] == s.hands[g];
    }
  }

  lemma TimerResult(s: State, d: CallId, c: CallId, r: CommandResult)
    requires Inv(s)
    ensures HasResult(Step(s, TimerFires(d)), c, r) <==> HasResult(s, c, r) || Answering(s, TimerFires(d), c, r)
  {
    var t := Step(s, TimerFires(d));
    if d in s.calls && !s.calls[d].timerFired && s.calls[d].id in s.pending {
      var id := s.calls[d].id;
      var p := s.pending[id];
      assert Open(s, p, id) && CallOk(s.calls[p]);
      assert t.calls[p].channel == [TimedOut(id)];
    }
  }

  lemma CallerResult(s: State, e: Event, c: CallId, r: CommandResult)
    requires Inv(s) && (e.Begin? || e.Insert? || e.HandOver? || e.Withdraw? || e.Receive?)
    ensures HasResult(Step(s, e), c, r) <==> HasResult(s, c, r)
  {
    assert e.call in s.calls ==> CallOk(s.calls[e.call]);
    assert Step(s, e).hands == s.hands;
  }

  /** A result comes from the step that answers the call, and is not lost again. */
  lemma ResultStepIff(s: State, e: Event, c: CallId, r: CommandResult)
    requires Inv(s)
    ensures HasResult(Step(s, e), c, r) <==> HasResult(s, c, r) || Answering(s, e, c, r)
  {
    hide *;
    if e.Take? {
      TakeResult(s, e, c, r);
    } else if e.TimerFires? {
      TimerResult(s, e.call, c, r);
    } else {
      NotAnswering(s, e, c, r);
      if e.Deliver? {
        DeliverKeepsResult(s, e.handler, c, r);
      } else {
        CallerResult(s, e, c, r);
      }
    }
  }

  lemma NotAnswering(s: State, e: Event, c: CallId, r: CommandResult)
    requires !e.Take? && !e.TimerFires?
    ensures !Answering(s, e, c, r)
  {
  }

  /**
   * In every interleaving, a call has a result, in a hand, in its channel or returned, exactly if a
   * step answered it so.
   */
  lemma {:induction false} HasResultIff(events: seq<Event>, c: CallId, r: CommandResult)
    ensures HasResult(Run(events), c, r) <==> exists i :: 0 <= i < |events| && AnswersAt(events, i, c, r)
  {
    if events != [] {
      var n := |events| - 1;
      HasResultIff(events[..n], c, r);
      InvRun(events[..n]);
      ResultStepIff(Run(events[..n]), events[n], c, r);
      AnswersLast(events, c, r);
    }
  }

  lemma AnswersLast(events: seq<Event>, c: CallId, r: CommandResult)
    requires events != []
    ensures var n := |events| - 1;
            (exists i :: 0 <= i < |events| && AnswersAt(events, i, c, r)) <==>
            (exists i :: 0 <= i < n && AnswersAt(events[..n], i, c, r)) || Answering(Run(events[..n]), events[n], c, r)
  {
    hide Run, Answering;
    var n := |events| - 1;
    assert forall i :: 0 <= i < n ==> events[..n][..i] == events[..i];
    assert forall i: nat :: i < n ==> (AnswersAt(events[..n], i, c, r) <==> AnswersAt(events, i, c, r));
    assert AnswersAt(events, n, c, r) <==> Answering(Run(events[..n]), events[n], c, r);
  }

  lemma OneResult(s: State, c: CallId, r: CommandResult, q: CommandResult)
    requires Inv(s) && HasResult(s, c, r)
    ensures HasResult(s, c, q) ==> q == r
    ensures forall id :: id in s.pending ==> s.pending[id] != c
  {
    assert forall h :: h in s.hands ==> Open(s, s.hands[h].call, s.hands[h].result.commandID);
    assert forall id :: id in s.pending ==> Open(s, s.pending[id], id);
    assert c in s.calls ==> CallOk(s.calls[c]);
  }

  /** A call is answered at most once, whatever IDs are in use. */
  lemma AnsweredOnce(events: seq<Event>, c: CallId, i: nat, r: CommandResult, j: nat, q: CommandResult)
    requires i < |events| && j < |events| && AnswersAt(events, i, c, r) && AnswersAt(events, j, c, q)
    ensures i == j && r == q
  {
    if i != j {
      var a, b := if i < j then i else j, if i < j then j else i;
      var x, y := if i < j then r else q, if i < j then q else r;
      assert events[..b][..a] == events[..a];
      assert AnswersAt(events[..b], a, c, x);
      HasResultIff(events[..b], c, x);
      InvRun(events[..b]);
      hide Run, Inv, HasResult;
      OneResult(Run(events[..b]), c, x, x);
    }
  }

  /**
   * In every interleaving, whatever IDs are in use: what a call returns is exactly a result that an
   * agent sent, taken while the call was pending under its ID, or the timeout of a timer for that ID
   * that fired while it was; once a call was answered it returns no other result.
   */
  lemma ReturnsTheAnswer(events: seq<Event>, c: CallId)
    requires c in Run(events).calls && Run(events).calls[c].phase.Returned?
    ensures var r := Run(events).calls[c].phase.result;
            && r.commandID == Run(events).calls[c].id
            && (exists i :: 0 <= i < |events| && AnswersAt(events, i, c, r))
            && (forall i, q :: 0 <= i < |events| && AnswersAt(events, i, c, q) ==> q == r)
  {
    var r := Run(events).calls[c].phase.result;
    assert HasResult(Run(events), c, r);
    HasResultIff(events, c, r);
    NeverBlocksAndMatches(events, c);
    hide Run, HasResult, AnswersAt;
    var j :| 0 <= j < |events| && AnswersAt(events, j, c, r);
    forall i, q | 0 <= i < |events| && AnswersAt(events, i, c, q)
      ensures q == r
    {
      AnsweredOnce(events, c, i, q, j, r);
    }
  }

  /** A result taken for a waiting call is what it returns when that is written and read. */
  lemma TakenIsReturned(s: State, c: CallId, h: HandlerId, r: CommandResult)
    requires Inv(s) && InPhase(s, c, Waiting) && Answering(s, Take(h, r), c, r)
    ensures var t := After(s, [Take(h, r), Deliver(h), Receive(c)]);
            c in t.calls && t.calls[c].phase == Returned(r)
  {
    AfterThree(s, Take(h, r), Deliver(h), Receive(c));
    assert Open(s, c, r.commandID) && CallOk(s.calls[c]);
    hide Inv;
    var t := Step(s, Take(h, r));
    assert t.hands[h] == Hand(c, r) && t.calls[c] == s.calls[c];
    var u := Step(t, Deliver(h));
    assert u.calls[c].channel == [r] && u.calls[c].phase == Waiting;
  }

  predicate Unsent(p: Phase) {
    p == Unsending || p == Failed
  }

  predicate Sent(p: Phase) {
    p == Waiting || p.Returned?
  }

  lemma HandOverDecides(s: State, e: Event, c: CallId)
    requires c in Step(s, e).calls
    ensures var p := Step(s, e).calls[c].phase;
            && (Unsent(p) ==> (c in s.calls && Unsent(s.calls[c].phase)) || e == HandOver(c, false))
            && (Sent(p) ==> (c in s.calls && Sent(s.calls[c].phase)) || e == HandOver(c, true))
  {
  }

  /** A call fails only if its message was not handed over, and waits or returns only if it was. */
  lemma {:induction false} FailsOnlyUnsent(events: seq<Event>, c: CallId)
    requires c in Run(events).calls
    ensures var p := Run(events).calls[c].phase;
            && (Unsent(p) ==> HandOver(c, false) in events)
            && (Sent(p) ==> HandOver(c, true) in events)
  {
    var n := |events| - 1;
    HandOverDecides(Run(events[..n]), events[n], c);
    hide Step, Sent, Unsent;
    if c in Run(events[..n]).calls {
      FailsOnlyUnsent(events[..n], c);
    }
  }

  // ---------------------------------------------------------------- who can still return

  /** The state after further steps. */
  function After(s: State, more: seq<Event>): State {
    if more == [] then s else Step(After(s, more[..|more| - 1]), more[|more| - 1])
  }

  lemma AfterTwo(s: State, e: Event, f: Event)
    ensures After(s, [e]) == Step(s, e)
    ensures After(s, [e, f]) == Step(Step(s, e), f)
  {
    hide Step;
    assert [e][..0] == [] && [e, f][..1] == [e];
  }

  lemma AfterThree(s: State, e: Event, f: Event, g: Event)
    ensures After(s, [e, f, g]) == Step(Step(Step(s, e), f), g)
  {
    hide Step;
    AfterTwo(s, e, f);
    assert [e, f, g][..2] == [e, f];
  }

  /** SendCommand returns a result to caller `c` within these steps. */
  predicate Returns(s: State, c: CallId, more: seq<Event>) {
    var t := After(s, more);
    c in t.calls && t.calls[c].phase.Returned?
  }

  /** A waiting call that nothing refers to any more. */
  ghost predicate Lost(s: State, c: CallId) {
    && InPhase(s, c, Waiting) && s.calls[c].channel == []
    && (forall id :: id in s.pending ==> s.pending[id] != c)
    && (forall h :: h in s.hands ==> s.hands[h].call != c)
  }

  lemma LostStep(s: State, c: CallId, e: Event)
    requires Lost(s, c)
    ensures Lost(Step(s, e), c)
  {
    if e.Take? && e.handler !in s.hands && e.result.commandID in s.pending {
      assert s.pending[e.result.commandID] != c;
    }
  }

  lemma {:induction false} LostForever(s: State, c: CallId, more: seq<Event>)
    requires Lost(s, c)
    ensures Lost(After(s, more), c)
  {
    if more != [] {
      LostForever(s, c, more[..|more| - 1]);
      LostStep(After(s, more[..|more| - 1]), c, more[|more| - 1]);
    }
  }

  /** Two calls with one message ID, inserted one after the other. */
  function Clash(c: CallId, d: CallId, id: string): seq<Event> {
    [Begin(c, id), Begin(d, id), Insert(c), Insert(d), HandOver(c, true), HandOver(d, true)]
  }

  /** With a repeated message ID the earlier caller can be left waiting for a result nobody will write. */
  lemma RepeatedIdLosesCaller(c: CallId, d: CallId, id: string)
    requires c != d
    ensures Lost(Run(Clash(c, d, id)), c)
  {
    var e := Clash(c, d, id);
    var s3 := ClashInserted(c, d, id);
    assert e[..4][..3] == e[..3];
    var s4 := Step(s3, e[3]);
    var s5 := Step(s4, e[4]);
    assert Run(e[..4]) == s4;
    assert e[..5][..4] == e[..4] && Run(e[..5]) == s5;
    assert e[..6] == e;
  }

  lemma ClashInserted(c: CallId, d: CallId, id: string) returns (s: State)
    requires c != d
    ensures s == Run(Clash(c, d, id)[..3])
    ensures s == State(map[c := Call(id, Sending, [], 0, false, false), d := Call(id, Armed, [], 0, false, false)],
                       map[id := c], map[], false)
  {
    var e := Clash(c, d, id);
    assert e[..3][..2] == e[..2] && e[..2][..1] == e[..1] && e[..1][..0] == [];
    var s1 := Step(EMPTY, e[0]);
    var s2 := Step(s1, e[1]);
    assert Run(e[..1]) == s1 && Run(e[..2]) == s2;
    s := Step(s2, e[2]);
  }

  // ---------------------------------------------------------------- steps that let a waiting call return

  /** A nonempty channel of a waiting call is read. */
  lemma ReadsChannel(s: State, c: CallId)
    requires InPhase(s, c, Waiting) && s.calls[c].channel != []
    ensures Step(s, Receive(c)).calls[c].phase.Returned?
  {
  }

  lemma ReturnsFromHand(s: State, c: CallId, h: HandlerId)
    requires Inv(s) && InPhase(s, c, Waiting) && h in s.hands && s.hands[h].call == c
    ensures Returns(s, c, [Deliver(h), Receive(c)])
  {
    AfterTwo(s, Deliver(h), Receive(c));
    assert Open(s, c, s.hands[h].result.commandID) && CallOk(s.calls[c]);
    hide Inv;
    var t := Step(s, Deliver(h));
    assert InPhase(t, c, Waiting) && t.calls[c].channel != [];
    hide Step;
    ReadsChannel(t, c);
  }

  lemma ReturnsFromTimer(s: State, c: CallId)
    requires Inv(s) && InPhase(s, c, Waiting) && !s.calls[c].timerFired
    requires s.calls[c].id in s.pending && s.pending[s.calls[c].id] == c
    ensures Returns(s, c, [TimerFires(c), Receive(c)])
  {
    AfterTwo(s, TimerFires(c), Receive(c));
    assert Open(s, c, s.calls[c].id) && CallOk(s.calls[c]);
    hide Inv;
    var t := Step(s, TimerFires(c));
    assert InPhase(t, c, Waiting) && t.calls[c].channel != [];
    hide Step;
    ReadsChannel(t, c);
  }

  lemma ReturnsFromAgent(s: State, c: CallId, h: HandlerId, r: CommandResult)
    requires Inv(s) && InPhase(s, c, Waiting) && h !in s.hands
    requires s.calls[c].id in s.pending && s.pending[s.calls[c].id] == c
    requires r.commandID == s.calls[c].id
    ensures Returns(s, c, [Take(h, r), Deliver(h), Receive(c)])
  {
    TakenIsReturned(s, c, h, r);
  }

  lemma FreshHandler(s: State) returns (h: HandlerId)
    ensures h !in s.hands
  {
    h := Above(s.hands.Keys);
  }

  lemma {:induction false} Above(keys: set<HandlerId>) returns (h: HandlerId)
    ensures forall k :: k in keys ==> k < h
    decreases |keys|
  {
    if keys == {} {
      h := 0;
    } else {
      var k :| k in keys;
      var g := Above(keys - {k});
      h := if g > k then g else k + 1;
      assert forall j :: j in keys ==> j == k || j in keys - {k};
    }
  }

  lemma ServedReturns(s: State, c: CallId) returns (more: seq<Event>)
    requires Inv(s) && InPhase(s, c, Waiting) && Served(s, c)
    ensures Returns(s, c, more) && forall i :: 0 <= i < |more| ==> !more[i].Begin?
  {
    if s.calls[c].channel != [] {
      more := [Receive(c)];
      AfterTwo(s, Receive(c), Receive(c));
      ReadsChannel(s, c);
    } else if h :| h in s.hands && s.hands[h].call == c {
      more := [Deliver(h), Receive(c)];
      ReturnsFromHand(s, c, h);
    } else {
      var h := FreshHandler(s);
      var r := CommandResult(s.calls[c].id, "");
      more := [Take(h, r), Deliver(h), Receive(c)];
      ReturnsFromAgent(s, c, h, r);
    }
  }

  // ---------------------------------------------------------------- exactly which IDs are safe

  /** Every call begun has the message ID assigned to it. */
  ghost predicate Uses(ids: map<CallId, string>, events: seq<Event>) {
    forall i :: 0 <= i < |events| && events[i].Begin? ==>
      events[i].call in ids && ids[events[i].call] == events[i].id
  }

  ghost predicate Injective(ids: map<CallId, string>) {
    forall c, d :: c in ids && d in ids && ids[c] == ids[d] ==> c == d
  }

  /** Whatever has happened, every waiting caller can still be given a result. */
  ghost predicate EveryCallerCanReturn(ids: map<CallId, string>) {
    forall events, c :: Uses(ids, events) && InPhase(Run(events), c, Waiting) ==>
      exists more :: Uses(ids, more) && Returns(Run(events), c, more)
  }

  lemma {:induction false} IdsAssigned(ids: map<CallId, string>, events: seq<Event>)
    requires Uses(ids, events)
    ensures forall c :: c in Run(events).calls ==> c in ids && Run(events).calls[c].id == ids[c]
  {
    if events != [] {
      var n := |events| - 1;
      IdsAssigned(ids, events[..n]);
      KeepsIds(Run(events[..n]), events[n]);
      OnlyBeginAdds(Run(events[..n]), events[n]);
      hide Step;
    }
  }

  lemma OnlyBeginAdds(s: State, e: Event)
    ensures forall c :: c in Step(s, e).calls && c !in s.calls ==>
              e.Begin? && e.call == c && Step(s, e).calls[c].id == e.id
  {
  }

  /**
   * In every interleaving every waiting caller can still be given a result exactly if no two calls
   * share a message ID.
   */
  lemma EveryCallerCanReturnIff(ids: map<CallId, string>)
    ensures EveryCallerCanReturn(ids) <==> Injective(ids)
  {
    if Injective(ids) {
      forall events, c | Uses(ids, events) && InPhase(Run(events), c, Waiting)
        ensures exists more :: Uses(ids, more) && Returns(Run(events), c, more)
      {
        IdsAssigned(ids, events);
        assert DistinctIds(Run(events));
        InvRun(events);
        AllServedRun(events);
        hide Run, Inv, Served;
        assert Served(Run(events), c);
        var more := ServedReturns(Run(events), c);
        assert Uses(ids, more);
      }
    } else {
      var c, d :| c in ids && d in ids && ids[c] == ids[d] && c != d;
      var events := Clash(c, d, ids[c]);
      assert Uses(ids, events);
      RepeatedIdLosesCaller(c, d, ids[c]);
      hide Run, Clash;
      forall more
        ensures !Returns(Run(events), c, more)
      {
        LostForever(Run(events), c, more);
      }
      assert InPhase(Run(events), c, Waiting);
    }
  }

  // ---------------------------------------------------------------- timers that fire too early

  /** No result for this message ID comes from an agent. */
  ghost predicate AgentSilent(more: seq<Event>, id: string) {
    forall i :: 0 <= i < |more| && more[i].Take? ==> more[i].result.commandID != id
  }

  /** A waiting call that only its own pending entry refers to, while its timer is spent. */
  ghost predicate TimerSpent(s: State, c: CallId) {
    && InPhase(s, c, Waiting) && s.calls[c].timerFired && s.calls[c].channel == []
    && s.calls[c].id in s.pending
    && (forall id :: id in s.pending ==> (s.pending[id] == c <==> id == s.calls[c].id))
    && (forall h :: h in s.hands ==> s.hands[h].call != c)
  }

  lemma TimerSpentTimer(s: State, c: CallId, d: CallId)
    requires TimerSpent(s, c) && (d in s.calls && d != c ==> s.calls[d].id != s.calls[c].id)
    ensures TimerSpent(Step(s, TimerFires(d)), c) && Step(s, TimerFires(d)).calls[c].id == s.calls[c].id
  {
    if d in s.calls && d != c && s.calls[d].id in s.pending {
      assert s.pending[s.calls[d].id] != c;
    }
  }

  lemma TimerSpentHandler(s: State, c: CallId, e: Event)
    requires TimerSpent(s, c) && (e.Take? || e.Deliver?) && (e.Take? ==> e.result.commandID != s.calls[c].id)
    ensures TimerSpent(Step(s, e), c) && Step(s, e).calls[c].id == s.calls[c].id
  {
    if e.Take? && e.handler !in s.hands && e.result.commandID in s.pending {
      assert s.pending[e.result.commandID] != c;
    }
  }

  lemma TimerSpentCaller(s: State, c: CallId, e: Event)
    requires TimerSpent(s, c) && (e.Begin? || e.Insert? || e.HandOver? || e.Withdraw? || e.Receive?)
    requires e.call in s.calls && e.call != c ==> s.calls[e.call].id != s.calls[c].id
    ensures TimerSpent(Step(s, e), c) && Step(s, e).calls[c].id == s.calls[c].id
  {
  }

  lemma TimerSpentStep(s: State, c: CallId, e: Event)
    requires TimerSpent(s, c) && DistinctIds(s) && (e.Take? ==> e.result.commandID != s.calls[c].id)
    ensures TimerSpent(Step(s, e), c) && Step(s, e).calls[c].id == s.calls[c].id
  {
    hide Step;
    if e.Take? || e.Deliver? {
      TimerSpentHandler(s, c, e);
    } else if e.TimerFires? {
      TimerSpentTimer(s, c, e.call);
    } else {
      TimerSpentCaller(s, c, e);
    }
  }

  lemma {:induction false} TimerSpentForever(s: State, c: CallId, more: seq<Event>)
    requires TimerSpent(s, c) && DistinctIds(After(s, more)) && AgentSilent(more, s.calls[c].id)
    ensures TimerSpent(After(s, more), c) && After(s, more).calls[c].id == s.calls[c].id
  {
    if more != [] {
      var n := |more| - 1;
      KeepsIds(After(s, more[..n]), more[n]);
      assert DistinctIds(After(s, more[..n])) by {
        hide Step;
      }
      hide Step, TimerSpent;
      TimerSpentForever(s, c, more[..n]);
      TimerSpentStep(After(s, more[..n]), c, more[n]);
    }
  }

  /** Steps other than Begin keep message IDs distinct. */
  lemma KeepsDistinct(s: State, e: Event)
    requires DistinctIds(s) && !e.Begin?
    ensures DistinctIds(Step(s, e))
  {
    KeepsIds(s, e);
    OnlyBeginAdds(s, e);
    hide Step;
  }

  /**
   * With distinct message IDs, a waiting call can return without a result from the agent exactly if
   * it is not pending with its timer already fired, which is to say fired before the call was pending.
   */
  lemma WithoutAgentIff(events: seq<Event>, c: CallId)
    requires DistinctIds(Run(events)) && InPhase(Run(events), c, Waiting)
    ensures var s := Run(events);
            var call := s.calls[c];
            && ((exists more :: AgentSilent(more, call.id) && DistinctIds(After(s, more)) && Returns(s, c, more))
                <==> !(call.timerFired && call.id in s.pending))
            && (call.timerFired && call.id in s.pending ==> call.early)
  {
    InvRun(events);
    AllServedRun(events);
    var s := Run(events);
    hide Run;
    var call := s.calls[c];
    assert Served(s, c);
    if call.timerFired && call.id in s.pending {
      SpentIfPending(s, c);
      forall more | AgentSilent(more, call.id) && DistinctIds(After(s, more))
        ensures !Returns(s, c, more)
      {
        TimerSpentForever(s, c, more);
      }
    } else {
      var more := ReturnsSilently(s, c);
    }
  }

  lemma SpentIfPending(s: State, c: CallId)
    requires Inv(s) && DistinctIds(s) && InPhase(s, c, Waiting) && s.calls[c].timerFired && s.calls[c].id in s.pending
    ensures TimerSpent(s, c) && s.pending[s.calls[c].id] == c
  {
    var id := s.calls[c].id;
    assert Open(s, s.pending[id], id) && CallOk(s.calls[c]);
    assert forall i :: i in s.pending ==> Open(s, s.pending[i], i);
  }

  lemma ReturnsSilently(s: State, c: CallId) returns (more: seq<Event>)
    requires Inv(s) && DistinctIds(s) && InPhase(s, c, Waiting) && Served(s, c)
    requires !(s.calls[c].timerFired && s.calls[c].id in s.pending)
    ensures Returns(s, c, more) && AgentSilent(more, s.calls[c].id) && DistinctIds(After(s, more))
  {
    if s.calls[c].channel != [] {
      more := [Receive(c)];
      AfterTwo(s, Receive(c), Receive(c));
      ReadsChannel(s, c);
      KeepsDistinct(s, Receive(c));
    } else if h :| h in s.hands && s.hands[h].call == c {
      more := [Deliver(h), Receive(c)];
      ReturnsFromHand(s, c, h);
      AfterTwo(s, Deliver(h), Receive(c));
      KeepsDistinct(s, Deliver(h));
      KeepsDistinct(Step(s, Deliver(h)), Receive(c));
    } else {
      more := [TimerFires(c), Receive(c)];
      ReturnsFromTimer(s, c);
      AfterTwo(s, TimerFires(c), Receive(c));
      KeepsDistinct(s, TimerFires(c));
      KeepsDistinct(Step(s, TimerFires(c)), Receive(c));
    }
  }

  /** Such a call exists: its timer fired before it was in the pending map. */
  lemma EarlyTimerIsSpent(c: CallId, id: string)
    ensures TimerSpent(Run([Begin(c, id), TimerFires(c), Insert(c), HandOver(c, true)]), c)
  {
    var e := [Begin(c, id), TimerFires(c), Insert(c), HandOver(c, true)];
    assert e[..4] == e && e[..3][..2] == e[..2] && e[..2][..1] == e[..1] && e[..1][..0] == [];
    var s1 := Step(EMPTY, e[0]);
    var s2 := Step(s1, e[1]);
    var s3 := Step(s2, e[2]);
    assert Run(e[..1]) == s1 && Run(e[..2]) == s2 && Run(e[..3]) == s3;
  }

  // ---------------------------------------------------------------- the hub

  /** The hub's shared state; each method is one locked region or channel operation. */
  class Hub {
    var calls: map<CallId, Call>
    var pending: map<string, CallId>
    var hands: map<HandlerId, Hand>

    ghost function View(): State
      reads this
    {
      State(calls, pending, hands, false)
    }

    ghost predicate Valid()
      reads this
    {
      Inv(View())
    }

    constructor ()
      ensures Valid() && View() == EMPTY
    {
      calls, pending, hands := map[], map[], map[];
    }

    /** A buffered write; there is always room. */
    method Write(c: CallId, r: CommandResult)
      requires c in calls && calls[c].channel == []
      modifies this`calls
      ensures View() == Put(old(View()), c, r)
    {
      var call := calls[c];
      calls := calls[c := call.(channel := call.channel + [r], sends := call.sends + 1)];
    }

    /** SendCommand arms its timer before the call is known to anyone else. */
    method Arm(c: CallId, id: string)
      requires Valid() && c !in calls
      modifies this
      ensures Valid() && View() == Step(old(View()), Begin(c, id))
    {
      InvStep(View(), Begin(c, id));
      calls := calls[c := Call(id, Armed, [], 0, false, false)];
    }

    method InsertPending(c: CallId)
      requires Valid() && InPhase(View(), c, Armed)
      modifies this
      ensures Valid() && View() == Step(old(View()), Insert(c))
    {
      InvStep(View(), Insert(c));
      pending := pending[calls[c].id := c];
      calls := calls[c := calls[c].(phase := Sending)];
    }

    /** The message is handed to the agent's connection, or not. */
    method Send(c: CallId, sent: bool)
      requires Valid() && InPhase(View(), c, Sending)
      modifies this
      ensures Valid() && View() == Step(old(View()), HandOver(c, sent))
    {
      InvStep(View(), HandOver(c, sent));
      calls := calls[c := calls[c].(phase := if sent then Waiting else Unsending)];
    }

    /** After a failed send. */
    method RemovePending(c: CallId)
      requires Valid() && InPhase(View(), c, Unsending)
      modifies this
      ensures Valid() && View() == Step(old(View()), Withdraw(c))
    {
      InvStep(View(), Withdraw(c));
      pending := pending - {calls[c].id};
      calls := calls[c := calls[c].(phase := Failed)];
    }

    /** The end of SendCommand, once its channel has a value. */
    method Await(c: CallId) returns (result: CommandResult)
      requires Valid() && InPhase(View(), c, Waiting) && calls[c].channel != []
      modifies this
      ensures Valid() && View() == Step(old(View()), Receive(c))
      ensures result.commandID == old(calls[c].id)
    {
      InvStep(View(), Receive(c));
      assert CallOk(calls[c]);
      result := calls[c].channel[0];
      calls := calls[c := calls[c].(phase := Returned(result), channel := calls[c].channel[1..])];
    }

    method OnTimer(c: CallId)
      requires Valid() && c in calls && !calls[c].timerFired
      modifies this
      ensures Valid() && View() == Step(old(View()), TimerFires(c))
    {
      InvStep(View(), TimerFires(c));
      var id := calls[c].id;
      calls := calls[c := calls[c].(timerFired := true, early := calls[c].phase == Armed)];
      if id in pending {
        var p := pending[id];
        assert Open(old(View()), p, id) && CallOk(old(View()).calls[p]);
        pending := pending - {id};
        Write(p, TimedOut(id));
      }
    }

    /** HandleResult's locked part: reports whether a call was waiting for this result. */
    method TakePending(h: HandlerId, result: CommandResult) returns (found: bool)
      requires Valid() && h !in hands
      modifies this
      ensures Valid() && View() == Step(old(View()), Take(h, result))
      ensures found <==> result.commandID in old(pending)
    {
      InvStep(View(), Take(h, result));
      found := result.commandID in pending;
      if found {
        hands := hands[h := Hand(pending[result.commandID], result)];
        pending := pending - {result.commandID};
      }
    }

    /** HandleResult's write to the channel. */
    method DeliverResult(h: HandlerId)
      requires Valid() && h in hands
      modifies this
      ensures Valid() && View() == Step(old(View()), Deliver(h))
    {
      InvStep(View(), Deliver(h));
      var hand := hands[h];
      assert Open(View(), hand.call, hand.result.commandID) && CallOk(calls[hand.call]);
      hands := hands - {h};
      Write(hand.call, hand.result);
    }
  }
}
