/** What holds over every run of the whole facade. */
module FacadeTheorems {
  import opened Wrappers
  import opened CallModel
  import opened CallShape
  import opened EventModel
  import opened FacadeRuns
  import CallRuns
  import StatusText

  // ---- runs ------------------------------------------------------------------------

  function Front(tr: seq<Step>): seq<Step>
    requires tr != []
  {
    tr[..|tr| - 1]
  }

  function Last(tr: seq<Step>): Step
    requires tr != []
  {
    tr[|tr| - 1]
  }

  predicate Legal(tr: seq<Step>)
    decreases |tr|, 0
  {
    tr == [] || (Legal(Front(tr)) && Enabled(Exec(Front(tr)), Last(tr)))
  }

  function Exec(tr: seq<Step>): (f: Facade)
    requires Legal(tr)
    ensures Linked(f.calls)
    decreases |tr|, 1
  {
    if tr == [] then INITIAL else After(Exec(Front(tr)), Last(tr))
  }

  lemma Extend(tr: seq<Step>, step: Step)
    requires Legal(tr) && Enabled(Exec(tr), step)
    ensures Legal(tr + [step]) && Exec(tr + [step]) == After(Exec(tr), step)
  {
    assert Front(tr + [step]) == tr;
  }

  // ---- the invariant ---------------------------------------------------------------

  predicate Queued(l: Loop) {
    var h := History(l);
    && Numbered(h) && Payloads(h) == l.made
    && RegisteredFirst(h)
    && (!l.shutting ==> LastReg(h) == l.reg)
  }

  predicate Stops(f: Facade) {
    && f.calls.quiet == f.loop.shutting
    && (f.loop.shutting <==> f.app == Stopping || f.app == Stopped)
    && (Shutdown in History(f.loop) <==> f.app == Stopped)
    && ShutdownLast(History(f.loop))
    && (f.loop.cancelled <==> Shutdown in f.loop.delivered)
  }

  ghost predicate Inv(f: Facade) {
    && CallRuns.Inv(f.calls)
    && CallNotes(History(f.loop)) == f.calls.notes
    && Queued(f.loop)
    && Stops(f)
    && (f.app == InMake ==> WasRegistered(History(f.loop)))
  }

  lemma StartInv()
    ensures Inv(INITIAL)
  {
    CallRuns.StartInv();
    assert History(READY) == [];
  }

  // ---- pushes and deliveries ---------------------------------------------------------

  lemma PushHistory(l: Loop, msg: Msg)
    ensures History(Push(l, msg)) == History(l) + [Payload(l.made, msg)]
  {
  }

  lemma RecordStays(h: seq<Item>, item: Item)
    requires WasRegistered(h)
    ensures WasRegistered(h + [item])
  {
    var k :| 0 <= k < |h| && h[k].Payload? && h[k].msg.RegMsg? && h[k].msg.state == Registered;
    assert (h + [item])[k] == h[k];
  }

  lemma {:induction false} RegisteredIsOnRecord(h: seq<Item>)
    requires LastReg(h) == Registered
    ensures WasRegistered(h)
  {
    var item := h[|h| - 1];
    var front := h[..|h| - 1];
    assert h == front + [item];
    if item.Payload? && item.msg.RegMsg? {
      assert h[|h| - 1].msg.state == Registered;
    } else {
      RegisteredIsOnRecord(front);
      RecordStays(front, item);
    }
  }

  /** Pushing one call note. */
  lemma NotifyOneKeeps(m: Loop, n: Note)
    requires Queued(m) && (n.state == Outgoing ==> WasRegistered(History(m)))
    ensures var r := Push(m, CallMsg(n));
            && Queued(r) && CallNotes(History(r)) == CallNotes(History(m)) + [n]
            && (WasRegistered(History(m)) ==> WasRegistered(History(r)))
            && (Shutdown in History(r) <==> Shutdown in History(m))
  {
    PushHistory(m, CallMsg(n));
    Snoc(History(m), Payload(m.made, CallMsg(n)));
    if WasRegistered(History(m)) { RecordStays(History(m), Payload(m.made, CallMsg(n))); }
  }

  /** Pushing call notes: same registration story, the notes appended, numbering kept. */
  lemma {:induction false} NotifyAllKeeps(l: Loop, notes: seq<Note>)
    requires Queued(l)
    requires forall k | 0 <= k < |notes| && notes[k].state == Outgoing :: WasRegistered(History(l))
    ensures var r := NotifyAll(l, notes);
            && Queued(r)
            && CallNotes(History(r)) == CallNotes(History(l)) + notes
            && r == l.(queue := r.queue, made := r.made)
            && (WasRegistered(History(l)) ==> WasRegistered(History(r)))
            && (Shutdown in History(r) <==> Shutdown in History(l))
    decreases |notes|
  {
    if notes != [] {
      var front := notes[..|notes| - 1];
      var n := notes[|notes| - 1];
      NotifyAllKeeps(l, front);
      NotifyOneKeeps(NotifyAll(l, front), n);
      assert notes == front + [n];
    }
  }

  /** Notes only ever grow, are suppressed while quiet, and say OUTGOING only in omnix_call_make. */
  lemma NotesGrow(s: Calls, step: CallRuns.Step)
    requires CallRuns.Inv(s) && CallRuns.Enabled(s, step)
    ensures var r := CallRuns.After(s, step);
            && r.notes == s.notes + NewNotes(s, r)
            && (s.quiet ==> NewNotes(s, r) == [])
            && r.quiet == (s.quiet || step.ShuttingDown?)
            && (!step.NewOutgoing? ==> forall k | 0 <= k < |NewNotes(s, r)| :: NewNotes(s, r)[k].state != Outgoing)
  {
    match step
    case AppHangUp(id, outcome) => HangUpGrows(s, id, outcome);
    case AppReject(id, outcome) =>
      match CallModel.FindById(s.slots, id) {
        case None =>
        case Some(i) => CallRuns.RejectEnds(s, id, outcome, i);
      }
    case _ =>
  }

  lemma HangUpGrows(s: Calls, id: string, outcome: HangupOutcome)
    requires CallRuns.Inv(s)
    ensures var r := HangUp(s, id, outcome).0;
            && r.notes == s.notes + NewNotes(s, r)
            && (s.quiet ==> NewNotes(s, r) == [])
            && r.quiet == s.quiet
            && forall k | 0 <= k < |NewNotes(s, r)| :: NewNotes(s, r)[k].state != Outgoing
  {
    match CallModel.FindById(s.slots, id)
    case None =>
    case Some(i) => CallRuns.HangUpEnds(s, id, outcome, i);
  }

  // ---- every step keeps the invariant ----------------------------------------------------

  lemma CallStepInv(f: Facade, cs: CallRuns.Step)
    requires Inv(f) && Enabled(f, CallStep(cs))
    ensures Inv(AfterCall(f, cs))
  {
    CallRuns.StepInv(f.calls, cs);
    NotesGrow(f.calls, cs);
    var calls := CallRuns.After(f.calls, cs);
    var notes := NewNotes(f.calls, calls);
    NotifyAllKeeps(f.loop, notes);
    var loop := NotifyAll(f.loop, notes);
    var r := AfterCall(f, cs);
    assert History(r.loop) == History(loop);
    if f.app == Stopped {
      assert notes == [];
    }
    if Shutdown !in History(f.loop) {
      assert ShutdownLast(History(r.loop));
    }
  }

  /** A registration step that pushes at most one registration message. */
  lemma RegMsgInv(f: Facade, loop: Loop, app: App)
    requires Inv(f) && !f.loop.shutting
    requires app != Stopping && app != Stopped && (app == InMake ==> f.app == InMake)
    requires exists msg :: loop == Push(f.loop.(reg := loop.reg, pending := loop.pending, applied := loop.applied), msg)
                           && msg.RegMsg? && msg.state == loop.reg
    ensures Inv(f.(loop := loop, app := app))
  {
    var msg :| loop == Push(f.loop.(reg := loop.reg, pending := loop.pending, applied := loop.applied), msg)
               && msg.RegMsg? && msg.state == loop.reg;
    var item := Payload(f.loop.made, msg);
    assert History(loop) == History(f.loop) + [item];
    Snoc(History(f.loop), item);
    if WasRegistered(History(f.loop)) { RecordStays(History(f.loop), item); }
  }

  lemma ApplyInv(f: Facade, state: RegState, sipCode: nat, reason: string)
    requires Inv(f)
    ensures Inv(f.(loop := Apply(f.loop, state, sipCode, reason)))
  {
    var loop := Apply(f.loop, state, sipCode, reason);
    if f.loop.shutting {
      assert History(loop) == History(f.loop);
    } else {
      assert loop == Push(f.loop.(reg := loop.reg, pending := loop.pending, applied := loop.applied),
                          RegText(state, sipCode, reason));
      RegMsgInv(f, loop, f.app);
    }
  }

  lemma StackEventInv(f: Facade, from: Option<nat>, ev: RegEvent, txt: string)
    requires Inv(f)
    ensures Inv(f.(loop := OnRegEvent(f.loop, from, ev, txt)))
  {
    if !(f.loop.ua.Some? && from.Some? && from != f.loop.ua) {
      var (sipCode, reason) := StatusText.Parse(txt);
      match ev
      case EvRegistering => ApplyInv(f, Registering, 0, "");
      case EvRegisterOk =>
        ApplyInv(f, if f.loop.pending then Unregistered else Registered, sipCode, OrElse(reason, "OK"));
      case EvRegisterFail => ApplyInv(f, RegFailed, sipCode, OrElse(reason, "register failed"));
      case EvUnregistering =>
        PendingIsFree(f, true);
        ApplyInv(f.(loop := f.loop.(pending := true)), Unregistered, 0, "");
    }
  }

  /** The flag itself is in no part of the invariant. */
  lemma PendingIsFree(f: Facade, pending: bool)
    requires Inv(f)
    ensures Inv(f.(loop := f.loop.(pending := pending)))
  {
    assert History(f.loop.(pending := pending)) == History(f.loop);
  }

  lemma DeliverInv(f: Facade)
    requires Inv(f) && Enabled(f, HostHears)
    ensures Inv(After(f, HostHears))
    ensures History(After(f, HostHears).loop) == History(f.loop)
    ensures After(f, HostHears).loop.cancelled ==> After(f, HostHears).loop.queue == []
  {
    var l, r := f.loop, Deliver(f.loop);
    DeliverKeepsHistory(l);
    assert History(l)[|l.delivered|] == l.queue[0];
  }

  lemma StopInv(f: Facade)
    requires Inv(f) && Enabled(f, StopIsRequested)
    ensures Inv(After(f, StopIsRequested))
  {
    var r := RequestStop(f.loop);
    assert History(r) == History(f.loop) + [Shutdown];
    Snoc(History(f.loop), Shutdown);
  }

  lemma StepInv(f: Facade, step: Step)
    requires Inv(f) && Enabled(f, step)
    ensures Inv(After(f, step))
  {
    match step
    case CallStep(cs) => CallStepInv(f, cs);
    case RegisterBegins => RegMsgInv(f, NotifyRegistering(f.loop), InRegister);
    case RegisterEnds(refused) =>
      if refused { RegMsgInv(f, NotifyRejected(f.loop), AtRest); }
    case UnregisterBegins => PendingIsFree(f, true);
    case UnregisterEnds =>
    case MakeChecks => RegisteredIsOnRecord(History(f.loop));
    case MakeFails =>
    case StackEvent(from, ev, txt) => StackEventInv(f, from, ev, txt);
    case StopIsRequested => StopInv(f);
    case HostHears => DeliverInv(f);
  }

  lemma {:induction false} RunInv(tr: seq<Step>)
    requires Legal(tr)
    ensures Inv(Exec(tr))
    decreases |tr|
  {
    if tr == [] {
      StartInv();
    } else {
      RunInv(Front(tr));
      StepInv(Exec(Front(tr)), Last(tr));
    }
  }

  // ---- the queue loses nothing ---------------------------------------------------------

  function Ids(h: seq<Item>): seq<nat> {
    if h == [] then []
    else
      var before := Ids(h[..|h| - 1]);
      if h[|h| - 1].Payload? then before + [h[|h| - 1].id] else before
  }

  lemma {:induction false} IdsCount(h: seq<Item>)
    requires Numbered(h)
    ensures Ids(h) == seq(Payloads(h), k => k)
    decreases |h|
  {
    if h != [] { IdsCount(h[..|h| - 1]); }
  }

  lemma {:induction false} PrefixNumbered(h: seq<Item>, n: nat)
    requires n <= |h| && Numbered(h) && RegisteredFirst(h)
    ensures Numbered(h[..n]) && RegisteredFirst(h[..n])
    decreases |h|
  {
    if n == |h| {
      assert h[..n] == h;
    } else {
      PrefixNumbered(h[..|h| - 1], n);
      assert h[..|h| - 1][..n] == h[..n];
    }
  }

  /**
   * Conservation. The payloads handled so far are numbers 0, 1, 2, ... in that order, so
   * each was delivered and freed exactly once and in push order; and when the loop is
   * cancelled the queue is empty and all payloads ever allocated have been handled.
   */
  lemma QueueIsConserved(tr: seq<Step>)
    requires Legal(tr)
    ensures var l := Exec(tr).loop;
            && Ids(l.delivered) == seq(Payloads(l.delivered), k => k)
            && Ids(History(l)) == seq(l.made, k => k)
            && (l.cancelled ==> l.queue == [] && Payloads(l.delivered) == l.made)
  {
    RunInv(tr);
    var l := Exec(tr).loop;
    var h := History(l);
    PrefixNumbered(h, |l.delivered|);
    assert h[..|l.delivered|] == l.delivered;
    IdsCount(l.delivered);
    IdsCount(h);
    if l.cancelled {
      var k :| 0 <= k < |l.delivered| && l.delivered[k] == Shutdown;
      assert h[k] == Shutdown;
      assert h == l.delivered;
    }
  }

  /** Once shutting_down is set the only thing ever pushed is the SHUTDOWN message. */
  lemma ShutdownIsQuiet(tr: seq<Step>, step: Step)
    requires Legal(tr) && Enabled(Exec(tr), step) && Exec(tr).loop.shutting
    ensures var before := History(Exec(tr).loop); var after := History(After(Exec(tr), step).loop);
            && (after == before || after == before + [Shutdown])
            && (Shutdown in before ==> after == before)
  {
    RunInv(tr);
    var f := Exec(tr);
    match step
    case CallStep(cs) => NotesGrow(f.calls, cs);
    case HostHears => DeliverInv(f);
    case _ =>
  }

  // ---- the host's view --------------------------------------------------------------------

  /**
   * View agreement. Until shutdown the engine's registration state is the one in the
   * last registration message; so a host that has drained the queue holds it.
   */
  lemma HostViewAgrees(tr: seq<Step>)
    requires Legal(tr) && !Exec(tr).loop.shutting
    ensures var l := Exec(tr).loop;
            && LastReg(History(l)) == l.reg
            && (l.queue == [] ==> LastReg(l.delivered) == l.reg)
  {
    RunInv(tr);
    var l := Exec(tr).loop;
    if l.queue == [] { assert History(l) == l.delivered; }
  }

  lemma {:induction false} NotesOfPrefix(h: seq<Item>, n: nat)
    requires n <= |h|
    ensures CallNotes(h[..n]) <= CallNotes(h)
    decreases |h|
  {
    if n == |h| {
      assert h[..n] == h;
    } else {
      NotesOfPrefix(h[..|h| - 1], n);
      assert h[..|h| - 1][..n] == h[..n];
    }
  }

  /** What the host has heard about any call so far keeps the order, at every moment of every run. */
  lemma HostHearsInOrder(tr: seq<Step>, c: Call)
    requires Legal(tr)
    ensures Ordered(Heard(CallNotes(Exec(tr).loop.delivered), c))
  {
    RunInv(tr);
    var l := Exec(tr).loop;
    var h := History(l);
    assert h[..|l.delivered|] == l.delivered;
    NotesOfPrefix(h, |l.delivered|);
    var notes := Exec(tr).calls.notes;
    var n := |CallNotes(l.delivered)|;
    assert notes[..n] == CallNotes(l.delivered);
    PrefixIsShaped(notes, n, c);
    ShapeIsGrammar(notes[..n], c);
  }

  /** The host hears REGISTERED before it hears OUTGOING for any call. */
  lemma RegisteredBeforeOutgoing(tr: seq<Step>)
    requires Legal(tr)
    ensures RegisteredFirst(Exec(tr).loop.delivered)
  {
    RunInv(tr);
    var l := Exec(tr).loop;
    PrefixNumbered(History(l), |l.delivered|);
    assert History(l)[..|l.delivered|] == l.delivered;
  }

  // ---- unregister_pending ----------------------------------------------------------------------

  /** How many registration states had been applied after each number of steps of the run. */
  function Counts(tr: seq<Step>): (r: seq<nat>)
    requires Legal(tr)
    ensures |r| == |tr| + 1 && r[|tr|] == Exec(tr).loop.applied
    decreases |tr|
  {
    (if tr == [] then [] else Counts(Front(tr))) + [Exec(tr).loop.applied]
  }

  /** Step `k` is omnix_unregister, and no registration state was applied after it. */
  predicate Stands(tr: seq<Step>, counts: seq<nat>, k: nat) {
    k < |tr| && |counts| == |tr| + 1 && tr[k] == UnregisterBegins && counts[k + 1] == counts[|tr|]
  }

  predicate SomeStands(tr: seq<Step>, counts: seq<nat>) {
    exists k | 0 <= k < |tr| :: Stands(tr, counts, k)
  }

  predicate Outstanding(tr: seq<Step>)
    requires Legal(tr)
  {
    SomeStands(tr, Counts(tr))
  }

  /** A step applies a registration state and clears the flag, or leaves it, or is omnix_unregister. */
  predicate PendingMoves(f: Loop, r: Loop, step: Step) {
    || (r.applied == f.applied + 1 && !r.pending)
    || (r.applied == f.applied && step != UnregisterBegins && r.pending == f.pending)
    || (r.applied == f.applied && step == UnregisterBegins && r.pending)
  }

  lemma CallStepPending(f: Facade, cs: CallRuns.Step)
    requires Inv(f) && Enabled(f, CallStep(cs))
    ensures PendingMoves(f.loop, After(f, CallStep(cs)).loop, CallStep(cs))
  {
    NotesGrow(f.calls, cs);
    NotifyAllKeeps(f.loop, NewNotes(f.calls, CallRuns.After(f.calls, cs)));
  }

  lemma RegEventPending(l: Loop, from: Option<nat>, ev: RegEvent, txt: string)
    ensures PendingMoves(l, OnRegEvent(l, from, ev, txt), StackEvent(from, ev, txt))
  {
  }

  lemma LoopStepPending(f: Facade, step: Step)
    requires Linked(f.calls) && Enabled(f, step) && !step.CallStep?
    ensures PendingMoves(f.loop, After(f, step).loop, step)
  {
    match step
    case StackEvent(from, ev, txt) => RegEventPending(f.loop, from, ev, txt);
    case _ =>
  }

  lemma StepPending(f: Facade, step: Step)
    requires Inv(f) && Enabled(f, step)
    ensures PendingMoves(f.loop, After(f, step).loop, step)
  {
    if step.CallStep? {
      CallStepPending(f, step.step);
    } else {
      LoopStepPending(f, step);
    }
  }

  lemma LastStepPending(tr: seq<Step>)
    requires Legal(tr) && tr != []
    ensures PendingMoves(Exec(Front(tr)).loop, Exec(tr).loop, Last(tr))
  {
    RunInv(Front(tr));
    StepPending(Exec(Front(tr)), Last(tr));
  }

  predicate Rising(counts: seq<nat>) {
    forall i, j | 0 <= i <= j < |counts| :: counts[i] <= counts[j]
  }

  lemma {:induction false} CountsRise(tr: seq<Step>)
    requires Legal(tr)
    ensures Rising(Counts(tr))
    decreases |tr|
  {
    if tr != [] {
      CountsRise(Front(tr));
      LastStepPending(tr);
      RisingSnoc(Counts(Front(tr)), Exec(tr).loop.applied);
    }
  }

  lemma RisingSnoc(counts: seq<nat>, last: nat)
    requires Rising(counts) && counts != [] && counts[|counts| - 1] <= last
    ensures Rising(counts + [last])
  {
  }

  /** An earlier step stands if it stood before the last one and that applied nothing. */
  lemma EarlierStands(front: seq<Step>, step: Step, counts: seq<nat>, last: nat, k: nat)
    requires |counts| == |front| + 1 && Rising(counts + [last]) && k < |front|
    ensures Stands(front + [step], counts + [last], k) <==>
            Stands(front, counts, k) && last == counts[|front|]
  {
    var all := counts + [last];
    assert all[k + 1] <= all[|front|] <= all[|front| + 1];
  }

  lemma CountsSnoc(tr: seq<Step>)
    requires Legal(tr) && tr != []
    ensures Counts(tr) == Counts(Front(tr)) + [Exec(tr).loop.applied]
  {
  }

  lemma OutstandingSplit(tr: seq<Step>)
    requires Legal(tr) && tr != []
    ensures var counts := Counts(Front(tr)) + [Exec(tr).loop.applied];
            Rising(counts) && (Outstanding(tr) <==> SomeStands(Front(tr) + [Last(tr)], counts))
  {
    CountsRise(tr);
    CountsSnoc(tr);
    StepsSnoc(tr);
  }

  lemma StepsSnoc(tr: seq<Step>)
    requires tr != []
    ensures tr == Front(tr) + [Last(tr)]
  {
  }

  /** What the last step does to the history. */
  lemma OutstandingLast(tr: seq<Step>)
    requires Legal(tr) && tr != []
    ensures Outstanding(tr) <==>
            Last(tr) == UnregisterBegins
            || (Outstanding(Front(tr)) && Exec(tr).loop.applied == Exec(Front(tr)).loop.applied)
  {
    OutstandingSplit(tr);
    OutstandingSnoc(Front(tr), Last(tr), Counts(Front(tr)), Exec(tr).loop.applied);
  }

  /**
   * unregister_pending encodes the history in one bit: it is set exactly when
   * omnix_unregister was called and no registration state has been applied since.
   */
  lemma {:induction false} PendingIsHistory(tr: seq<Step>)
    requires Legal(tr)
    ensures Exec(tr).loop.pending <==> Outstanding(tr)
    decreases |tr|
  {
    if tr != [] {
      PendingIsHistory(Front(tr));
      LastStepPending(tr);
      OutstandingLast(tr);
    }
  }

  lemma OutstandingSnoc(front: seq<Step>, step: Step, counts: seq<nat>, last: nat)
    requires |counts| == |front| + 1 && Rising(counts + [last])
    ensures SomeStands(front + [step], counts + [last]) <==>
            step == UnregisterBegins || (last == counts[|front|] && SomeStands(front, counts))
  {
    forall k: nat | k < |front|
      ensures Stands(front + [step], counts + [last], k) <==> Stands(front, counts, k) && last == counts[|front|]
    {
      EarlierStands(front, step, counts, last, k);
    }
    if step == UnregisterBegins { assert Stands(front + [step], counts + [last], |front|); }
  }

  lemma OkMeans(f: Facade, from: Option<nat>, txt: string)
    requires Linked(f.calls) && !(f.loop.ua.Some? && from.Some? && from != f.loop.ua)
    ensures After(f, StackEvent(from, EvRegisterOk, txt)).loop.reg ==
            if f.loop.pending then Unregistered else Registered
  {
  }

  /** So REGISTER_OK is reported as UNREGISTERED exactly in that history, and as REGISTERED otherwise. */
  lemma RegisterOkMeans(tr: seq<Step>, from: Option<nat>, txt: string)
    requires Legal(tr) && !(Exec(tr).loop.ua.Some? && from.Some? && from != Exec(tr).loop.ua)
    ensures After(Exec(tr), StackEvent(from, EvRegisterOk, txt)).loop.reg ==
            if Outstanding(tr) then Unregistered else Registered
  {
    PendingIsHistory(tr);
    OkMeans(Exec(tr), from, txt);
  }

  // ---- what does not hold -----------------------------------------------------------------------

  /**
   * The flag does not make unregistering stick. From any state at rest, when the stack
   * announces UNREGISTERING before the REGISTER_OK of the expires-zero request, the
   * announcement clears the flag and the engine ends up REGISTERED.
   */
  lemma UnregisterDoesNotStick(tr: seq<Step>, announced: string, ok: string)
    requires Legal(tr) && Exec(tr).app == AtRest && Exec(tr).loop.ua.Some?
    ensures var tr3 := tr + [UnregisterBegins] + [StackEvent(None, EvUnregistering, announced)]
                          + [StackEvent(None, EvRegisterOk, ok)];
            Legal(tr3) && Exec(tr3).loop.reg == Registered
  {
    Extend(tr, UnregisterBegins);
    var tr1 := tr + [UnregisterBegins];
    Extend(tr1, StackEvent(None, EvUnregistering, announced));
    var tr2 := tr1 + [StackEvent(None, EvUnregistering, announced)];
    assert !Exec(tr2).loop.pending;
    Extend(tr2, StackEvent(None, EvRegisterOk, ok));
  }

  // ---- the guard of omnix_call_make ------------------------------------------------------------

  /** The state after the first `k` steps of the run. */
  function ExecAt(tr: seq<Step>, k: nat): (f: Facade)
    requires Legal(tr) && k <= |tr|
    decreases |tr|
  {
    if k == |tr| then Exec(tr) else ExecAt(Front(tr), k)
  }

  lemma DeliverKeepsHistory(l: Loop)
    requires l.queue != [] && !l.cancelled
    ensures History(Deliver(l)) == History(l)
  {
    assert l.queue == [l.queue[0]] + l.queue[1..];
  }

  lemma CallStepHistory(f: Facade, cs: CallRuns.Step)
    requires Inv(f) && Enabled(f, CallStep(cs))
    ensures var r := After(f, CallStep(cs)).loop; History(f.loop) <= History(r) && r.reg == f.loop.reg
  {
    NotesGrow(f.calls, cs);
    NotifyAllGrows(f.loop, NewNotes(f.calls, CallRuns.After(f.calls, cs)));
  }

  lemma {:induction false} NotifyAllGrows(l: Loop, notes: seq<Note>)
    ensures var r := NotifyAll(l, notes);
            r.delivered == l.delivered && l.queue <= r.queue && r.reg == l.reg
    decreases |notes|
  {
    if notes != [] { NotifyAllGrows(l, notes[..|notes| - 1]); }
  }

  lemma QueueGrows(f: Facade, step: Step)
    requires Linked(f.calls) && Enabled(f, step) && !step.CallStep? && !step.HostHears?
    ensures var r := After(f, step).loop; r.delivered == f.loop.delivered && f.loop.queue <= r.queue
  {
  }

  lemma StepHistory(f: Facade, step: Step)
    requires Inv(f) && Enabled(f, step)
    ensures History(f.loop) <= History(After(f, step).loop)
  {
    match step
    case CallStep(cs) => CallStepHistory(f, cs);
    case HostHears => DeliverKeepsHistory(f.loop);
    case _ =>
      QueueGrows(f, step);
      var r := After(f, step).loop;
      assert History(r)[..|History(f.loop)|] == History(f.loop);
  }

  /** Nothing that was ever pushed leaves the history. */
  lemma {:induction false} HistoryGrows(tr: seq<Step>, k: nat)
    requires Legal(tr) && k <= |tr|
    ensures History(ExecAt(tr, k).loop) <= History(Exec(tr).loop)
    decreases |tr|
  {
    if k < |tr| {
      HistoryGrows(Front(tr), k);
      RunInv(Front(tr));
      StepHistory(Exec(Front(tr)), Last(tr));
    }
  }

  /** The state in the last registration message among `items`, if there is one. */
  function LastRegIn(items: seq<Item>): Option<RegState> {
    if items == [] then None
    else
      match items[|items| - 1]
      case Payload(_, RegMsg(state, _, _)) => Some(state)
      case _ => LastRegIn(items[..|items| - 1])
  }

  lemma {:induction false} LastRegOver(h: seq<Item>, items: seq<Item>)
    ensures LastReg(h + items) == if LastRegIn(items).Some? then LastRegIn(items).value else LastReg(h)
    decreases |items|
  {
    if items == [] {
      assert h + items == h;
    } else {
      LastRegOver(h, items[..|items| - 1]);
      assert (h + items)[..|h + items| - 1] == h + items[..|items| - 1];
    }
  }

  lemma StateAt(tr: seq<Step>, k: nat)
    requires Legal(tr) && k < |tr|
    ensures Inv(ExecAt(tr, k)) && Enabled(ExecAt(tr, k), tr[k])
    decreases |tr|
  {
    if k == |tr| - 1 { RunInv(Front(tr)); } else { StateAt(Front(tr), k); }
  }

  /**
   * What omnix_call_make would have to check under its lock, as a history: with its check
   * as step `k`, the engine is still REGISTERED exactly when no registration message was
   * pushed since, or the last one says so.
   */
  lemma StillRegistered(tr: seq<Step>, k: nat)
    requires Legal(tr) && k < |tr| && tr[k] == MakeChecks && !Exec(tr).loop.shutting
    ensures var h, h0 := History(Exec(tr).loop), History(ExecAt(tr, k).loop);
            && h0 <= h
            && var since := LastRegIn(h[|h0|..]);
               Exec(tr).loop.reg == Registered <==> since.None? || since.value == Registered
  {
    HistoryGrows(tr, k);
    StateAt(tr, k);
    HostViewAgrees(tr);
    var h, h0 := History(Exec(tr).loop), History(ExecAt(tr, k).loop);
    assert h == h0 + h[|h0|..];
    LastRegOver(h0, h[|h0|..]);
  }

  /** A make that is under way has passed its check, and nothing has ended it since. */
  lemma {:induction false} MakeWasChecked(tr: seq<Step>) returns (k: nat)
    requires Legal(tr) && Exec(tr).app == InMake
    ensures k < |tr| && tr[k] == MakeChecks
    ensures forall j | k < j <= |tr| :: ExecAt(tr, j).app == InMake
    decreases |tr|
  {
    if Last(tr) == MakeChecks {
      k := |tr| - 1;
    } else {
      AppStays(Exec(Front(tr)), Last(tr));
      k := MakeWasChecked(Front(tr));
    }
  }

  lemma AppStays(f: Facade, step: Step)
    requires Linked(f.calls) && Enabled(f, step) && After(f, step).app == InMake
    ensures step == MakeChecks || f.app == InMake
  {
  }

  /**
   * When omnix_call_make queues OUTGOING the last registration message says REGISTERED
   * exactly if the engine is registered then, which the code does not check again.
   */
  lemma OutgoingFollowsRegistered(tr: seq<Step>, c: Call, b: StackCall, err: Errno, busy: HangupOutcome)
    requires Legal(tr) && Enabled(Exec(tr), CallStep(CallRuns.NewOutgoing(c, b, err, busy)))
    ensures var after := After(Exec(tr), CallStep(CallRuns.NewOutgoing(c, b, err, busy)));
            LastReg(History(after.loop)) == Registered <==> Exec(tr).loop.reg == Registered
  {
    var step := CallStep(CallRuns.NewOutgoing(c, b, err, busy));
    RunInv(tr);
    StepInv(Exec(tr), step);
    CallStepHistory(Exec(tr), step.step);
  }

  lemma FailsInMake(tr: seq<Step>, text: string)
    requires Legal(tr) && Exec(tr).app == InMake
    ensures var tr1 := tr + [StackEvent(None, EvRegisterFail, text)];
            && Legal(tr1) && Exec(tr1).calls == Exec(tr).calls
            && Exec(tr1).app == InMake && Exec(tr1).loop.reg == RegFailed
  {
    Extend(tr, StackEvent(None, EvRegisterFail, text));
  }

  /**
   * So it need not say so: for every run that has just passed the check, registration can
   * fail before OUTGOING is queued.
   */
  lemma MakeCanRaceFailure(tr: seq<Step>, text: string, c: Call, b: StackCall, err: Errno, busy: HangupOutcome)
    requires Legal(tr) && Exec(tr).app == InMake
    requires CallRuns.IsNew(Exec(tr).calls, c, b) && b.id != ""
    requires CallModel.FindById(Exec(tr).calls.slots, b.id) == None && FindByPtr(Exec(tr).calls.slots, None).Some?
    ensures var tr2 := tr + [StackEvent(None, EvRegisterFail, text)]
                          + [CallStep(CallRuns.NewOutgoing(c, b, err, busy))];
            && Legal(tr2)
            && |Exec(tr2).calls.notes| == |Exec(tr).calls.notes| + 1
            && Exec(tr2).calls.notes[|Exec(tr).calls.notes|].state == Outgoing
            && LastReg(History(Exec(tr2).loop)) == RegFailed
  {
    var tr1 := tr + [StackEvent(None, EvRegisterFail, text)];
    var cs := CallRuns.NewOutgoing(c, b, err, busy);
    FailsInMake(tr, text);
    RunInv(tr1);
    Extend(tr1, CallStep(cs));
    StepInv(Exec(tr1), CallStep(cs));
    CallStepHistory(Exec(tr1), cs);
    MakeSaysOutgoing(Exec(tr1).calls, c, b, err, busy);
  }

  lemma MakeSaysOutgoing(s: Calls, c: Call, b: StackCall, err: Errno, busy: HangupOutcome)
    requires CallRuns.Inv(s) && CallRuns.IsNew(s, c, b) && b.id != "" && !s.quiet
    requires CallModel.FindById(s.slots, b.id) == None && FindByPtr(s.slots, None).Some?
    ensures var r := CallRuns.After(s, CallRuns.NewOutgoing(c, b, err, busy));
            |r.notes| == |s.notes| + 1 && r.notes[|s.notes|].state == Outgoing
  {
    CallRuns.Unslotted(s, c);
  }
}
