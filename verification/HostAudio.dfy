/**
 * The C facade and the Android audio session together: what the host hears through the
 * queue, given to the Kotlin facade, keeps the audio session up while there is a call.
 */
module HostAudio {
  import opened Wrappers
  import opened CallModel
  import opened CallRuns
  import opened RegistryMap
  import A = AudioModel
  import AudioTheorems
  import F = FacadeRuns
  import FacadeTheorems

  // ---- what the notes say of an identifier ---------------------------------------------

  /** The state in the last note with this identifier. */
  function LastState(notes: seq<Note>, id: string): Option<CallState> {
    if notes == [] then None
    else
      var last := notes[|notes| - 1];
      if last.info.callId == id then Some(last.state) else LastState(notes[..|notes| - 1], id)
  }

  predicate IsActive(st: CallState) {
    !(st.Idle? || st.Ended? || st.Failed?)
  }

  predicate Heard(notes: seq<Note>, id: string) {
    LastState(notes, id).Some? && IsActive(LastState(notes, id).value)
  }

  /** The identifiers last heard of as active are those in the registry. */
  ghost predicate Tracks(notes: seq<Note>, m: Registry) {
    forall id :: Heard(notes, id) <==> id in m
  }

  /** A note that says of its identifier what the registry then says. */
  lemma AddNote(notes: seq<Note>, m: Registry, n: Note, after: Registry)
    requires Tracks(notes, m)
    requires forall id :: id in after <==> if id == n.info.callId then IsActive(n.state) else id in m
    ensures Tracks(notes + [n], after)
  {
    assert (notes + [n])[..|notes|] == notes;
    forall id ensures Heard(notes + [n], id) <==> id in after {
      assert Heard(notes, id) <==> id in m;
    }
  }

  // ---- one step --------------------------------------------------------------------------

  /** The state of the registry in which the notes still tell all of it. */
  ghost predicate InStep(s: Calls) {
    !s.quiet && Apart(s.slots) && Tracks(s.notes, Abs(s.slots))
  }

  lemma StepApart(s: Calls, step: Step)
    requires Inv(s) && Enabled(s, step) && InStep(s) && !Collides(Abs(s.slots), step)
    ensures Apart(After(s, step).slots) && Abs(After(s, step).slots) == MapAfter(Abs(s.slots), step)
  {
    StepRefines(s, step);
  }

  lemma IncomingTold(s: Calls, step: Step)
    requires Inv(s) && Enabled(s, step) && InStep(s) && step.NewIncoming? && !Collides(Abs(s.slots), step)
    ensures InStep(After(s, step))
  {
    StepApart(s, step);
    NewcomerAlloc(s, step.c, step.b);
    var s1 := s.(stack := s.stack[step.c := step.b]);
    match Alloc(s1, step.c)
    case None =>
    case Some((i, slot)) =>
      var r := After(s, step);
      AddNote(s.notes, Abs(s.slots), r.notes[|s.notes|], Abs(r.slots));
      assert r.notes == s.notes + [r.notes[|s.notes|]];
  }

  lemma OutgoingTold(s: Calls, step: Step)
    requires Inv(s) && Enabled(s, step) && InStep(s) && step.NewOutgoing? && !Collides(Abs(s.slots), step)
    ensures InStep(After(s, step))
  {
    StepApart(s, step);
    NewcomerAlloc(s, step.c, step.b);
    var s1 := s.(stack := s.stack[step.c := step.b]);
    match Alloc(s1, step.c)
    case None =>
    case Some((i, slot)) =>
      var r := After(s, step);
      AddNote(s.notes, Abs(s.slots), r.notes[|s.notes|], Abs(r.slots));
      assert r.notes == s.notes + [r.notes[|s.notes|]];
  }

  /** The identifier in a slot is its call's, and in the registry. */
  lemma SlotIdentity(s: Calls, i: nat)
    requires Inv(s) && Apart(s.slots) && i < CAPACITY && s.slots[i].call.Some?
    ensures var slot := s.slots[i]; var c := slot.call.value;
            && Own(s, i, c) && Live(s, c) && s.stack[c].handler == OmnixHandler(i)
            && slot.callId in Abs(s.slots) && slot.callId == slot.info.callId == Key(s.stack[c].id)
  {
    OwnedBy(s, i, s.slots[i].call.value);
    assert SlotOk(s.slots[i], s.stack);
    AbsHas(s.slots);
  }

  lemma CloseTold(s: Calls, step: Step)
    requires Inv(s) && Enabled(s, step) && InStep(s) && step.RemoteClose?
    ensures InStep(After(s, step))
  {
    var c, h := step.c, s.stack[step.c].handler;
    StepApart(s, step);
    WithoutIs(s, c);
    assert CallOk(c, s.stack[c], s.slots, s.torn);
    if h.OmnixHandler? {
      var i := h.entry;
      SlotIdentity(s, i);
      RemoteCloseEnds(s, i, c, step.scode, step.textCode);
      var r := After(s, step);
      AddNote(s.notes, Abs(s.slots), r.notes[|s.notes|], Abs(r.slots));
      assert r.notes == s.notes + [r.notes[|s.notes|]];
    }
  }

  lemma RejectTold(s: Calls, step: Step)
    requires Inv(s) && Enabled(s, step) && InStep(s) && step.AppReject?
    ensures InStep(After(s, step))
  {
    StepApart(s, step);
    LookupIsMap(s.slots, step.id);
    match FindById(s.slots, step.id)
    case None => assert Abs(s.slots) - {step.id} == Abs(s.slots);
    case Some(i) =>
      SlotIdentity(s, i);
      RejectEnds(s, step.id, step.outcome, i);
      var r := After(s, step);
      AddNote(s.notes, Abs(s.slots), r.notes[|s.notes|], Abs(r.slots));
      assert r.notes == s.notes + [r.notes[|s.notes|]];
  }

  lemma HangUpTold(s: Calls, step: Step)
    requires Inv(s) && Enabled(s, step) && InStep(s) && step.AppHangUp?
    ensures InStep(After(s, step))
  {
    StepApart(s, step);
    LookupIsMap(s.slots, step.id);
    match FindById(s.slots, step.id)
    case None => assert Abs(s.slots) - {step.id} == Abs(s.slots);
    case Some(i) =>
      SlotIdentity(s, i);
      HangUpEnds(s, step.id, step.outcome, i);
      var r := After(s, step);
      var ending, end := r.notes[|s.notes|], r.notes[|s.notes| + 1];
      AddNote(s.notes, Abs(s.slots), ending, Abs(s.slots));
      AddNote(s.notes + [ending], Abs(s.slots), end, Abs(r.slots));
      assert r.notes == s.notes + [ending] + [end];
  }

  lemma HoldTold(s: Calls, step: Step)
    requires Inv(s) && Enabled(s, step) && InStep(s) && step.AppHold?
    ensures InStep(After(s, step))
  {
    StepApart(s, step);
    var r := After(s, step);
    match FindById(s.slots, step.id)
    case None =>
    case Some(i) =>
      SlotIdentity(s, i);
      if |r.notes| > |s.notes| {
        AddNote(s.notes, Abs(s.slots), r.notes[|s.notes|], Abs(r.slots));
        assert r.notes == s.notes + [r.notes[|s.notes|]];
      }
  }

  lemma StepTold(s: Calls, step: Step)
    requires Inv(s) && Enabled(s, step) && InStep(s) && !Collides(Abs(s.slots), step) && !After(s, step).quiet
    ensures InStep(After(s, step))
  {
    match step
    case NewIncoming(_, _, _) => IncomingTold(s, step);
    case NewOutgoing(_, _, _, _) => OutgoingTold(s, step);
    case RemoteClose(_, _, _) => CloseTold(s, step);
    case AppReject(_, _) => RejectTold(s, step);
    case AppHangUp(_, _) => HangUpTold(s, step);
    case AppHold(_, _, _, _) => HoldTold(s, step);
    case _ => StepApart(s, step);
  }

  // ---- runs of the facade ------------------------------------------------------------------

  /** No call of the run comes in under an identifier that collides. */
  predicate NoCollision(tr: seq<F.Step>)
    requires FacadeTheorems.Legal(tr)
    decreases |tr|
  {
    tr == [] ||
    (var front, last := FacadeTheorems.Front(tr), FacadeTheorems.Last(tr);
     NoCollision(front) &&
     (last.CallStep? ==> !Collides(Abs(FacadeTheorems.Exec(front).calls.slots), last.step)))
  }

  lemma {:induction false} RunTold(tr: seq<F.Step>)
    requires FacadeTheorems.Legal(tr) && NoCollision(tr) && !FacadeTheorems.Exec(tr).calls.quiet
    ensures InStep(FacadeTheorems.Exec(tr).calls)
    decreases |tr|
  {
    if tr == [] {
      AbsIs(BLANK, map[]);
    } else {
      var front, last := FacadeTheorems.Front(tr), FacadeTheorems.Last(tr);
      var f := FacadeTheorems.Exec(front);
      FacadeTheorems.RunInv(front);
      if last.CallStep? {
        FacadeTheorems.NotesGrow(f.calls, last.step);
        RunTold(front);
        StepTold(f.calls, last.step);
      } else {
        RunTold(front);
      }
    }
  }

  // ---- the host ------------------------------------------------------------------------------

  /** The state as the Kotlin facade names it. */
  function HostState(st: CallState): A.CallState {
    match st
    case Idle => A.Idle
    case Outgoing => A.Outgoing
    case Incoming => A.Incoming
    case Ringing => A.Ringing
    case EarlyMedia => A.EarlyMedia
    case Connected => A.Connected
    case Held => A.Held
    case Ending => A.Ending
    case Ended => A.Ended
    case Failed => A.Failed
  }

  /** The call events among what the host does and hears, in order. */
  function CallEvents(ev: seq<A.Event>): seq<(string, A.CallState)> {
    if ev == [] then []
    else
      var before := CallEvents(ev[..|ev| - 1]);
      var last := ev[|ev| - 1];
      if last.CallEvent? && last.id.Some? then before + [(last.id.value, last.state)] else before
  }

  /** The same events as the facade's notes carry them. */
  function Wire(notes: seq<Note>): seq<(string, A.CallState)> {
    if notes == [] then []
    else
      var last := notes[|notes| - 1];
      Wire(notes[..|notes| - 1]) + [(last.info.callId, HostState(last.state))]
  }

  lemma {:induction false} LatestIsLast(ev: seq<A.Event>, notes: seq<Note>, id: string)
    requires A.Shutdown !in ev && CallEvents(ev) == Wire(notes)
    ensures A.Latest(ev, id).Some? <==> LastState(notes, id).Some?
    ensures LastState(notes, id).Some? ==> A.Latest(ev, id).value == HostState(LastState(notes, id).value)
    decreases |ev|
  {
    if ev == [] {
      assert notes == [];
    } else {
      var before, last := ev[..|ev| - 1], ev[|ev| - 1];
      assert last in ev;
      if last.CallEvent? && last.id.Some? {
        var front := notes[..|notes| - 1];
        SameFront(CallEvents(before), (last.id.value, last.state),
                  Wire(front), (notes[|notes| - 1].info.callId, HostState(notes[|notes| - 1].state)));
        LatestIsLast(before, front, id);
      } else {
        LatestIsLast(before, notes, id);
      }
    }
  }

  lemma SameFront<T>(a: seq<T>, x: T, b: seq<T>, y: T)
    requires a + [x] == b + [y]
    ensures a == b && x == y
  {
    assert (a + [x])[..|a|] == a && (b + [y])[..|b|] == b;
    assert (a + [x])[|a|] == (b + [y])[|b|];
  }

  lemma BusyIsHeard(ev: seq<A.Event>, notes: seq<Note>)
    requires A.Shutdown !in ev && CallEvents(ev) == Wire(notes)
    ensures A.Busy(ev) <==> exists id :: Heard(notes, id)
  {
    forall id ensures A.Latest(ev, id).Some? && A.IsActive(A.Latest(ev, id).value) <==> Heard(notes, id) {
      LatestIsLast(ev, notes, id);
    }
  }

  lemma OccupiedIsMapped(slots: seq<Slot>)
    requires Apart(slots)
    ensures (exists id :: id in Abs(slots)) <==> exists i | 0 <= i < |slots| :: slots[i].call.Some?
  {
    AbsHas(slots);
    if id :| id in Abs(slots) {
      LookupIsMap(slots, id);
      assert HasId(slots[FindById(slots, id).value], id);
    }
    if i :| 0 <= i < |slots| && slots[i].call.Some? {
      assert slots[i].callId in Abs(slots);
    }
  }

  /**
   * End to end: in every run of the facade without an identifier collision, before a
   * shutdown, a host that has drained the queue and given every call event to the audio
   * session, with whatever else the application did in between, has the session up exactly
   * while a slot of the registry holds a call.
   */
  lemma SessionMatchesRegistry(tr: seq<F.Step>, d: A.Device, ev: seq<A.Event>)
    requires FacadeTheorems.Legal(tr) && NoCollision(tr)
    requires var l := FacadeTheorems.Exec(tr).loop; !l.shutting && l.queue == []
    requires A.Legal(d, ev) && A.Shutdown !in ev
    requires CallEvents(ev) == Wire(F.CallNotes(FacadeTheorems.Exec(tr).loop.delivered))
    ensures A.InSession(A.Run(d, ev)) <==>
            exists i | 0 <= i < CAPACITY :: FacadeTheorems.Exec(tr).calls.slots[i].call.Some?
  {
    var f := FacadeTheorems.Exec(tr);
    FacadeTheorems.RunInv(tr);
    RunTold(tr);
    assert f.loop.delivered + f.loop.queue == f.loop.delivered;
    assert F.CallNotes(f.loop.delivered) == f.calls.notes;
    AudioTheorems.SessionFollowsCalls(d, ev);
    BusyIsHeard(ev, f.calls.notes);
    TrackedIsHeard(f.calls);
  }

  lemma TrackedIsHeard(s: Calls)
    requires InStep(s) && |s.slots| == CAPACITY
    ensures (exists id :: Heard(s.notes, id)) <==> exists i | 0 <= i < CAPACITY :: s.slots[i].call.Some?
  {
    OccupiedIsMapped(s.slots);
    if id :| Heard(s.notes, id) { assert id in Abs(s.slots); }
    if id :| id in Abs(s.slots) { assert Heard(s.notes, id); }
  }
}
