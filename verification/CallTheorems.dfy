/** What holds over every run of the call registry. */
module CallTheorems {
  import opened Wrappers
  import opened CallModel
  import opened CallShape
  import opened CallRuns

  // ---- runs --------------------------------------------------------------------

  function Front(tr: seq<Step>): seq<Step>
    requires tr != []
  {
    tr[..|tr| - 1]
  }

  function Last(tr: seq<Step>): Step
    requires tr != []
  {
    tr[|tr| - 1]
  }

  predicate Legal(tr: seq<Step>)
    decreases |tr|, 0
  {
    tr == [] || (Legal(Front(tr)) && Enabled(Exec(Front(tr)), Last(tr)))
  }

  function Exec(tr: seq<Step>): (s: Calls)
    requires Legal(tr)
    ensures Linked(s)
    decreases |tr|, 1
  {
    if tr == [] then START else After(Exec(Front(tr)), Last(tr))
  }

  lemma Extend(tr: seq<Step>, step: Step)
    requires Legal(tr) && Enabled(Exec(tr), step)
    ensures Legal(tr + [step]) && Exec(tr + [step]) == After(Exec(tr), step)
  {
    assert Front(tr + [step]) == tr;
  }

  lemma {:induction false} RunInv(tr: seq<Step>)
    requires Legal(tr)
    ensures Inv(Exec(tr))
    decreases |tr|
  {
    if tr == [] {
      StartInv();
    } else {
      RunInv(Front(tr));
      StepInv(Exec(Front(tr)), Last(tr));
    }
  }

  // ---- mute is never lost ----------------------------------------------------------

  predicate Brings(step: Step, c: Call) {
    match step
    case NewIncoming(d, _, _) => d == c
    case NewOutgoing(d, _, _, _) => d == c
    case _ => false
  }

  /** What the application wants for call `c` after `step`, if it wanted `before` until then. */
  function Wanted(s: Calls, step: Step, c: Call, before: bool): bool
    requires Linked(s)
  {
    if Brings(step, c) then false
    else if step.AppMute? && FindById(s.slots, step.id).Some?
            && s.slots[FindById(s.slots, step.id).value].call == Some(c)
    then step.mute
    else before
  }

  /** The last value given to omnix_call_set_mute for `c`, false if none. */
  function LastMute(tr: seq<Step>, c: Call): bool
    requires Legal(tr)
    decreases |tr|
  {
    tr != [] && Wanted(Exec(Front(tr)), Last(tr), c, LastMute(Front(tr), c))
  }

  /** `muted` is what the slot holding `c` said in `s`, or `c` is new and not muted. */
  predicate Muted(s: Calls, step: Step, c: Call, muted: bool)
    requires Linked(s)
  {
    || (Brings(step, c) && !muted)
    || exists j | 0 <= j < CAPACITY ::
         s.slots[j].call == Some(c) && muted == Wanted(s, step, c, s.slots[j].info.isMuted)
  }

  /** After the step, slots and new notes speak of mute as they should. */
  ghost predicate MuteStep(s: Calls, step: Step, r: Calls)
    requires Linked(s) && Linked(r)
  {
    && (forall j | 0 <= j < CAPACITY && r.slots[j].call.Some? ::
          Muted(s, step, r.slots[j].call.value, r.slots[j].info.isMuted))
    && |s.notes| <= |r.notes|
    && (forall k | |s.notes| <= k < |r.notes| :: Muted(s, step, r.notes[k].call, r.notes[k].info.isMuted))
  }

  /** Slots that a step leaves alone keep their mute flag, unless the step sets it. */
  lemma MuteKeeps(s: Calls, step: Step, j: nat)
    requires Inv(s) && Enabled(s, step) && !step.AppMute? && j < CAPACITY && s.slots[j].call.Some?
    ensures Muted(s, step, s.slots[j].call.value, s.slots[j].info.isMuted)
  {
    var c := s.slots[j].call.value;
    OwnedBy(s, j, c);
    assert !Brings(step, c);
    assert s.slots[j].call == Some(c) && s.slots[j].info.isMuted == Wanted(s, step, c, s.slots[j].info.isMuted);
  }

  lemma MuteAll(s: Calls, step: Step)
    requires Inv(s) && Enabled(s, step) && !step.AppMute?
    ensures forall j | 0 <= j < CAPACITY && s.slots[j].call.Some? ::
              Muted(s, step, s.slots[j].call.value, s.slots[j].info.isMuted)
  {
    forall j | 0 <= j < CAPACITY && s.slots[j].call.Some?
      ensures Muted(s, step, s.slots[j].call.value, s.slots[j].info.isMuted)
    {
      MuteKeeps(s, step, j);
    }
  }

  lemma AdoptMute(s: Calls, step: Step, s1: Calls, i: nat, slot: Slot)
    requires Inv(s) && Enabled(s, step) && !step.AppMute? && Linked(s1)
    requires slot.call.Some? && Live(s1, slot.call.value)
    requires s1.slots == s.slots && s1.notes == s.notes && i < CAPACITY
    requires s.slots[i].call == None && FindByPtr(s.slots, slot.call) == None
    requires Brings(step, slot.call.value) && !slot.info.isMuted
    ensures MuteStep(s, step, Adopt(s1, slot.call.value, i, slot))
  {
    MuteAll(s, step);
  }

  lemma IncomingMute(s: Calls, step: Step)
    requires Inv(s) && Enabled(s, step) && step.NewIncoming?
    ensures MuteStep(s, step, After(s, step))
  {
    MuteAll(s, step);
    Unslotted(s, step.c);
    var s1 := s.(stack := s.stack[step.c := step.b]);
    match Alloc(s1, step.c)
    case None =>
    case Some((i, slot)) =>
      var info := InfoFrom(step.b, slot.info.isMuted).(state := Incoming, isOutgoing := false);
      AdoptMute(s, step, s1, i, slot.(info := info));
  }

  lemma OutgoingMute(s: Calls, step: Step)
    requires Inv(s) && Enabled(s, step) && step.NewOutgoing?
    ensures MuteStep(s, step, After(s, step))
  {
    MuteAll(s, step);
    Unslotted(s, step.c);
  }

  lemma CloseMute(s: Calls, step: Step)
    requires Inv(s) && Enabled(s, step) && (step.RemoteClose? || step.Moves?)
    ensures MuteStep(s, step, After(s, step))
  {
    MuteAll(s, step);
  }

  lemma AnswerMute(s: Calls, step: Step)
    requires Inv(s) && Enabled(s, step) && step.AppAnswer?
    ensures MuteStep(s, step, After(s, step))
  {
    MuteAll(s, step);
  }

  lemma RejectMute(s: Calls, step: Step)
    requires Inv(s) && Enabled(s, step) && step.AppReject?
    ensures MuteStep(s, step, After(s, step))
  {
    MuteAll(s, step);
    match FindById(s.slots, step.id)
    case None =>
    case Some(i) => RejectEnds(s, step.id, step.outcome, i);
  }

  lemma HangUpMute(s: Calls, step: Step)
    requires Inv(s) && Enabled(s, step) && step.AppHangUp?
    ensures MuteStep(s, step, After(s, step))
  {
    MuteAll(s, step);
    match FindById(s.slots, step.id)
    case None =>
    case Some(i) => HangUpEnds(s, step.id, step.outcome, i);
  }

  lemma HoldMute(s: Calls, step: Step)
    requires Inv(s) && Enabled(s, step) && step.AppHold?
    ensures MuteStep(s, step, After(s, step))
  {
    MuteAll(s, step);
  }

  lemma SetMuteMute(s: Calls, step: Step)
    requires Inv(s) && Enabled(s, step) && step.AppMute?
    ensures MuteStep(s, step, After(s, step))
  {
    var r := After(s, step);
    forall j | 0 <= j < CAPACITY && r.slots[j].call.Some?
      ensures Muted(s, step, r.slots[j].call.value, r.slots[j].info.isMuted)
    {
      var c := r.slots[j].call.value;
      assert s.slots[j].call == Some(c);
      OwnedBy(s, j, c);
      match FindById(s.slots, step.id)
      case None => assert r.slots[j].info.isMuted == Wanted(s, step, c, s.slots[j].info.isMuted);
      case Some(i) =>
        assert s.slots[i].call == Some(c) <==> i == j;
        assert r.slots[j].info.isMuted == Wanted(s, step, c, s.slots[j].info.isMuted);
    }
  }

  lemma StepMute(s: Calls, step: Step)
    requires Inv(s) && Enabled(s, step)
    ensures MuteStep(s, step, After(s, step))
  {
    match step
    case NewIncoming(_, _, _) => IncomingMute(s, step);
    case NewOutgoing(_, _, _, _) => OutgoingMute(s, step);
    case Moves(_, _) => CloseMute(s, step);
    case RemoteClose(_, _, _) => CloseMute(s, step);
    case AppAnswer(_, _, _) => AnswerMute(s, step);
    case AppReject(_, _) => RejectMute(s, step);
    case AppHangUp(_, _) => HangUpMute(s, step);
    case AppHold(_, _, _, _) => HoldMute(s, step);
    case AppMute(_, _) => SetMuteMute(s, step);
    case ShuttingDown => MuteAll(s, step);
    case RegistryReset =>
  }

  /**
   * Mute is never lost: in every run a slot's mute flag is the last value the
   * application set for its call, whatever was answered, held or resumed since.
   */
  lemma {:induction false} MuteIsKept(tr: seq<Step>, j: nat)
    requires Legal(tr) && j < CAPACITY && Exec(tr).slots[j].call.Some?
    ensures Exec(tr).slots[j].info.isMuted == LastMute(tr, Exec(tr).slots[j].call.value)
    decreases |tr|
  {
    if tr != [] {
      var s := Exec(Front(tr));
      var c := Exec(tr).slots[j].call.value;
      RunInv(Front(tr));
      StepMute(s, Last(tr));
      assert Muted(s, Last(tr), c, Exec(tr).slots[j].info.isMuted);
      if !Brings(Last(tr), c) {
        var k :| 0 <= k < CAPACITY && s.slots[k].call == Some(c)
                 && Exec(tr).slots[j].info.isMuted == Wanted(s, Last(tr), c, s.slots[k].info.isMuted);
        MuteIsKept(Front(tr), k);
      }
    }
  }

  /** Every notification, the terminal one included, carries the mute value current when it was queued. */
  lemma NotesCarryMute(tr: seq<Step>, k: nat)
    requires tr != [] && Legal(tr) && |Exec(Front(tr)).notes| <= k < |Exec(tr).notes|
    ensures Exec(tr).notes[k].info.isMuted == LastMute(tr, Exec(tr).notes[k].call)
  {
    var s := Exec(Front(tr));
    var n := Exec(tr).notes[k];
    RunInv(Front(tr));
    StepMute(s, Last(tr));
    assert Muted(s, Last(tr), n.call, n.info.isMuted);
    if !Brings(Last(tr), n.call) {
      var j :| 0 <= j < CAPACITY && s.slots[j].call == Some(n.call)
               && n.info.isMuted == Wanted(s, Last(tr), n.call, s.slots[j].info.isMuted);
      MuteIsKept(Front(tr), j);
    }
  }

  // ---- released exactly once -----------------------------------------------------

  /** How many slots hold `c`. */
  function Holders(slots: seq<Slot>, c: Call): nat {
    if slots == [] then 0
    else Holders(slots[..|slots| - 1], c) + if slots[|slots| - 1].call == Some(c) then 1 else 0
  }

  lemma {:induction false} NoHolder(slots: seq<Slot>, c: Call)
    requires forall j | 0 <= j < |slots| :: slots[j].call != Some(c)
    ensures Holders(slots, c) == 0
    decreases |slots|
  {
    if slots != [] { NoHolder(slots[..|slots| - 1], c); }
  }

  lemma {:induction false} OneHolder(slots: seq<Slot>, c: Call, i: nat)
    requires i < |slots| && slots[i].call == Some(c)
    requires forall j | 0 <= j < |slots| && j != i :: slots[j].call != Some(c)
    ensures Holders(slots, c) == 1
    decreases |slots|
  {
    if i == |slots| - 1 {
      NoHolder(slots[..i], c);
    } else {
      OneHolder(slots[..|slots| - 1], c, i);
    }
  }

  /**
   * A call that was given the Omnix handler is released at most once. Until teardown
   * it is either live, in exactly one slot and with no terminal note, or released, in
   * no slot, with exactly one slot freed for it and its one terminal note queued.
   * CLOSED inside call_hangup, CLOSED later and no CLOSED at all make no difference.
   */
  lemma ReleasedOnce(tr: seq<Step>, c: Call)
    requires Legal(tr) && c in Exec(tr).stack && Exec(tr).stack[c].handler.OmnixHandler?
    ensures var s := Exec(tr); var b := s.stack[c];
            && b.slotsFreed <= b.releases <= 1
            && (!s.torn ==> b.slotsFreed == b.releases && Holders(s.slots, c) == 1 - b.releases)
            && (!s.quiet ==> (b.releases == 1 <==> ShapeOf(s.notes, c) == Done))
  {
    RunInv(tr);
    var s := Exec(tr);
    var b := s.stack[c];
    assert CallOk(c, b, s.slots, s.torn);
    if b.releases == 0 && !s.torn {
      OwnedBy(s, b.handler.entry, c);
      OneHolder(s.slots, c, b.handler.entry);
    } else if !s.torn {
      forall j | 0 <= j < CAPACITY ensures s.slots[j].call != Some(c) {
        if s.slots[j].call == Some(c) { OwnedBy(s, j, c); }
      }
      NoHolder(s.slots, c);
    }
  }

  /** The call that `step` asks to finish, if it tracks one. */
  function Closes(s: Calls, step: Step): Option<Call>
    requires Linked(s)
  {
    match step
    case RemoteClose(c, _, _) => Some(c)
    case AppHangUp(id, _) => CallWithId(s, id)
    case AppReject(id, _) => CallWithId(s, id)
    case _ => None
  }

  function CallWithId(s: Calls, id: string): Option<Call>
    requires Linked(s)
  {
    match FindById(s.slots, id)
    case None => None
    case Some(i) => s.slots[i].call
  }

  ghost predicate OnlyReleases(s: Calls, r: Calls, c: Call) {
    && c in r.stack && r.stack[c].releases == 1
    && forall d | d in r.stack && d != c :: d in s.stack && r.stack[d] == s.stack[d]
  }

  lemma StepReleases(s: Calls, step: Step, c: Call)
    requires Inv(s) && Enabled(s, step) && Closes(s, step) == Some(c)
    ensures OnlyReleases(s, After(s, step), c)
  {
    match step {
      case RemoteClose(_, _, _) =>
      case AppHangUp(id, outcome) =>
        var i := FindById(s.slots, id).value;
        OwnedBy(s, i, c);
        HangUpEnds(s, id, outcome, i);
      case AppReject(id, outcome) =>
        var i := FindById(s.slots, id).value;
        OwnedBy(s, i, c);
        RejectEnds(s, id, outcome, i);
    }
  }

  /** Closing a call, from either side, releases that call and touches no other. */
  lemma ClosingReleases(tr: seq<Step>, c: Call)
    requires tr != [] && Legal(tr) && Closes(Exec(Front(tr)), Last(tr)) == Some(c)
    ensures OnlyReleases(Exec(Front(tr)), Exec(tr), c)
  {
    RunInv(Front(tr));
    StepReleases(Exec(Front(tr)), Last(tr), c);
  }

  // ---- callbacks stay in their own slot -------------------------------------------

  /**
   * Handler aliasing. Until teardown a live call's handler points at the slot that
   * holds that call; and at any time, teardown included, an event for `c` leaves every
   * slot that holds another call, and every other call, as they were.
   */
  lemma HandlersDoNotAlias(tr: seq<Step>, c: Call)
    requires tr != [] && Legal(tr)
    requires (Last(tr).RemoteClose? && Last(tr).c == c) || (Last(tr).Moves? && Last(tr).c == c)
    ensures var s := Exec(Front(tr)); var r := Exec(tr);
            && (!s.torn && s.stack[c].handler.OmnixHandler? ==> s.slots[s.stack[c].handler.entry].call == Some(c))
            && (forall j | 0 <= j < CAPACITY && s.slots[j].call != Some(c) :: r.slots[j] == s.slots[j])
            && (forall d | d in s.stack && d != c :: d in r.stack && r.stack[d] == s.stack[d])
            && |r.notes| <= |s.notes| + 1 && s.notes <= r.notes
            && (|r.notes| > |s.notes| ==> r.notes[|s.notes|].call == c)
  {
    var s := Exec(Front(tr));
    RunInv(Front(tr));
    assert CallOk(c, s.stack[c], s.slots, s.torn);
  }

  // ---- where handlers point after a registry reset ---------------------------------------

  /** The state after the first `k` steps of the run. */
  function ExecAt(tr: seq<Step>, k: nat): (s: Calls)
    requires Legal(tr) && k <= |tr|
    decreases |tr|
  {
    if k == |tr| then Exec(tr) else ExecAt(Front(tr), k)
  }

  /** Only calls that are not `earlier` are in slots, and such a call is in its handler's while it lives. */
  ghost predicate OnlyNewer(s: Calls, earlier: set<Call>) {
    && s.torn && earlier <= s.stack.Keys
    && (forall j | 0 <= j < |s.slots| && s.slots[j].call.Some? :: s.slots[j].call.value !in earlier)
    && forall d | d in s.stack && d !in earlier :: InItsSlot(s, d)
  }

  predicate InItsSlot(s: Calls, d: Call)
    requires d in s.stack
  {
    var h := s.stack[d].handler;
    Live(s, d) && h.OmnixHandler? ==> h.entry < |s.slots| && s.slots[h.entry].call == Some(d)
  }

  lemma ResetLeavesNone(s: Calls)
    requires Inv(s) && s.quiet && !s.torn
    ensures OnlyNewer(Reset(s), s.stack.Keys)
  {
  }

  lemma IncomingIsNewer(s: Calls, step: Step, earlier: set<Call>)
    requires Inv(s) && Enabled(s, step) && OnlyNewer(s, earlier) && step.NewIncoming?
    ensures OnlyNewer(After(s, step), earlier)
  {
    Unslotted(s, step.c);
    var r := After(s, step);
    forall d | d in r.stack && d !in earlier ensures InItsSlot(r, d) {
      if d != step.c { assert InItsSlot(s, d); }
    }
  }

  lemma CloseIsNewer(s: Calls, step: Step, earlier: set<Call>)
    requires Inv(s) && Enabled(s, step) && OnlyNewer(s, earlier) && (step.RemoteClose? || step.Moves?)
    ensures OnlyNewer(After(s, step), earlier)
  {
    var r := After(s, step);
    forall d | d in r.stack && d !in earlier ensures InItsSlot(r, d) {
      assert InItsSlot(s, d);
    }
  }

  lemma {:induction false} SlotsAfterReset(tr: seq<Step>, k: nat)
    requires Legal(tr) && k < |tr| && tr[k] == RegistryReset
    ensures OnlyNewer(Exec(tr), ExecAt(tr, k).stack.Keys)
    decreases |tr|
  {
    var s := Exec(Front(tr));
    RunInv(Front(tr));
    if k == |tr| - 1 {
      ResetLeavesNone(s);
    } else {
      SlotsAfterReset(Front(tr), k);
      if Last(tr).NewIncoming? {
        IncomingIsNewer(s, Last(tr), ExecAt(tr, k).stack.Keys);
      } else {
        CloseIsNewer(s, Last(tr), ExecAt(tr, k).stack.Keys);
      }
    }
  }

  /**
   * After a registry reset, in every run, a call from before it is in no slot, and the slot
   * that its handler names is empty exactly as long as no later call lives that was given
   * the same slot. So while no call comes in after the reset it stays empty.
   */
  lemma HandlersAfterReset(tr: seq<Step>, k: nat, c: Call)
    requires Legal(tr) && k < |tr| && tr[k] == RegistryReset && c in ExecAt(tr, k).stack
    ensures var s := Exec(tr); var earlier := ExecAt(tr, k).stack;
            && c in s.stack
            && (forall j | 0 <= j < CAPACITY :: s.slots[j].call != Some(c))
            && (s.stack[c].handler.OmnixHandler? ==>
                  var i := s.stack[c].handler.entry;
                  s.slots[i] == EMPTY_SLOT <==>
                  forall d | d in s.stack && d !in earlier :: !(Live(s, d) && s.stack[d].handler == OmnixHandler(i)))
  {
    SlotsAfterReset(tr, k);
    RunInv(tr);
    var s := Exec(tr);
    if s.stack[c].handler.OmnixHandler? {
      var i := s.stack[c].handler.entry;
      assert EntryInRange(s.stack[c].handler);
      assert SlotOk(s.slots[i], s.stack);
      if s.slots[i].call.Some? {
        var d := s.slots[i].call.value;
        assert Holds(s, i, d);
      }
      forall d | d in s.stack && d !in ExecAt(tr, k).stack && Live(s, d) && s.stack[d].handler == OmnixHandler(i)
        ensures s.slots[i].call == Some(d)
      {
        assert InItsSlot(s, d);
      }
    }
  }

  /**
   * And a later call can be given it: from every state of every run with a call in the
   * first slot, a call that comes in behind a shutdown's reset is put into that slot, which
   * the handler of the first call still names.
   */
  lemma ResetCanAlias(tr: seq<Step>, c: Call, d: Call, b: StackCall, busy: HangupOutcome)
    requires Legal(tr) && !Exec(tr).quiet && Exec(tr).slots[0].call == Some(c)
    requires IsNew(Exec(tr), d, b) && b.id != ""
    ensures var tr3 := tr + [ShuttingDown] + [RegistryReset] + [NewIncoming(d, b, busy)];
            && Legal(tr3) && Live(Exec(tr3), c) && Exec(tr3).stack[c].handler == OmnixHandler(0)
            && d != c && Exec(tr3).slots[0].call == Some(d)
  {
    RunInv(tr);
    OwnedBy(Exec(tr), 0, c);
    Extend(tr, ShuttingDown);
    var tr1 := tr + [ShuttingDown];
    Extend(tr1, RegistryReset);
    var tr2 := tr1 + [RegistryReset];
    assert Exec(tr2) == Reset(Exec(tr).(quiet := true));
    Extend(tr2, NewIncoming(d, b, busy));
    FirstFree(Exec(tr2).slots, b.id, d);
  }

  lemma FirstFree(slots: seq<Slot>, id: string, d: Call)
    requires slots == BLANK
    ensures FindByPtr(slots, Some(d)) == None && FindById(slots, id) == None && FindByPtr(slots, None) == Some(0)
  {
  }

  // ---- hold -----------------------------------------------------------------------

  /**
   * In every reachable state a tracked call's report agrees with the stack about hold,
   * is HELD exactly when the stack holds the call, and is not left in ENDING.
   */
  lemma HoldIsCoherent(tr: seq<Step>, j: nat)
    requires Legal(tr) && j < CAPACITY && Exec(tr).slots[j].call.Some?
    ensures var s := Exec(tr); var info := s.slots[j].info; var c := s.slots[j].call.value;
            && Live(s, c)
            && info.isOnHold == s.stack[c].onHold
            && (info.state == Held <==> s.stack[c].onHold)
            && info.state != Ending
  {
    RunInv(tr);
    OwnedBy(Exec(tr), j, Exec(tr).slots[j].call.value);
    assert SlotOk(Exec(tr).slots[j], Exec(tr).stack);
  }

  // ---- where CONNECTED comes from -----------------------------------------------------

  /** The step answers or resumes the call with this identifier. */
  predicate Connects(step: Step, id: string) {
    (step.AppAnswer? && step.id == id) || (step.AppHold? && !step.on && step.id == id)
  }

  predicate OnlyConnects(s: Calls, step: Step, r: Calls)
    requires Linked(s) && Linked(r)
  {
    forall j: nat | j < CAPACITY && r.slots[j].info.state == Connected ::
      s.slots[j].info.state == Connected || Connects(step, s.slots[j].callId)
  }

  lemma IncomingConnects(s: Calls, step: Step)
    requires Inv(s) && Enabled(s, step) && step.NewIncoming?
    ensures OnlyConnects(s, step, After(s, step))
  {
    Unslotted(s, step.c);
  }

  lemma OutgoingConnects(s: Calls, step: Step)
    requires Inv(s) && Enabled(s, step) && step.NewOutgoing?
    ensures OnlyConnects(s, step, After(s, step))
  {
    Unslotted(s, step.c);
  }

  lemma FinishConnects(s: Calls, step: Step)
    requires Inv(s) && Enabled(s, step) && (step.AppReject? || step.AppHangUp?)
    ensures OnlyConnects(s, step, After(s, step))
  {
    match FindById(s.slots, step.id)
    case None =>
    case Some(i) =>
      if step.AppReject? { RejectEnds(s, step.id, step.outcome, i); } else { HangUpEnds(s, step.id, step.outcome, i); }
  }

  lemma SlotConnects(s: Calls, step: Step)
    requires Inv(s) && Enabled(s, step) && (step.AppAnswer? || step.AppMute?)
    ensures OnlyConnects(s, step, After(s, step))
  {
  }

  lemma HoldConnects(s: Calls, step: Step)
    requires Inv(s) && Enabled(s, step) && step.AppHold?
    ensures OnlyConnects(s, step, After(s, step))
  {
  }

  lemma CloseConnects(s: Calls, step: Step)
    requires Inv(s) && Enabled(s, step) && (step.Moves? || step.RemoteClose?)
    ensures OnlyConnects(s, step, After(s, step))
  {
  }

  lemma StepConnects(s: Calls, step: Step)
    requires Inv(s) && Enabled(s, step)
    ensures OnlyConnects(s, step, After(s, step))
  {
    match step
    case NewIncoming(_, _, _) => IncomingConnects(s, step);
    case NewOutgoing(_, _, _, _) => OutgoingConnects(s, step);
    case AppReject(_, _) => FinishConnects(s, step);
    case AppHangUp(_, _) => FinishConnects(s, step);
    case Moves(_, _) => CloseConnects(s, step);
    case RemoteClose(_, _, _) => CloseConnects(s, step);
    case ShuttingDown =>
    case RegistryReset =>
    case AppHold(_, _, _, _) => HoldConnects(s, step);
    case _ => SlotConnects(s, step);
  }

  /**
   * RINGING, PROGRESS and ESTABLISHED events do not reach the slot: in every run a slot
   * becomes CONNECTED only by answering or resuming its own call.
   */
  lemma ConnectedComesFrom(tr: seq<Step>, j: nat)
    requires tr != [] && Legal(tr) && j < CAPACITY && Exec(tr).slots[j].info.state == Connected
    ensures var s := Exec(Front(tr));
            s.slots[j].info.state == Connected || Connects(Last(tr), s.slots[j].callId)
  {
    RunInv(Front(tr));
    StepConnects(Exec(Front(tr)), Last(tr));
  }

  // ---- order of notifications --------------------------------------------------------

  /** In every run the notes about a call keep the grammar, and a finished call's notes are complete. */
  lemma NotesKeepOrder(tr: seq<Step>, c: Call)
    requires Legal(tr)
    ensures Ordered(Heard(Exec(tr).notes, c))
    ensures !Exec(tr).quiet ==> ShapeOf(Exec(tr).notes, c) == Expected(Exec(tr).stack, c)
  {
    RunInv(tr);
    ShapeIsGrammar(Exec(tr).notes, c);
  }

  // ---- why the stack's part of the bargain matters ------------------------------------

  lemma RefireShape(s: Calls, c: Call, st: CallState)
    requires Inv(s) && Live(s, c) && s.stack[c].handler.OmnixHandler? && (st == Outgoing || st == Incoming)
    ensures var i := s.stack[c].handler.entry;
            i < CAPACITY && (ShapeOf(Refire(s, i, c, st).notes, c) == Broken <==> !s.quiet)
  {
    var i := s.stack[c].handler.entry;
    assert EntryInRange(s.stack[c].handler);
    var notes := Refire(s, i, c, st).notes;
    if !s.quiet {
      var n := notes[|s.notes|];
      assert notes == s.notes + [n];
      ShapeSnoc(s.notes, n);
    }
  }

  /**
   * Were OUTGOING or INCOMING fired again for a live call, in whatever state of whatever
   * run, its notes would break the order exactly when they are still queued.
   */
  lemma RefireBreaksOrder(tr: seq<Step>, c: Call, st: CallState)
    requires Legal(tr) && Live(Exec(tr), c) && Exec(tr).stack[c].handler.OmnixHandler?
    requires st == Outgoing || st == Incoming
    ensures var s := Exec(tr); var i := s.stack[c].handler.entry;
            i < CAPACITY && (ShapeOf(Refire(s, i, c, st).notes, c) == Broken <==> !s.quiet)
  {
    RunInv(tr);
    RefireShape(Exec(tr), c, st);
  }
}
