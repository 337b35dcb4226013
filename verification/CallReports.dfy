/**
 * What the host is told about a call is about that call: its identifier, the two names
 * of the other side, and who made it, over every run.
 */
module CallReports {
  import opened Wrappers
  import opened Text
  import opened CallModel
  import opened CallRuns
  import opened CallTheorems
  import opened CallOutcomes

  /** The calls as the stack brought them. */
  type Came = map<Call, StackCall>

  /** `text` is `full`, cut to `n` characters. */
  predicate CutTo(text: string, full: string, n: nat) {
    text == full[..if |full| <= n then |full| else n]
  }

  /**
   * `info` names the call `b`: identifier and name in buffers of 128, address in one of
   * 256. It says outgoing for outgoing calls only, and, if `exact`, for all of them.
   */
  predicate Names(info: Info, b: StackCall, exact: bool) {
    && CutTo(info.callId, b.id, 127) && CutTo(info.peerUri, b.peerUri, 255) && CutTo(info.peerName, b.peerName, 127)
    && (info.isOutgoing ==> b.outgoing) && (exact && b.outgoing ==> info.isOutgoing)
  }

  /** `b` has the names that `c` came with. */
  predicate SameCall(came: Came, c: Call, b: StackCall) {
    && c in came && b.id == came[c].id && b.peerUri == came[c].peerUri
    && b.peerName == came[c].peerName && b.outgoing == came[c].outgoing
  }

  predicate SlotNames(slot: Slot, came: Came, exact: bool) {
    slot.call.Some? ==> slot.call.value in came && Names(slot.info, came[slot.call.value], exact)
  }

  predicate NoteNames(note: Note, came: Came, exact: bool) {
    note.call in came && Names(note.info, came[note.call], exact) && note.state == note.info.state
  }

  /** Calls keep the names they came with, and every slot and every note so far has those of its own call. */
  predicate Reports(s: Calls, came: Came, exact: bool) {
    && (forall c | c in s.stack :: SameCall(came, c, s.stack[c])) && (forall c | c in came :: c in s.stack)
    && (forall i | 0 <= i < |s.slots| :: SlotNames(s.slots[i], came, exact))
    && (forall k | 0 <= k < |s.notes| :: NoteNames(s.notes[k], came, exact))
  }

  /** One slot and its call rewritten, and some notes about that call pushed. */
  lemma PatchReports(s: Calls, came: Came, i: nat, slot: Slot, c: Call, b: StackCall,
                     added: seq<Note>, exact: bool)
    requires Reports(s, came, exact) && i < |s.slots| && SameCall(came, c, b)
    requires slot.call == None || (slot.call == Some(c) && Names(slot.info, b, exact))
    requires c in s.stack
    requires forall k | 0 <= k < |added| ::
               added[k].call == c && Names(added[k].info, b, exact) && added[k].state == added[k].info.state
    ensures Reports(Patch(s, i, slot, c, b, s.notes + added), came, exact)
  {
  }

  lemma StackReports(s: Calls, came: Came, c: Call, b: StackCall, exact: bool)
    requires Reports(s, came, exact) && SameCall(came, c, b)
    ensures Reports(s.(stack := s.stack[c := b]), came, exact)
  {
  }

  /** A new call comes with its names. */
  lemma NewReports(s: Calls, came: Came, c: Call, b: StackCall, exact: bool)
    requires Reports(s, came, exact) && c !in s.stack
    ensures Reports(s.(stack := s.stack[c := b]), came[c := b], exact)
  {
  }

  lemma FromStack(b: StackCall, muted: bool)
    ensures Names(InfoFrom(b, muted), b, true)
  {
  }

  /** The notes that a step pushes for `info`. */
  function Pushed(s: Calls, c: Call, info: Info): seq<Note> {
    if s.quiet then [] else [Note(c, info.state, info)]
  }

  lemma ToldIs(s: Calls, c: Call, info: Info)
    ensures Told(s, c, info) == s.notes + Pushed(s, c, info)
  {
  }

  // ---- step by step --------------------------------------------------------------------

  /** A step says which side made the call it brings, as the stack's own flag does. */
  predicate Direct(step: Step) {
    match step
    case NewIncoming(_, b, _) => !b.outgoing
    case NewOutgoing(_, b, _, _) => b.outgoing
    case _ => true
  }

  lemma AdoptReports(s: Calls, came: Came, c: Call, i: nat, slot: Slot, exact: bool)
    requires Linked(s) && Live(s, c) && FindByPtr(s.slots, Some(c)) == None && Reports(s, came, exact)
    requires i < CAPACITY && s.slots[i].call == None && slot.call == Some(c) && Names(slot.info, s.stack[c], exact)
    ensures Reports(Adopt(s, c, i, slot), came, exact)
  {
    PatchReports(s, came, i, slot, c, s.stack[c].(handler := OmnixHandler(i)), Pushed(s, c, slot.info), exact);
    ToldIs(s, c, slot.info);
  }

  lemma TurnAwayReports(s: Calls, came: Came, c: Call, busy: HangupOutcome, exact: bool)
    requires Linked(s) && Live(s, c) && s.stack[c].handler == UaHandler && Reports(s, came, exact)
    ensures Reports(HangUpStack(s, c, busy), came, exact)
  {
    var b := s.stack[c];
    Unslotted(s, c);
    StackReports(s, came, c, if busy.Silent? then b.(state := StackTerminated)
                             else b.(releases := b.releases + 1), exact);
  }

  lemma IncomingReports(s: Calls, came: Came, c: Call, b: StackCall, busy: HangupOutcome, exact: bool)
    requires Inv(s) && IsNew(s, c, b) && Reports(s, came, exact) && (exact ==> !b.outgoing)
    ensures Reports(After(s, NewIncoming(c, b, busy)), came[c := b], exact)
  {
    Newcomer(s, c, b);
    NewReports(s, came, c, b, exact);
    var s1 := s.(stack := s.stack[c := b]);
    match Alloc(s1, c)
    case None => TurnAwayReports(s1, came[c := b], c, busy, exact);
    case Some((i, slot)) =>
      FromStack(b, false);
      AdoptReports(s1, came[c := b], c, i, slot.(info := slot.info.(state := Incoming, isOutgoing := false)), exact);
  }

  lemma MakeReports(s: Calls, came: Came, c: Call, b: StackCall, err: Errno, busy: HangupOutcome, exact: bool)
    requires Inv(s) && IsNew(s, c, b) && b.id != "" && Reports(s.(stack := s.stack[c := b]), came, exact)
    ensures Linked(s.(stack := s.stack[c := b]))
    ensures Reports(Make(s.(stack := s.stack[c := b]), c, err, busy).0, came, exact)
  {
    Newcomer(s, c, b);
    var s1 := s.(stack := s.stack[c := b]);
    match Alloc(s1, c)
    case None => TurnAwayReports(s1, came, c, busy, exact);
    case Some((i, slot)) =>
      FromStack(b, false);
      AdoptReports(s1, came, c, i, slot.(info := slot.info.(state := Outgoing)), exact);
  }

  lemma NoIdReports(s: Calls, came: Came, c: Call, b: StackCall, err: Errno, busy: HangupOutcome, exact: bool)
    requires Inv(s) && IsNew(s, c, b) && b.id == "" && Reports(s.(stack := s.stack[c := b]), came, exact)
    ensures Linked(s.(stack := s.stack[c := b]))
    ensures Reports(Make(s.(stack := s.stack[c := b]), c, err, busy).0, came, exact)
  {
    OutgoingWithoutId(s, c, b, err, busy);
    StackReports(s.(stack := s.stack[c := b]), came, c, b.(releases := 1), exact);
    assert s.stack[c := b][c := b.(releases := 1)] == s.stack[c := b.(releases := 1)];
  }

  lemma OutgoingReports(s: Calls, came: Came, c: Call, b: StackCall, err: Errno, busy: HangupOutcome, exact: bool)
    requires Inv(s) && IsNew(s, c, b) && !s.quiet && Reports(s, came, exact)
    ensures Reports(After(s, NewOutgoing(c, b, err, busy)), came[c := b], exact)
  {
    NewReports(s, came, c, b, exact);
    if b.id == "" {
      NoIdReports(s, came[c := b], c, b, err, busy, exact);
    } else {
      MakeReports(s, came[c := b], c, b, err, busy, exact);
    }
  }

  /** A call `c` seen as `b`, told to be over, and left as `gone`. */
  lemma FinishReports(s: Calls, came: Came, i: nat, c: Call, b: StackCall, gone: StackCall, end: CallState,
                      exact: bool)
    requires Reports(s, came, exact) && i < |s.slots| && c in s.stack
    requires SameCall(s.stack, c, b) && SameCall(s.stack, c, gone)
    ensures Reports(Patch(s, i, EMPTY_SLOT, c, gone, Told(s, c, FinalInfo(s.slots[i], b, end))), came, exact)
  {
    var info := FinalInfo(s.slots[i], b, end);
    FromStack(b, s.slots[i].info.isMuted);
    ToldIs(s, c, info);
    PatchReports(s, came, i, EMPTY_SLOT, c, gone, Pushed(s, c, info), exact);
  }

  lemma SlottedCloseReports(s: Calls, came: Came, i: nat, c: Call, end: CallState, exact: bool)
    requires Linked(s) && i < CAPACITY && s.slots[i].call == Some(c) && Reports(s, came, exact)
    ensures Live(s, c) && Reports(Closed(s, c, end), came, exact)
  {
    OwnedBy(s, i, c);
    FinalizeIs(s, i, c, end);
    var b := s.stack[c];
    FinishReports(s, came, i, c, b, b.(releases := b.releases + 1, slotsFreed := b.slotsFreed + 1), end, exact);
  }

  lemma UnslottedCloseIs(s: Calls, c: Call, end: CallState)
    requires Linked(s) && Live(s, c) && forall j | 0 <= j < CAPACITY :: s.slots[j].call != Some(c)
    ensures Closed(s, c, end) == s.(stack := s.stack[c := s.stack[c].(releases := s.stack[c].releases + 1)])
  {
  }

  lemma UnslottedCloseReports(s: Calls, came: Came, c: Call, end: CallState, exact: bool)
    requires Linked(s) && Live(s, c) && FindByPtr(s.slots, Some(c)) == None && Reports(s, came, exact)
    ensures Reports(Closed(s, c, end), came, exact)
  {
    UnslottedCloseIs(s, c, end);
    StackReports(s, came, c, s.stack[c].(releases := s.stack[c].releases + 1), exact);
  }

  lemma CloseReports(s: Calls, came: Came, c: Call, end: CallState, exact: bool)
    requires Linked(s) && Live(s, c) && Reports(s, came, exact)
    ensures Reports(Closed(s, c, end), came, exact)
  {
    match FindByPtr(s.slots, Some(c))
    case None => UnslottedCloseReports(s, came, c, end, exact);
    case Some(i) => SlottedCloseReports(s, came, i, c, end, exact);
  }

  lemma MovesReports(s: Calls, came: Came, c: Call, now: StackState, exact: bool)
    requires Linked(s) && c in s.stack && Reports(s, came, exact)
    ensures Reports(s.(stack := s.stack[c := s.stack[c].(state := now)]), came, exact)
  {
    StackReports(s, came, c, s.stack[c].(state := now), exact);
  }

  lemma AnswerTakesReports(s: Calls, came: Came, id: string, i: nat, now: StackState, exact: bool)
    requires Inv(s) && Reports(s, came, exact) && FindById(s.slots, id) == Some(i)
    ensures Reports(Answer(s, id, NoError, now).0, came, exact)
  {
    AnswerIs(s, id, i, now);
    var c := s.slots[i].call.value;
    var b := s.stack[c].(state := now);
    FromStack(b, s.slots[i].info.isMuted);
    PatchReports(s, came, i, s.slots[i].(info := InfoFrom(b, s.slots[i].info.isMuted)), c, b, [], exact);
    assert s.notes + [] == s.notes;
  }

  lemma AnswerReports(s: Calls, came: Came, id: string, err: Errno, now: StackState, exact: bool)
    requires Inv(s) && Reports(s, came, exact)
    ensures Reports(Answer(s, id, err, now).0, came, exact)
  {
    match FindById(s.slots, id)
    case None =>
    case Some(i) =>
      if err == NoError {
        AnswerTakesReports(s, came, id, i, now, exact);
      } else {
        AnswerFails(s, id, i, err, now);
        MovesReports(s, came, s.slots[i].call.value, now, exact);
      }
  }

  lemma RejectReports(s: Calls, came: Came, id: string, outcome: HangupOutcome, exact: bool)
    requires Inv(s) && Reports(s, came, exact)
    ensures Reports(Reject(s, id, outcome).0, came, exact)
  {
    match FindById(s.slots, id)
    case None =>
    case Some(i) =>
      var c := s.slots[i].call.value;
      OwnedBy(s, i, c);
      RejectEnds(s, id, outcome, i);
      FinishReports(s, came, i, c, LastSight(s.stack[c], outcome), Gone(s.stack[c], outcome),
                    HowItEnds(outcome, Some(486)), exact);
  }

  /** The two notes of a local hangup. */
  lemma EndReports(s: Calls, came: Came, i: nat, c: Call, outcome: HangupOutcome, end: CallState, exact: bool)
    requires Reports(s, came, exact) && i < |s.slots| && s.slots[i].call == Some(c) && c in s.stack
    ensures var info := FinalInfo(s.slots[i], LastSight(s.stack[c], outcome), end);
            Reports(Patch(s, i, EMPTY_SLOT, c, Gone(s.stack[c], outcome),
                          if s.quiet then s.notes
                          else s.notes + [Note(c, Ending, s.slots[i].info.(state := Ending))] + [Note(c, end, info)]),
                    came, exact)
  {
    var b := LastSight(s.stack[c], outcome);
    var info := FinalInfo(s.slots[i], b, end);
    FromStack(b, s.slots[i].info.isMuted);
    assert SlotNames(s.slots[i], came, exact);
    var two := [Note(c, Ending, s.slots[i].info.(state := Ending)), Note(c, end, info)];
    PatchReports(s, came, i, EMPTY_SLOT, c, Gone(s.stack[c], outcome), if s.quiet then [] else two, exact);
    assert s.notes + [] == s.notes && s.notes + [two[0]] + [two[1]] == s.notes + two;
  }

  lemma HangUpReports(s: Calls, came: Came, id: string, outcome: HangupOutcome, exact: bool)
    requires Inv(s) && Reports(s, came, exact)
    ensures Reports(HangUp(s, id, outcome).0, came, exact)
  {
    match FindById(s.slots, id)
    case None =>
    case Some(i) =>
      var c := s.slots[i].call.value;
      OwnedBy(s, i, c);
      HangUpEnds(s, id, outcome, i);
      EndReports(s, came, i, c, outcome, HowItEnds(outcome, None), exact);
  }

  lemma HoldReports(s: Calls, came: Came, id: string, on: bool, err: Errno, takes: bool, exact: bool)
    requires Inv(s) && Reports(s, came, exact)
    ensures Reports(HoldOrResume(s, id, on, err, takes).0, came, exact)
  {
    var found := FindById(s.slots, id);
    if found.Some? && s.slots[found.value].info.state == (if on then Connected else Held) {
      var i := found.value;
      if takes {
        var c := s.slots[i].call.value;
        OwnedBy(s, i, c);
        var b := s.stack[c].(onHold := on);
        var info := InfoFrom(b, s.slots[i].info.isMuted).(state := if on then Held else Connected, isOnHold := on);
        FromStack(b, s.slots[i].info.isMuted);
        ToldIs(s, c, info);
        PatchReports(s, came, i, s.slots[i].(info := info), c, b, Pushed(s, c, info), exact);
      } else {
        HoldFails(s, id, i, on, err);
      }
    } else {
      HoldRefused(s, id, on, err, takes);
    }
  }

  lemma MuteReports(s: Calls, came: Came, id: string, mute: bool, exact: bool)
    requires Inv(s) && Reports(s, came, exact)
    ensures Reports(SetMute(s, id, mute).0, came, exact)
  {
    match FindById(s.slots, id)
    case None =>
    case Some(i) =>
      var c := s.slots[i].call.value;
      assert SlotNames(s.slots[i], came, exact);
      PatchReports(s, came, i, s.slots[i].(info := s.slots[i].info.(isMuted := mute)), c, s.stack[c], [], exact);
      assert s.stack[c := s.stack[c]] == s.stack && s.notes + [] == s.notes;
  }

  /** What the stack has brought once `step` is done. */
  function Bring(came: Came, step: Step): Came {
    match step
    case NewIncoming(c, b, _) => came[c := b]
    case NewOutgoing(c, b, _, _) => came[c := b]
    case _ => came
  }

  lemma AppReports(s: Calls, came: Came, step: Step, exact: bool)
    requires Inv(s) && Enabled(s, step) && Reports(s, came, exact)
    requires step.AppAnswer? || step.AppReject? || step.AppHangUp? || step.AppHold? || step.AppMute?
    ensures Reports(After(s, step), came, exact)
  {
    match step
    case AppAnswer(id, err, now) => AnswerReports(s, came, id, err, now, exact);
    case AppReject(id, outcome) => RejectReports(s, came, id, outcome, exact);
    case AppHangUp(id, outcome) => HangUpReports(s, came, id, outcome, exact);
    case AppHold(id, on, err, takes) => HoldReports(s, came, id, on, err, takes, exact);
    case AppMute(id, mute) => MuteReports(s, came, id, mute, exact);
  }

  lemma ResetReports(s: Calls, came: Came, exact: bool)
    requires Linked(s) && Reports(s, came, exact)
    ensures Reports(Reset(s), came, exact)
  {
  }

  lemma StepReports(s: Calls, came: Came, step: Step, exact: bool)
    requires Inv(s) && Enabled(s, step) && Reports(s, came, exact) && (exact ==> Direct(step))
    ensures Reports(After(s, step), Bring(came, step), exact)
  {
    match step
    case NewIncoming(c, b, busy) => IncomingReports(s, came, c, b, busy, exact);
    case NewOutgoing(c, b, err, busy) => OutgoingReports(s, came, c, b, err, busy, exact);
    case Moves(c, now) => MovesReports(s, came, c, now, exact);
    case RemoteClose(c, scode, textCode) => CloseReports(s, came, c, Terminal(scode, textCode), exact);
    case ShuttingDown =>
    case RegistryReset => ResetReports(s, came, exact);
    case _ => AppReports(s, came, step, exact);
  }

  // ---- over every run --------------------------------------------------------------------

  function CameIn(tr: seq<Step>): Came {
    if tr == [] then map[] else Bring(CameIn(Front(tr)), Last(tr))
  }

  lemma {:induction false} RunReports(tr: seq<Step>, exact: bool)
    requires Legal(tr) && (exact ==> forall k | 0 <= k < |tr| :: Direct(tr[k]))
    ensures Reports(Exec(tr), CameIn(tr), exact)
    decreases |tr|
  {
    if tr == [] {
    } else {
      RunReports(Front(tr), exact);
      RunInv(Front(tr));
      StepReports(Exec(Front(tr)), CameIn(Front(tr)), Last(tr), exact);
    }
  }

  /**
   * In every run, whatever a slot or a note says of a call, the identifier and the two
   * names are those of the stack's call, cut to 127, 255 and 127 characters, and only an
   * outgoing call is called outgoing.
   */
  lemma HostHearsTheCall(tr: seq<Step>)
    requires Legal(tr)
    ensures var s := Exec(tr);
            && (forall i | 0 <= i < |s.slots| && s.slots[i].call.Some? ::
                  s.slots[i].call.value in s.stack
                  && Names(s.slots[i].info, s.stack[s.slots[i].call.value], false))
            && (forall k | 0 <= k < |s.notes| ::
                  s.notes[k].call in s.stack && s.notes[k].state == s.notes[k].info.state
                  && Names(s.notes[k].info, s.stack[s.notes[k].call], false))
  {
    RunReports(tr, false);
    var s := Exec(tr);
    forall i | 0 <= i < |s.slots| && s.slots[i].call.Some?
      ensures s.slots[i].call.value in s.stack && Names(s.slots[i].info, s.stack[s.slots[i].call.value], false)
    {
      assert SlotNames(s.slots[i], CameIn(tr), false);
    }
    forall k | 0 <= k < |s.notes|
      ensures s.notes[k].call in s.stack && s.notes[k].state == s.notes[k].info.state
              && Names(s.notes[k].info, s.stack[s.notes[k].call], false)
    {
      assert NoteNames(s.notes[k], CameIn(tr), false);
    }
  }

  /** Step `k` is the one that brought `c`, and `info` has the names it brought it with. */
  predicate BroughtAs(tr: seq<Step>, k: nat, c: Call, info: Info) {
    && k < |tr| && (tr[k].NewIncoming? || tr[k].NewOutgoing?) && tr[k].c == c
    && CutTo(info.callId, tr[k].b.id, 127) && CutTo(info.peerUri, tr[k].b.peerUri, 255)
    && CutTo(info.peerName, tr[k].b.peerName, 127)
    && (info.isOutgoing <==> tr[k].NewOutgoing?)
  }

  ghost predicate Brought(tr: seq<Step>, c: Call, info: Info) {
    exists k: nat :: BroughtAs(tr, k, c, info)
  }

  lemma {:induction false} BroughtBy(tr: seq<Step>, c: Call) returns (k: nat)
    requires Legal(tr) && c in CameIn(tr)
    ensures k < |tr| && (tr[k].NewIncoming? || tr[k].NewOutgoing?) && tr[k].c == c && tr[k].b == CameIn(tr)[c]
    decreases |tr|
  {
    if Brings(Last(tr), c) {
      k := |tr| - 1;
    } else {
      k := BroughtBy(Front(tr), c);
    }
  }

  /**
   * When the stack's own flag says which side made each new call, every slot and every
   * note goes back to the step that brought its call: same names, and outgoing exactly
   * when the application made it.
   */
  lemma HostHearsWhoCalled(tr: seq<Step>)
    requires Legal(tr) && forall k | 0 <= k < |tr| :: Direct(tr[k])
    ensures var s := Exec(tr);
            && (forall i | 0 <= i < |s.slots| && s.slots[i].call.Some? ::
                  Brought(tr, s.slots[i].call.value, s.slots[i].info))
            && (forall n | 0 <= n < |s.notes| :: Brought(tr, s.notes[n].call, s.notes[n].info))
  {
    RunReports(tr, true);
    var s := Exec(tr);
    forall i | 0 <= i < |s.slots| && s.slots[i].call.Some?
      ensures Brought(tr, s.slots[i].call.value, s.slots[i].info)
    {
      assert SlotNames(s.slots[i], CameIn(tr), true);
      var k := BroughtBy(tr, s.slots[i].call.value);
      assert Direct(tr[k]) && BroughtAs(tr, k, s.slots[i].call.value, s.slots[i].info);
    }
    forall n | 0 <= n < |s.notes| ensures Brought(tr, s.notes[n].call, s.notes[n].info) {
      assert NoteNames(s.notes[n], CameIn(tr), true);
      var k := BroughtBy(tr, s.notes[n].call);
      assert Direct(tr[k]) && BroughtAs(tr, k, s.notes[n].call, s.notes[n].info);
    }
  }
}
