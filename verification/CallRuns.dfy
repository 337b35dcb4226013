/** Runs of the call registry: any interleaving of application calls and stack events. */
module CallRuns {
  import opened Wrappers
  import opened Text
  import opened CallModel
  import opened CallShape

  /**
   * One critical section under the re lock. `New...` steps bring a call the stack
   * has just created; `Moves` is any stack event whose handler leaves the slot alone.
   */
  datatype Step =
    | NewIncoming(c: Call, b: StackCall, busy: HangupOutcome)
    | NewOutgoing(c: Call, b: StackCall, err: Errno, busy: HangupOutcome)
    | Moves(c: Call, now: StackState)
    | RemoteClose(c: Call, scode: nat, textCode: Option<nat>)
    | AppAnswer(id: string, err: Errno, now: StackState)
    | AppReject(id: string, outcome: HangupOutcome)
    | AppHangUp(id: string, outcome: HangupOutcome)
    | AppHold(id: string, on: bool, err: Errno, takes: bool)
    | AppMute(id: string, mute: bool)
    | ShuttingDown
    | RegistryReset

  /** A call the stack has just created: it answers to the UA and is not on hold. */
  predicate IsNew(s: Calls, c: Call, b: StackCall) {
    c !in s.stack && b.handler == UaHandler && !b.onHold && b.releases == 0 && b.slotsFreed == 0
  }

  /** What the stack and a serialised application can do next. */
  predicate Enabled(s: Calls, step: Step) {
    match step
    case NewIncoming(c, b, _) => IsNew(s, c, b)
    case NewOutgoing(c, b, _, _) => IsNew(s, c, b) && !s.quiet
    case Moves(c, _) => Live(s, c)
    case RemoteClose(c, _, _) => Live(s, c)
    case RegistryReset => s.quiet && !s.torn
    case _ => !s.quiet
  }

  function After(s: Calls, step: Step): (r: Calls)
    requires Linked(s) && Enabled(s, step)
    ensures Linked(r)
  {
    match step
    case NewIncoming(c, b, busy) => HandleIncoming(s.(stack := s.stack[c := b]), c, busy)
    case NewOutgoing(c, b, err, busy) => Make(s.(stack := s.stack[c := b]), c, err, busy).0
    case Moves(c, now) => StackMoves(s, c, now)
    case RemoteClose(c, scode, textCode) => Closed(s, c, Terminal(scode, textCode))
    case AppAnswer(id, err, now) => Answer(s, id, err, now).0
    case AppReject(id, outcome) => Reject(s, id, outcome).0
    case AppHangUp(id, outcome) => HangUp(s, id, outcome).0
    case AppHold(id, on, err, takes) => HoldOrResume(s, id, on, err, takes).0
    case AppMute(id, mute) => SetMute(s, id, mute).0
    case ShuttingDown => s.(quiet := true)
    case RegistryReset => Reset(s)
  }

  // ---- the invariant ---------------------------------------------------------

  /** A slot agrees with the stack about its call's identity and hold flag. */
  predicate Agrees(slot: Slot, b: StackCall) {
    && slot.callId == slot.info.callId == Copy(b.id, ID_SIZE) != ""
    && slot.info.isOnHold == b.onHold
    && (slot.info.state == Held <==> b.onHold)
    && slot.info.state != Ending
  }

  predicate SlotOk(slot: Slot, stack: map<Call, StackCall>) {
    match slot.call
    case None => slot == EMPTY_SLOT
    case Some(c) => c in stack && Agrees(slot, stack[c])
  }

  /**
   * A call is released at most once. Until teardown a handler's slot holds the
   * handler's own live call, and each release of such a call freed one slot.
   */
  predicate CallOk(c: Call, b: StackCall, slots: seq<Slot>, torn: bool) {
    && b.slotsFreed <= b.releases <= 1
    && match b.handler
       case UaHandler => b.slotsFreed == 0
       case OmnixHandler(i) =>
         !torn ==>
           && b.slotsFreed == b.releases
           && (b.releases == 0 ==> i < |slots| && slots[i].call == Some(c))
  }

  /** Where a call stands in the order its notes must keep. */
  function Expected(stack: map<Call, StackCall>, c: Call): Shape {
    if c !in stack || stack[c].handler.UaHandler? then Unheard
    else if stack[c].releases == 0 then Open(stack[c].onHold)
    else Done
  }

  predicate SlotsOk(s: Calls) {
    forall i | 0 <= i < |s.slots| :: SlotOk(s.slots[i], s.stack)
  }

  predicate CallsOk(s: Calls) {
    && (s.torn ==> s.quiet)
    && forall c | c in s.stack :: CallOk(c, s.stack[c], s.slots, s.torn)
  }

  ghost predicate Shaped(s: Calls) {
    forall c :: ShapeOf(s.notes, c) != Broken && (!s.quiet ==> ShapeOf(s.notes, c) == Expected(s.stack, c))
  }

  ghost predicate Inv(s: Calls) {
    Linked(s) && SlotsOk(s) && CallsOk(s) && Shaped(s)
  }

  lemma StartInv()
    ensures Inv(START)
  {
  }

  // ---- every step keeps it -----------------------------------------------------

  /** `s` after slot `i` and call `c` were rewritten and `notes` were pushed. */
  function Patch(s: Calls, i: nat, slot: Slot, c: Call, b: StackCall, notes: seq<Note>): Calls
    requires i < |s.slots|
  {
    s.(slots := s.slots[i := slot], stack := s.stack[c := b], notes := notes)
  }

  /** Slot `i` is free or holds `c`, and no other slot holds `c`. */
  predicate Own(s: Calls, i: nat, c: Call) {
    && |s.slots| == CAPACITY && i < CAPACITY
    && (s.slots[i].call == None || s.slots[i].call == Some(c))
    && forall j | 0 <= j < CAPACITY && j != i :: s.slots[j].call != Some(c)
  }

  predicate Fits(slot: Slot, i: nat, c: Call, b: StackCall) {
    if slot.call == None then slot == EMPTY_SLOT
    else slot.call == Some(c) && b.releases == 0 && b.handler == OmnixHandler(i) && Agrees(slot, b)
  }

  lemma PatchSlots(s: Calls, i: nat, slot: Slot, c: Call, b: StackCall, notes: seq<Note>)
    requires Linked(s) && SlotsOk(s) && Own(s, i, c) && Fits(slot, i, c, b) && EntryInRange(b.handler)
    ensures Linked(Patch(s, i, slot, c, b, notes)) && SlotsOk(Patch(s, i, slot, c, b, notes))
  {
  }

  lemma PatchCalls(s: Calls, i: nat, slot: Slot, c: Call, b: StackCall, notes: seq<Note>)
    requires CallsOk(s) && Own(s, i, c) && CallOk(c, b, s.slots[i := slot], s.torn)
    ensures CallsOk(Patch(s, i, slot, c, b, notes))
  {
  }

  lemma PatchShaped(s: Calls, i: nat, slot: Slot, c: Call, b: StackCall, notes: seq<Note>)
    requires Shaped(s) && i < |s.slots|
    requires forall d | d != c :: ShapeOf(notes, d) == ShapeOf(s.notes, d)
    requires ShapeOf(notes, c) != Broken && (!s.quiet ==> ShapeOf(notes, c) == Expected(s.stack[c := b], c))
    ensures Shaped(Patch(s, i, slot, c, b, notes))
  {
  }

  /** A step that rewrites one slot, its call, and says nothing or one thing about that call. */
  lemma PatchInv(s: Calls, i: nat, slot: Slot, c: Call, b: StackCall, info: Info)
    requires Inv(s) && Own(s, i, c) && Fits(slot, i, c, b) && EntryInRange(b.handler)
    requires CallOk(c, b, s.slots[i := slot], s.torn)
    requires !s.quiet ==> Next(Expected(s.stack, c), info.state) == Expected(s.stack[c := b], c) != Broken
    ensures Inv(Patch(s, i, slot, c, b, Told(s, c, info)))
  {
    var notes := Told(s, c, info);
    ShapeSnoc(s.notes, Note(c, info.state, info));
    PatchSlots(s, i, slot, c, b, notes);
    PatchCalls(s, i, slot, c, b, notes);
    PatchShaped(s, i, slot, c, b, notes);
  }

  /** A step that rewrites one call and leaves the slots and the notes alone. */
  lemma StackInv(s: Calls, c: Call, b: StackCall)
    requires Inv(s) && CallOk(c, b, s.slots, s.torn) && EntryInRange(b.handler)
    requires forall j | 0 <= j < CAPACITY && s.slots[j].call == Some(c) :: Fits(s.slots[j], j, c, b)
    requires !s.quiet ==> Expected(s.stack[c := b], c) == Expected(s.stack, c)
    ensures Inv(s.(stack := s.stack[c := b]))
  {
  }

  lemma OwnedBy(s: Calls, i: nat, c: Call)
    requires Linked(s) && i < CAPACITY
    requires s.slots[i].call == Some(c)
    ensures Own(s, i, c) && Live(s, c) && s.stack[c].handler == OmnixHandler(i)
  {
    assert Holds(s, i, c);
  }

  /** Finishing a tracked call: one terminal note, one slot freed, one release. */
  lemma FinalizeInv(s: Calls, i: nat, c: Call, terminal: CallState)
    requires Inv(s) && i < CAPACITY && s.slots[i].call == Some(c)
    requires Live(s, c) && s.stack[c].handler == OmnixHandler(i)
    requires terminal == Ended || terminal == Failed
    ensures Inv(Finalize(s, i, c, terminal))
  {
    OwnedBy(s, i, c);
    var b := s.stack[c];
    var info := InfoFrom(b, s.slots[i].info.isMuted).(state := terminal);
    assert CallOk(c, b, s.slots, s.torn);
    var b' := b.(releases := b.releases + 1, slotsFreed := b.slotsFreed + 1);
    assert CallOk(c, b', s.slots[i := EMPTY_SLOT], s.torn);
    assert Finalize(s, i, c, terminal) == Patch(s, i, EMPTY_SLOT, c, b', Told(s, c, info));
    PatchInv(s, i, EMPTY_SLOT, c, b', info);
  }

  /** Releasing a call no slot holds. */
  lemma DerefInv(s: Calls, c: Call)
    requires Inv(s) && Live(s, c)
    requires forall i | 0 <= i < CAPACITY :: s.slots[i].call != Some(c)
    ensures Inv(Deref(s, c))
  {
    var b := s.stack[c];
    assert CallOk(c, b, s.slots, s.torn);
    StackInv(s, c, b.(releases := b.releases + 1));
  }

  lemma ClosedInv(s: Calls, c: Call, terminal: CallState)
    requires Inv(s) && Live(s, c) && (terminal == Ended || terminal == Failed)
    ensures Inv(Closed(s, c, terminal))
  {
    var h := s.stack[c].handler;
    if h.OmnixHandler? && s.slots[h.entry].call == Some(c) {
      FinalizeInv(s, h.entry, c, terminal);
    } else {
      forall i | 0 <= i < CAPACITY ensures s.slots[i].call != Some(c) {
        if s.slots[i].call == Some(c) { OwnedBy(s, i, c); }
      }
      DerefInv(s, c);
    }
  }

  lemma AdoptInv(s: Calls, c: Call, i: nat, slot: Slot)
    requires Inv(s) && Live(s, c) && s.stack[c].handler == UaHandler && i < CAPACITY
    requires s.slots[i].call == None && FindByPtr(s.slots, Some(c)) == None
    requires slot.call == Some(c) && Agrees(slot, s.stack[c]) && !s.stack[c].onHold
    requires slot.info.state == Incoming || slot.info.state == Outgoing
    ensures Inv(Adopt(s, c, i, slot))
  {
    var b := s.stack[c].(handler := OmnixHandler(i));
    assert CallOk(c, s.stack[c], s.slots, s.torn);
    assert CallOk(c, b, s.slots[i := slot], s.torn);
    PatchInv(s, i, slot, c, b, slot.info);
  }

  lemma Unslotted(s: Calls, c: Call)
    requires Linked(s) && (c !in s.stack || s.stack[c].handler == UaHandler)
    ensures FindByPtr(s.slots, Some(c)) == None
    ensures forall j | 0 <= j < CAPACITY :: s.slots[j].call != Some(c)
  {
    forall j | 0 <= j < CAPACITY ensures s.slots[j].call != Some(c) {
      if s.slots[j].call == Some(c) { OwnedBy(s, j, c); }
    }
  }

  lemma MovesInv(s: Calls, c: Call, now: StackState)
    requires Inv(s) && Live(s, c)
    ensures Inv(StackMoves(s, c, now))
  {
    var b := s.stack[c];
    assert CallOk(c, b, s.slots, s.torn);
    forall j | 0 <= j < CAPACITY && s.slots[j].call == Some(c)
      ensures Fits(s.slots[j], j, c, b.(state := now))
    {
      OwnedBy(s, j, c);
      assert SlotOk(s.slots[j], s.stack);
    }
    StackInv(s, c, b.(state := now));
  }

  lemma HangUpStackInv(s: Calls, c: Call, outcome: HangupOutcome)
    requires Inv(s) && Live(s, c)
    ensures Inv(HangUpStack(s, c, outcome))
  {
    match outcome
    case Silent(_) => MovesInv(s, c, StackTerminated);
    case FiresClosed(scode, textCode) => ClosedInv(s, c, Terminal(scode, textCode));
  }

  lemma NewcomerInv(s: Calls, c: Call, b: StackCall)
    requires Inv(s) && IsNew(s, c, b)
    ensures Inv(s.(stack := s.stack[c := b]))
  {
    Unslotted(s, c);
    StackInv(s, c, b);
  }

  lemma HandleIncomingInv(s: Calls, c: Call, busy: HangupOutcome)
    requires Inv(s) && Live(s, c) && s.stack[c].handler == UaHandler && !s.stack[c].onHold
    ensures Inv(HandleIncoming(s, c, busy))
  {
    Unslotted(s, c);
    match Alloc(s, c)
    case None => HangUpStackInv(s, c, busy);
    case Some((i, slot)) =>
      var info := InfoFrom(s.stack[c], slot.info.isMuted).(state := Incoming, isOutgoing := false);
      AdoptInv(s, c, i, slot.(info := info));
  }

  lemma MakeInv(s: Calls, c: Call, err: Errno, busy: HangupOutcome)
    requires Inv(s) && Live(s, c) && s.stack[c].handler == UaHandler && !s.stack[c].onHold
    ensures Inv(Make(s, c, err, busy).0)
  {
    Unslotted(s, c);
    if s.stack[c].id == "" {
      DerefInv(s, c);
    } else {
      match Alloc(s, c)
      case None => HangUpStackInv(s, c, busy);
      case Some((i, slot)) => AdoptInv(s, c, i, slot.(info := slot.info.(state := Outgoing)));
    }
  }

  /** Rewriting the report of a tracked call, without telling the host. */
  lemma RefreshInv(s: Calls, i: nat, info: Info)
    requires Inv(s) && i < CAPACITY && s.slots[i].call.Some?
    requires Agrees(s.slots[i].(info := info), s.stack[s.slots[i].call.value])
    ensures Inv(s.(slots := s.slots[i := s.slots[i].(info := info)]))
  {
    var c := s.slots[i].call.value;
    OwnedBy(s, i, c);
    var slot := s.slots[i].(info := info);
    var b := s.stack[c];
    assert CallOk(c, b, s.slots, s.torn);
    assert s.stack[c := b] == s.stack;
    PatchSlots(s, i, slot, c, b, s.notes);
    PatchCalls(s, i, slot, c, b, s.notes);
  }

  /** Refreshing the slot of a call from the stack. */
  lemma RefreshFromStack(s: Calls, i: nat, c: Call, muted: bool)
    requires Inv(s) && i < CAPACITY && s.slots[i].call == Some(c)
    ensures c in s.stack && Inv(s.(slots := s.slots[i := s.slots[i].(info := InfoFrom(s.stack[c], muted))]))
  {
    assert SlotOk(s.slots[i], s.stack);
    RefreshInv(s, i, InfoFrom(s.stack[c], muted));
  }

  lemma AnswerInv(s: Calls, id: string, err: Errno, now: StackState)
    requires Inv(s)
    ensures Inv(Answer(s, id, err, now).0)
  {
    match FindById(s.slots, id)
    case None =>
    case Some(i) =>
      var c := s.slots[i].call.value;
      OwnedBy(s, i, c);
      MovesInv(s, c, now);
      RefreshFromStack(StackMoves(s, c, now), i, c, s.slots[i].info.isMuted);
  }

  lemma SetMuteInv(s: Calls, id: string, mute: bool)
    requires Inv(s)
    ensures Inv(SetMute(s, id, mute).0)
  {
    match FindById(s.slots, id)
    case None =>
    case Some(i) =>
      assert SlotOk(s.slots[i], s.stack);
      RefreshInv(s, i, s.slots[i].info.(isMuted := mute));
  }

  /** The stack's flag ended up as asked: the slot and the host follow. */
  lemma HoldTakesInv(s: Calls, i: nat, c: Call, b: StackCall, info: Info)
    requires Inv(s) && i < CAPACITY && s.slots[i].call == Some(c) && Live(s, c)
    requires s.stack[c].handler == OmnixHandler(i)
    requires b == s.stack[c].(onHold := !s.stack[c].onHold)
    requires Agrees(s.slots[i].(info := info), b) && info.state == (if b.onHold then Held else Connected)
    ensures Inv(Patch(s, i, s.slots[i].(info := info), c, b, Told(s, c, info)))
  {
    OwnedBy(s, i, c);
    assert CallOk(c, s.stack[c], s.slots, s.torn);
    var slot := s.slots[i].(info := info);
    assert CallOk(c, b, s.slots[i := slot], s.torn);
    PatchInv(s, i, slot, c, b, info);
  }

  lemma ToggleInv(s: Calls, i: nat, on: bool, err: Errno, takes: bool)
    requires Inv(s) && i < CAPACITY && s.slots[i].call.Some?
    requires s.slots[i].info.state == (if on then Connected else Held)
    ensures Inv(Toggle(s, i, on, err, takes).0)
  {
    var c := s.slots[i].call.value;
    OwnedBy(s, i, c);
    assert SlotOk(s.slots[i], s.stack);
    var was := s.stack[c];
    if takes {
      var b := was.(onHold := on);
      var info := InfoFrom(b, s.slots[i].info.isMuted).(state := if on then Held else Connected, isOnHold := on);
      HoldTakesInv(s, i, c, b, info);
    } else {
      assert s.stack[c := was] == s.stack;
    }
  }

  lemma HoldInv(s: Calls, id: string, on: bool, err: Errno, takes: bool)
    requires Inv(s)
    ensures Inv(HoldOrResume(s, id, on, err, takes).0)
  {
    match FindById(s.slots, id)
    case None =>
    case Some(i) =>
      if s.slots[i].info.state == (if on then Connected else Held) {
        ToggleInv(s, i, on, err, takes);
      }
  }

  lemma ResetInv(s: Calls)
    requires Inv(s) && s.quiet
    ensures Inv(Reset(s))
  {
    forall c | c in s.stack ensures CallOk(c, s.stack[c], Reset(s).slots, true) {
      assert CallOk(c, s.stack[c], s.slots, s.torn);
    }
  }

  // ---- hanging up: one outcome, whether or not CLOSED fires on the way -------------

  lemma SameFirst(a: seq<Slot>, b: seq<Slot>, id: string, i: nat)
    requires |a| == |b| && FindById(a, id) == Some(i)
    requires forall k | 0 <= k < |a| :: HasId(a[k], id) == HasId(b[k], id)
    ensures FindById(b, id) == Some(i)
  {
    assert HasId(b[i], id);
  }

  /** Finalizing from `s1` what `s` tracked: used for both ways a local hangup can end. */
  lemma FinishSilent(s: Calls, s1: Calls, id: string, i: nat, c: Call, terminal: CallState)
    requires Linked(s) && Linked(s1) && FindById(s.slots, id) == Some(i) && s.slots[i].call == Some(c)
    requires forall k | 0 <= k < CAPACITY ::
               s1.slots[k].call == s.slots[k].call && s1.slots[k].callId == s.slots[k].callId
    requires Copy(id, ID_SIZE) == id && Live(s1, c) && s1.stack[c].handler == OmnixHandler(i)
    ensures FinishIfTracked(s1, Copy(id, ID_SIZE), c, terminal) == Finalize(s1, i, c, terminal)
  {
    SameFirst(s.slots, s1.slots, id, i);
  }

  /** After CLOSED ran inside call_hangup the call is no longer in any slot. */
  lemma FinishFired(s1: Calls, id: string, i: nat, c: Call, fired: CallState, terminal: CallState)
    requires Linked(s1) && i < CAPACITY && s1.slots[i].call == Some(c)
    requires Live(s1, c) && s1.stack[c].handler == OmnixHandler(i)
    ensures FinishIfTracked(Finalize(s1, i, c, fired), id, c, terminal) == Finalize(s1, i, c, fired)
  {
    OwnedBy(s1, i, c);
  }

  /** What the call looks like when it is finished. */
  function LastSight(b: StackCall, outcome: HangupOutcome): StackCall {
    if outcome.Silent? then b.(state := StackTerminated) else b
  }

  /** The terminal state; `text` is the code in the text given when the stack stayed silent. */
  function HowItEnds(outcome: HangupOutcome, text: Option<nat>): CallState {
    match outcome
    case Silent(scode) => Terminal(scode, text)
    case FiresClosed(scode, textCode) => Terminal(scode, textCode)
  }

  /** The call as it is released by a local hangup or reject. */
  function Gone(b: StackCall, outcome: HangupOutcome): StackCall {
    LastSight(b, outcome).(releases := b.releases + 1, slotsFreed := b.slotsFreed + 1)
  }

  function FinalInfo(slot: Slot, b: StackCall, terminal: CallState): Info {
    InfoFrom(b, slot.info.isMuted).(state := terminal)
  }

  lemma FinalizeIs(s: Calls, i: nat, c: Call, terminal: CallState)
    requires Linked(s) && i < CAPACITY && s.slots[i].call == Some(c)
    requires Live(s, c) && s.stack[c].handler == OmnixHandler(i)
    ensures var b := s.stack[c];
            Finalize(s, i, c, terminal)
            == Patch(s, i, EMPTY_SLOT, c, b.(releases := b.releases + 1, slotsFreed := b.slotsFreed + 1),
                     Told(s, c, FinalInfo(s.slots[i], b, terminal)))
  {
  }

  lemma FinishSilentIs(s: Calls, s1: Calls, id: string, i: nat, c: Call, scode: nat, ifSilent: CallState)
    requires Linked(s) && Linked(s1) && FindById(s.slots, id) == Some(i) && s.slots[i].call == Some(c)
    requires forall k | 0 <= k < CAPACITY ::
               s1.slots[k].call == s.slots[k].call && s1.slots[k].callId == s.slots[k].callId
    requires Copy(id, ID_SIZE) == id && Live(s1, c) && s1.stack[c].handler == OmnixHandler(i)
    ensures var b := s1.stack[c];
            FinishIfTracked(HangUpStack(s1, c, Silent(scode)), Copy(id, ID_SIZE), c, ifSilent)
            == Patch(s1, i, EMPTY_SLOT, c, Gone(b, Silent(scode)),
                     Told(s1, c, FinalInfo(s1.slots[i], LastSight(b, Silent(scode)), ifSilent)))
  {
    var s2 := StackMoves(s1, c, StackTerminated);
    FinishSilent(s, s2, id, i, c, ifSilent);
    FinalizeIs(s2, i, c, ifSilent);
  }

  lemma FinishFiredIs(s1: Calls, id: string, i: nat, c: Call, scode: nat, textCode: Option<nat>, ifSilent: CallState)
    requires Linked(s1) && i < CAPACITY && s1.slots[i].call == Some(c)
    requires Live(s1, c) && s1.stack[c].handler == OmnixHandler(i)
    ensures var b := s1.stack[c]; var outcome := FiresClosed(scode, textCode);
            FinishIfTracked(HangUpStack(s1, c, outcome), Copy(id, ID_SIZE), c, ifSilent)
            == Patch(s1, i, EMPTY_SLOT, c, Gone(b, outcome),
                     Told(s1, c, FinalInfo(s1.slots[i], b, Terminal(scode, textCode))))
  {
    FinishFired(s1, Copy(id, ID_SIZE), i, c, Terminal(scode, textCode), ifSilent);
    FinalizeIs(s1, i, c, Terminal(scode, textCode));
  }

  lemma FinishIs(s: Calls, s1: Calls, id: string, i: nat, c: Call, outcome: HangupOutcome, text: Option<nat>)
    requires Linked(s) && Linked(s1) && SlotsOk(s) && FindById(s.slots, id) == Some(i) && s.slots[i].call == Some(c)
    requires forall k | 0 <= k < CAPACITY ::
               s1.slots[k].call == s.slots[k].call && s1.slots[k].callId == s.slots[k].callId
    requires s1.stack == s.stack
    ensures Live(s1, c) && s1.stack[c].handler == OmnixHandler(i)
    ensures FinishIfTracked(HangUpStack(s1, c, outcome), Copy(id, ID_SIZE), c, Terminal(outcome.scode, text))
            == Patch(s1, i, EMPTY_SLOT, c, Gone(s.stack[c], outcome),
                     Told(s1, c, FinalInfo(s1.slots[i], LastSight(s.stack[c], outcome), HowItEnds(outcome, text))))
  {
    OwnedBy(s, i, c);
    assert SlotOk(s.slots[i], s.stack);
    match outcome
    case Silent(scode) =>
      FinishSilentIs(s, s1, id, i, c, scode, Terminal(scode, text));
    case FiresClosed(scode, textCode) =>
      FinishFiredIs(s1, id, i, c, scode, textCode, Terminal(scode, text));
  }

  /**
   * CLOSED from the stack as a step of its own: the call is released, its own slot is
   * freed, and the host hears FAILED for a failure code, given by the stack or leading
   * the text of the event as 300 to 699, and ENDED otherwise.
   */
  lemma RemoteCloseEnds(s: Calls, i: nat, c: Call, scode: nat, textCode: Option<nat>)
    requires Inv(s) && i < CAPACITY && s.slots[i].call == Some(c)
    ensures Own(s, i, c) && Live(s, c)
    ensures var b := s.stack[c];
            var failed := scode != 0 || (textCode.Some? && 300 <= textCode.value <= 699);
            After(s, RemoteClose(c, scode, textCode))
            == Patch(s, i, EMPTY_SLOT, c, b.(releases := b.releases + 1, slotsFreed := b.slotsFreed + 1),
                     Told(s, c, FinalInfo(s.slots[i], b, if failed then Failed else Ended)))
  {
    OwnedBy(s, i, c);
    FinalizeIs(s, i, c, Terminal(scode, textCode));
  }

  /**
   * omnix_call_hangup: whether or not the stack fires CLOSED before call_hangup
   * returns, the call is released once, its own slot is freed, no other slot or call
   * changes, and the host hears ENDING and one terminal state with the current mute:
   * FAILED for a code of the stack or in the text of the event, ENDED otherwise.
   */
  lemma HangUpEnds(s: Calls, id: string, outcome: HangupOutcome, i: nat)
    requires Inv(s) && FindById(s.slots, id) == Some(i)
    ensures HowItEnds(outcome, None) ==
            if outcome.scode != 0
               || (outcome.FiresClosed? && outcome.textCode.Some? && 300 <= outcome.textCode.value <= 699)
            then Failed else Ended
    ensures var c := s.slots[i].call.value; var end := HowItEnds(outcome, None);
            HangUp(s, id, outcome) ==
            (Patch(s, i, EMPTY_SLOT, c, Gone(s.stack[c], outcome),
                   if s.quiet then s.notes
                   else s.notes + [Note(c, Ending, s.slots[i].info.(state := Ending))]
                        + [Note(c, end, FinalInfo(s.slots[i], LastSight(s.stack[c], outcome), end))]), Ok)
  {
    var c := s.slots[i].call.value;
    var s1 := MarkEnding(s, i);
    FinishIs(s, s1, id, i, c, outcome, None);
    assert s1.slots[i := EMPTY_SLOT] == s.slots[i := EMPTY_SLOT];
  }

  /** omnix_call_reject: the same, without ENDING, and FAILED when the stack stays silent. */
  lemma RejectEnds(s: Calls, id: string, outcome: HangupOutcome, i: nat)
    requires Inv(s) && FindById(s.slots, id) == Some(i)
    ensures outcome.Silent? ==> HowItEnds(outcome, Some(486)) == Failed
    ensures var c := s.slots[i].call.value; var end := HowItEnds(outcome, Some(486));
            Reject(s, id, outcome) ==
            (Patch(s, i, EMPTY_SLOT, c, Gone(s.stack[c], outcome),
                   Told(s, c, FinalInfo(s.slots[i], LastSight(s.stack[c], outcome), end))), Ok)
  {
    var c := s.slots[i].call.value;
    FinishIs(s, s, id, i, c, outcome, Some(486));
  }

  lemma GoneOk(s: Calls, i: nat, c: Call, outcome: HangupOutcome)
    requires Inv(s) && i < CAPACITY && s.slots[i].call == Some(c)
    ensures Own(s, i, c) && Live(s, c) && s.stack[c].handler == OmnixHandler(i)
    ensures CallOk(c, Gone(s.stack[c], outcome), s.slots[i := EMPTY_SLOT], s.torn)
  {
    OwnedBy(s, i, c);
    assert CallOk(c, s.stack[c], s.slots, s.torn);
  }

  lemma RejectInv(s: Calls, id: string, outcome: HangupOutcome)
    requires Inv(s)
    ensures Inv(Reject(s, id, outcome).0)
  {
    match FindById(s.slots, id)
    case None =>
    case Some(i) =>
      var c := s.slots[i].call.value;
      RejectEnds(s, id, outcome, i);
      GoneOk(s, i, c, outcome);
      PatchInv(s, i, EMPTY_SLOT, c, Gone(s.stack[c], outcome),
               FinalInfo(s.slots[i], LastSight(s.stack[c], outcome), HowItEnds(outcome, Some(486))));
  }

  lemma TwoNotes(s: Calls, c: Call, one: Note, two: Note)
    requires one.call == two.call == c
    ensures forall d | d != c :: ShapeOf(s.notes + [one] + [two], d) == ShapeOf(s.notes, d)
    ensures ShapeOf(s.notes + [one] + [two], c) == Next(Next(ShapeOf(s.notes, c), one.state), two.state)
  {
    ShapeSnoc(s.notes, one);
    ShapeSnoc(s.notes + [one], two);
  }

  lemma HangUpShaped(s: Calls, i: nat, c: Call, outcome: HangupOutcome, one: Note, two: Note)
    requires Inv(s) && i < CAPACITY && s.slots[i].call == Some(c) && one.call == two.call == c && !s.quiet
    requires one.state == Ending && (two.state == Ended || two.state == Failed)
    ensures Live(s, c)
    ensures Shaped(Patch(s, i, EMPTY_SLOT, c, Gone(s.stack[c], outcome), s.notes + [one] + [two]))
  {
    OwnedBy(s, i, c);
    TwoNotes(s, c, one, two);
    PatchShaped(s, i, EMPTY_SLOT, c, Gone(s.stack[c], outcome), s.notes + [one] + [two]);
  }

  lemma HangUpInv(s: Calls, id: string, outcome: HangupOutcome)
    requires Inv(s)
    ensures Inv(HangUp(s, id, outcome).0)
  {
    match FindById(s.slots, id)
    case None =>
    case Some(i) =>
      var c := s.slots[i].call.value;
      HangUpEnds(s, id, outcome, i);
      GoneOk(s, i, c, outcome);
      var r := HangUp(s, id, outcome).0;
      PatchSlots(s, i, EMPTY_SLOT, c, Gone(s.stack[c], outcome), r.notes);
      PatchCalls(s, i, EMPTY_SLOT, c, Gone(s.stack[c], outcome), r.notes);
      if s.quiet {
        PatchShaped(s, i, EMPTY_SLOT, c, Gone(s.stack[c], outcome), s.notes);
      } else {
        var end := HowItEnds(outcome, None);
        HangUpShaped(s, i, c, outcome, Note(c, Ending, s.slots[i].info.(state := Ending)),
                     Note(c, end, FinalInfo(s.slots[i], LastSight(s.stack[c], outcome), end)));
      }
  }

  lemma StepInv(s: Calls, step: Step)
    requires Inv(s) && Enabled(s, step)
    ensures Inv(After(s, step))
  {
    match step
    case NewIncoming(c, b, busy) =>
      NewcomerInv(s, c, b);
      HandleIncomingInv(s.(stack := s.stack[c := b]), c, busy);
    case NewOutgoing(c, b, err, busy) =>
      NewcomerInv(s, c, b);
      MakeInv(s.(stack := s.stack[c := b]), c, err, busy);
    case Moves(c, now) => MovesInv(s, c, now);
    case RemoteClose(c, scode, textCode) => ClosedInv(s, c, Terminal(scode, textCode));
    case AppAnswer(id, err, now) => AnswerInv(s, id, err, now);
    case AppReject(id, outcome) => RejectInv(s, id, outcome);
    case AppHangUp(id, outcome) => HangUpInv(s, id, outcome);
    case AppHold(id, on, err, takes) => HoldInv(s, id, on, err, takes);
    case AppMute(id, mute) => SetMuteInv(s, id, mute);
    case ShuttingDown =>
    case RegistryReset => ResetInv(s);
  }
}
