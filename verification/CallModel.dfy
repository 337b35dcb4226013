/**
 * The call registry and call lifecycle of cpp/src/omnix_call.c, as functions on
 * a value. CallEngine.dfy holds the class whose methods change an array of slots
 * in place and are proved equal to these functions.
 *
 * The SIP stack is the environment: what it decides (does a hangup fire CLOSED
 * before it returns, does a hold request take effect) arrives as arguments.
 */
module CallModel {
  import opened Wrappers
  import opened Text

  const CAPACITY: nat := 8
  const ID_SIZE: nat := 128
  const URI_SIZE: nat := 256
  const NAME_SIZE: nat := 128

  /** The identity of one stack call; stands for its address. */
  type Call = nat

  datatype CallState =
    | Idle | Outgoing | Incoming | Ringing | EarlyMedia
    | Connected | Held | Ending | Ended | Failed

  datatype StackState =
    | StackIdle | StackIncoming | StackOutgoing | StackRinging | StackEarly
    | StackEstablished | StackTerminated | StackTransfer | StackUnknown

  /** Who receives a call's events; an Omnix handler carries a slot index as its argument. */
  datatype Handler = UaHandler | OmnixHandler(entry: nat)

  /**
   * A call of the stack. `releases` counts the mem_deref calls on it and `slotsFreed`
   * the slots freed on its behalf; a call that has been released is freed memory and
   * no operation may read it again.
   */
  datatype StackCall = StackCall(id: string, peerUri: string, peerName: string, outgoing: bool,
                                 onHold: bool, state: StackState, handler: Handler,
                                 releases: nat, slotsFreed: nat)

  datatype Info = Info(callId: string, peerUri: string, peerName: string, state: CallState,
                       isOutgoing: bool, isMuted: bool, isOnHold: bool)

  datatype Slot = Slot(callId: string, call: Option<Call>, info: Info)

  /** What omnix_events_notify_call_state hands to the queue, tagged with the call it is about. */
  datatype Note = Note(call: Call, state: CallState, info: Info)

  datatype Errno = NoError | EINVAL | EAGAIN | EACCES | ENOMEM | EPROTO | OtherErrno

  datatype Error = Ok | InvalidState | InvalidConfig | CallBusy | CallFailed | PermissionDenied | Internal

  /**
   * What call_hangup does before it returns: nothing, or one CLOSED event; `scode` is
   * what call_scode answers from then on.
   */
  datatype HangupOutcome = Silent(scode: nat) | FiresClosed(scode: nat, textCode: Option<nat>)

  const ZERO_INFO := Info("", "", "", Idle, false, false, false)
  const EMPTY_SLOT := Slot("", None, ZERO_INFO)

  /**
   * `quiet` is shutting_down; `torn` records that the registry was reset during a
   * shutdown; `notes` are all notifications pushed so far.
   */
  datatype Calls = Calls(slots: seq<Slot>, stack: map<Call, StackCall>, notes: seq<Note>, quiet: bool, torn: bool)

  /** g_calls after memset. */
  const BLANK: seq<Slot> :=
    [EMPTY_SLOT, EMPTY_SLOT, EMPTY_SLOT, EMPTY_SLOT, EMPTY_SLOT, EMPTY_SLOT, EMPTY_SLOT, EMPTY_SLOT]

  const START := Calls(BLANK, map[], [], false, false)

  predicate Live(s: Calls, c: Call) {
    c in s.stack && s.stack[c].releases == 0
  }

  /** Slot `i` holds `c`, which is live and has that very slot as its handler's argument. */
  predicate Holds(s: Calls, i: nat, c: Call) {
    Live(s, c) && s.stack[c].handler == OmnixHandler(i)
  }

  /**
   * What every operation needs and keeps: slots refer to live calls only, and handlers
   * to existing slots only. It is why no operation reads a released call.
   */
  predicate Linked(s: Calls) {
    && |s.slots| == CAPACITY
    && (forall i | 0 <= i < CAPACITY && s.slots[i].call.Some? :: Holds(s, i, s.slots[i].call.value))
    && (forall c | c in s.stack :: EntryInRange(s.stack[c].handler))
  }

  predicate EntryInRange(h: Handler) {
    h.OmnixHandler? ==> h.entry < CAPACITY
  }

  // ---- lookups -------------------------------------------------------------

  predicate HasId(slot: Slot, id: string) {
    slot.call.Some? && slot.callId != "" && slot.callId == id
  }

  function FindById(slots: seq<Slot>, id: string, from: nat := 0): (r: Option<nat>)
    requires from <= |slots|
    ensures r.Some? ==> from <= r.value < |slots| && HasId(slots[r.value], id)
                        && forall j | from <= j < r.value :: !HasId(slots[j], id)
    ensures r.None? ==> forall j | from <= j < |slots| :: !HasId(slots[j], id)
    decreases |slots| - from
  {
    if from == |slots| then None
    else if HasId(slots[from], id) then Some(from)
    else FindById(slots, id, from + 1)
  }

  /** The first slot whose call field is `want`: a call, or None for a free slot. */
  function FindByPtr(slots: seq<Slot>, want: Option<Call>, from: nat := 0): (r: Option<nat>)
    requires from <= |slots|
    ensures r.Some? ==> from <= r.value < |slots| && slots[r.value].call == want
                        && forall j | from <= j < r.value :: slots[j].call != want
    ensures r.None? ==> forall j | from <= j < |slots| :: slots[j].call != want
    decreases |slots| - from
  {
    if from == |slots| then None
    else if slots[from].call == want then Some(from)
    else FindByPtr(slots, want, from + 1)
  }

  // ---- primitives ----------------------------------------------------------

  function MapState(b: StackCall): CallState {
    if b.onHold then Held else
    match b.state
    case StackIdle => Idle
    case StackIncoming => Incoming
    case StackOutgoing => Outgoing
    case StackRinging => Ringing
    case StackEarly => EarlyMedia
    case StackEstablished => Connected
    case StackTerminated => Ended
    case StackTransfer => Idle
    case StackUnknown => Idle
  }

  function InfoFrom(b: StackCall, muted: bool): Info {
    Info(Copy(b.id, ID_SIZE), Copy(b.peerUri, URI_SIZE), Copy(b.peerName, NAME_SIZE),
         MapState(b), b.outgoing, muted, b.onHold)
  }

  /** The notifications pushed once `info` has been reported for `c`. */
  function Told(s: Calls, c: Call, info: Info): seq<Note> {
    if s.quiet then s.notes else s.notes + [Note(c, info.state, info)]
  }

  /** omnix_alloc_call_slot: the slot chosen for `c` and what it then holds. */
  function Alloc(s: Calls, c: Call): (r: Option<(nat, Slot)>)
    requires Linked(s) && Live(s, c)
    ensures r.Some? ==> r.value.0 < CAPACITY && r.value.1.call == Some(c)
    ensures r.Some? ==> s.slots[r.value.0].call == Some(c)
                        || (s.slots[r.value.0].call == None && FindByPtr(s.slots, Some(c)) == None)
    ensures r.None? ==> FindByPtr(s.slots, Some(c)) == None
  {
    var b := s.stack[c];
    match FindByPtr(s.slots, Some(c))
    case Some(i) => Some((i, Slot(Copy(b.id, ID_SIZE), Some(c), InfoFrom(b, s.slots[i].info.isMuted))))
    case None =>
      if b.id == "" || FindById(s.slots, b.id).Some? then None
      else
        match FindByPtr(s.slots, None)
        case None => None
        case Some(i) => Some((i, Slot(Copy(b.id, ID_SIZE), Some(c), InfoFrom(b, false))))
  }

  /** Put `slot` in place, point the call's handler at it, and report the call. */
  function Adopt(s: Calls, c: Call, i: nat, slot: Slot): (r: Calls)
    requires Linked(s) && Live(s, c) && i < CAPACITY && slot.call == Some(c)
    requires s.slots[i].call == Some(c)
             || (s.slots[i].call == None && FindByPtr(s.slots, Some(c)) == None)
    ensures Linked(r)
  {
    s.(slots := s.slots[i := slot],
       stack := s.stack[c := s.stack[c].(handler := OmnixHandler(i))],
       notes := Told(s, c, slot.info))
  }

  // ---- events from the stack -----------------------------------------------

  function SipCode(scode: nat, textCode: Option<nat>): nat {
    if scode != 0 then scode
    else if textCode.Some? && 300 <= textCode.value <= 699 then textCode.value
    else 0
  }

  function Terminal(scode: nat, textCode: Option<nat>): CallState {
    if SipCode(scode, textCode) != 0 then Failed else Ended
  }

  /** omnix_call_finalize_closed: tell the host, free the slot, release the call. */
  function Finalize(s: Calls, i: nat, c: Call, terminal: CallState): (r: Calls)
    requires Linked(s) && i < CAPACITY && Live(s, c)
    requires s.stack[c].handler == OmnixHandler(i)
    ensures Linked(r)
  {
    if s.slots[i].call == Some(c) then
      var info := InfoFrom(s.stack[c], s.slots[i].info.isMuted).(state := terminal);
      s.(slots := s.slots[i := EMPTY_SLOT],
         stack := s.stack[c := s.stack[c].(releases := s.stack[c].releases + 1,
                                           slotsFreed := s.stack[c].slotsFreed + 1)],
         notes := Told(s, c, info))
    else
      Deref(s, c)
  }

  function Deref(s: Calls, c: Call): (r: Calls)
    requires Linked(s) && Live(s, c)
    requires forall i | 0 <= i < CAPACITY :: s.slots[i].call != Some(c)
    ensures Linked(r)
  {
    s.(stack := s.stack[c := s.stack[c].(releases := s.stack[c].releases + 1)])
  }

  /** CALL_EVENT_CLOSED, received by whichever handler the call has. */
  function Closed(s: Calls, c: Call, terminal: CallState): (r: Calls)
    requires Linked(s) && Live(s, c)
    ensures Linked(r)
  {
    match s.stack[c].handler
    case UaHandler => Deref(s, c)
    case OmnixHandler(i) => Finalize(s, i, c, terminal)
  }

  function HangUpStack(s: Calls, c: Call, outcome: HangupOutcome): (r: Calls)
    requires Linked(s) && Live(s, c)
    ensures Linked(r)
  {
    match outcome
    case Silent(_) => StackMoves(s, c, StackTerminated)
    case FiresClosed(scode, textCode) => Closed(s, c, Terminal(scode, textCode))
  }

  /** RINGING, PROGRESS, ANSWERED, ESTABLISHED, TRANSFER, MENC: the handler leaves the slot alone. */
  function StackMoves(s: Calls, c: Call, now: StackState): (r: Calls)
    requires Linked(s) && Live(s, c)
    ensures Linked(r)
  {
    s.(stack := s.stack[c := s.stack[c].(state := now)])
  }

  function HandleIncoming(s: Calls, c: Call, busy: HangupOutcome): (r: Calls)
    requires Linked(s) && Live(s, c)
    ensures Linked(r)
  {
    match Alloc(s, c)
    case None => HangUpStack(s, c, busy)
    case Some((i, slot)) =>
      var info := InfoFrom(s.stack[c], slot.info.isMuted).(state := Incoming, isOutgoing := false);
      Adopt(s, c, i, slot.(info := info))
  }

  /** OUTGOING or INCOMING fired again for a call that already has the Omnix handler. */
  function Refire(s: Calls, i: nat, c: Call, st: CallState): (r: Calls)
    requires Linked(s) && i < CAPACITY && Live(s, c)
    ensures Linked(r)
  {
    var seen := InfoFrom(s.stack[c], s.slots[i].info.isMuted);
    var info := seen.(state := st, isOutgoing := if st == Incoming then false else seen.isOutgoing);
    s.(slots := s.slots[i := s.slots[i].(info := info)], notes := Told(s, c, info))
  }

  // ---- calls from the application --------------------------------------------

  function MapConnectErr(err: Errno): Error {
    match err
    case NoError => Ok
    case EINVAL => InvalidConfig
    case EACCES => PermissionDenied
    case ENOMEM => Internal
    case _ => CallFailed
  }

  /** omnix_call_make from the point where the stack has returned the call `c`. */
  function Make(s: Calls, c: Call, err: Errno, busy: HangupOutcome): (r: (Calls, Error))
    requires Linked(s) && Live(s, c) && s.stack[c].handler.UaHandler?
    ensures Linked(r.0)
  {
    if s.stack[c].id == "" then
      (Deref(s, c), MapConnectErr(if err == NoError then EPROTO else err))
    else
      match Alloc(s, c)
      case None => (HangUpStack(s, c, busy), CallBusy)
      case Some((i, slot)) => (Adopt(s, c, i, slot.(info := slot.info.(state := Outgoing))), Ok)
  }

  function Answer(s: Calls, id: string, err: Errno, now: StackState): (r: (Calls, Error))
    requires Linked(s)
    ensures Linked(r.0)
  {
    match FindById(s.slots, id)
    case None => (s, InvalidState)
    case Some(i) =>
      var c := s.slots[i].call.value;
      var s1 := StackMoves(s, c, now);
      if err == EINVAL || err == EAGAIN then (s1, InvalidState)
      else if err != NoError then (s1, CallFailed)
      else
        var info := InfoFrom(s1.stack[c], s.slots[i].info.isMuted);
        (s1.(slots := s.slots[i := s.slots[i].(info := info)]), Ok)
  }

  /** Look the identifier up again after call_hangup; finish the call if it is still tracked. */
  function FinishIfTracked(s: Calls, id: string, c: Call, terminal: CallState): (r: Calls)
    requires Linked(s)
    ensures Linked(r)
  {
    match FindById(s.slots, id)
    case None => s
    case Some(i) => if s.slots[i].call == Some(c) then Finalize(s, i, c, terminal) else s
  }

  function Reject(s: Calls, id: string, outcome: HangupOutcome): (r: (Calls, Error))
    requires Linked(s)
    ensures Linked(r.0)
  {
    match FindById(s.slots, id)
    case None => (s, InvalidState)
    case Some(i) =>
      var c := s.slots[i].call.value;
      (FinishIfTracked(HangUpStack(s, c, outcome), Copy(id, ID_SIZE), c, Terminal(outcome.scode, Some(486))), Ok)
  }

  function MarkEnding(s: Calls, i: nat): (r: Calls)
    requires Linked(s) && i < CAPACITY && s.slots[i].call.Some?
    ensures Linked(r)
  {
    var info := s.slots[i].info.(state := Ending);
    s.(slots := s.slots[i := s.slots[i].(info := info)], notes := Told(s, s.slots[i].call.value, info))
  }

  function HangUp(s: Calls, id: string, outcome: HangupOutcome): (r: (Calls, Error))
    requires Linked(s)
    ensures Linked(r.0)
  {
    match FindById(s.slots, id)
    case None => (s, InvalidState)
    case Some(i) =>
      var c := s.slots[i].call.value;
      var s1 := HangUpStack(MarkEnding(s, i), c, outcome);
      (FinishIfTracked(s1, Copy(id, ID_SIZE), c, Terminal(outcome.scode, None)), Ok)
  }

  /** The stack was asked for hold (`on`) or resume; `takes` says whether its flag is now as asked. */
  function Toggle(s: Calls, i: nat, on: bool, err: Errno, takes: bool): (r: (Calls, Error))
    requires Linked(s) && i < CAPACITY && s.slots[i].call.Some?
    ensures Linked(r.0)
  {
    assert Holds(s, i, s.slots[i].call.value);
    var c := s.slots[i].call.value;
    var b := s.stack[c].(onHold := if takes then on else s.stack[c].onHold);
    if b.onHold == on then
      var info := InfoFrom(b, s.slots[i].info.isMuted).(state := if on then Held else Connected, isOnHold := on);
      (s.(stack := s.stack[c := b], slots := s.slots[i := s.slots[i].(info := info)], notes := Told(s, c, info)), Ok)
    else (s.(stack := s.stack[c := b]), if err == EINVAL then InvalidState else CallFailed)
  }

  /** omnix_call_hold (`on`, from CONNECTED only) and omnix_call_resume (from HELD only). */
  function HoldOrResume(s: Calls, id: string, on: bool, err: Errno, takes: bool): (r: (Calls, Error))
    requires Linked(s)
    ensures Linked(r.0)
  {
    match FindById(s.slots, id)
    case None => (s, InvalidState)
    case Some(i) =>
      if s.slots[i].info.state != (if on then Connected else Held) then (s, InvalidState)
      else Toggle(s, i, on, err, takes)
  }

  function SetMute(s: Calls, id: string, mute: bool): (r: (Calls, Error))
    requires Linked(s)
    ensures Linked(r.0)
  {
    match FindById(s.slots, id)
    case None => (s, InvalidState)
    case Some(i) =>
      var slot := s.slots[i].(info := s.slots[i].info.(isMuted := mute));
      (s.(slots := s.slots[i := slot]), Ok)
  }

  /** omnix_call_registry_reset during omnix_shutdown. */
  function Reset(s: Calls): (r: Calls)
    requires Linked(s)
    ensures Linked(r)
  {
    s.(slots := BLANK, torn := true)
  }
}
