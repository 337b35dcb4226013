/**
 * What each call operation answers and leaves behind, field by field: no clause here
 * names the function that a step is made of.
 */
module CallOutcomes {
  import opened Wrappers
  import opened Text
  import opened CallModel
  import opened CallRuns

  /** All slots but `i` and all calls but `c` are as they were. */
  predicate OnlyTouches(s: Calls, r: Calls, i: nat, c: Call) {
    && |r.slots| == |s.slots| && (forall j | 0 <= j < |s.slots| && j != i :: r.slots[j] == s.slots[j])
    && (forall d | d in s.stack && d != c :: d in r.stack && r.stack[d] == s.stack[d])
    && r.quiet == s.quiet && r.torn == s.torn
  }

  /** One more note, about `c` and with this report, unless shutting down. */
  predicate Tells(s: Calls, r: Calls, c: Call, info: Info) {
    r.notes == if s.quiet then s.notes else s.notes + [Note(c, info.state, info)]
  }

  // ---- hold and resume ---------------------------------------------------------------

  /**
   * Hold of a connected call, or resume of a held one, that the stack takes: the stack's
   * flag, the slot's state and flag and the note all say so, and nothing else changes.
   */
  lemma HoldTakes(s: Calls, id: string, i: nat, on: bool, err: Errno)
    requires Inv(s) && FindById(s.slots, id) == Some(i)
    requires s.slots[i].info.state == if on then Connected else Held
    ensures var c := s.slots[i].call.value;
            var (r, e) := HoldOrResume(s, id, on, err, true);
            && e == Ok && c in s.stack && OnlyTouches(s, r, i, c)
            && r.stack == s.stack[c := s.stack[c].(onHold := on)]
            && r.slots[i].call == Some(c) && r.slots[i].callId == s.slots[i].callId
            && r.slots[i].info.state == (if on then Held else Connected)
            && r.slots[i].info.isOnHold == on && r.slots[i].info.isMuted == s.slots[i].info.isMuted
            && Tells(s, r, c, r.slots[i].info)
  {
    OwnedBy(s, i, s.slots[i].call.value);
  }

  /** One that the stack does not take changes nothing; the error is InvalidState exactly for EINVAL. */
  lemma HoldFails(s: Calls, id: string, i: nat, on: bool, err: Errno)
    requires Inv(s) && FindById(s.slots, id) == Some(i)
    requires s.slots[i].info.state == if on then Connected else Held
    ensures HoldOrResume(s, id, on, err, false) == (s, if err == EINVAL then InvalidState else CallFailed)
  {
    var c := s.slots[i].call.value;
    OwnedBy(s, i, c);
    assert SlotOk(s.slots[i], s.stack);
    assert s.stack[c := s.stack[c]] == s.stack;
  }

  /** Hold is for connected calls only, and resume for held ones. */
  lemma HoldRefused(s: Calls, id: string, on: bool, err: Errno, takes: bool)
    requires Inv(s)
    requires var found := FindById(s.slots, id);
             found.None? || s.slots[found.value].info.state != if on then Connected else Held
    ensures HoldOrResume(s, id, on, err, takes) == (s, InvalidState)
  {
  }

  // ---- answer ------------------------------------------------------------------------

  /** What the host is told of a call in this state of the stack. */
  function Shown(now: StackState, onHold: bool): CallState {
    if onHold then Held
    else if now == StackIncoming then Incoming
    else if now == StackOutgoing then Outgoing
    else if now == StackRinging then Ringing
    else if now == StackEarly then EarlyMedia
    else if now == StackEstablished then Connected
    else if now == StackTerminated then Ended
    else Idle
  }

  lemma AnswerIs(s: Calls, id: string, i: nat, now: StackState)
    requires Inv(s) && FindById(s.slots, id) == Some(i)
    ensures var c := s.slots[i].call.value;
            && Live(s, c)
            && var b := s.stack[c].(state := now);
               Answer(s, id, NoError, now) ==
               (s.(stack := s.stack[c := b],
                   slots := s.slots[i := s.slots[i].(info := InfoFrom(b, s.slots[i].info.isMuted))]), Ok)
  {
    OwnedBy(s, i, s.slots[i].call.value);
  }

  lemma ShownIs(b: StackCall, muted: bool)
    ensures InfoFrom(b, muted).state == Shown(b.state, b.onHold)
  {
  }

  /** A successful answer refreshes the slot from the stack: an established call is connected. */
  lemma AnswerTakes(s: Calls, id: string, i: nat, now: StackState)
    requires Inv(s) && FindById(s.slots, id) == Some(i)
    ensures var c := s.slots[i].call.value;
            var (r, e) := Answer(s, id, NoError, now);
            && e == Ok && c in s.stack && OnlyTouches(s, r, i, c)
            && r.stack == s.stack[c := s.stack[c].(state := now)] && r.notes == s.notes
            && r.slots[i].call == Some(c) && r.slots[i].callId == s.slots[i].callId
            && r.slots[i].info.state == Shown(now, s.stack[c].onHold)
            && r.slots[i].info.isOnHold == s.stack[c].onHold
            && r.slots[i].info.isMuted == s.slots[i].info.isMuted
  {
    AnswerIs(s, id, i, now);
    ShownIs(s.stack[s.slots[i].call.value].(state := now), s.slots[i].info.isMuted);
  }

  /** Any error leaves slots and notes alone; InvalidState exactly for EINVAL and EAGAIN. */
  lemma AnswerFails(s: Calls, id: string, i: nat, err: Errno, now: StackState)
    requires Inv(s) && FindById(s.slots, id) == Some(i) && err != NoError
    ensures var c := s.slots[i].call.value;
            var (r, e) := Answer(s, id, err, now);
            && c in s.stack && r == s.(stack := s.stack[c := s.stack[c].(state := now)])
            && e == if err == EINVAL || err == EAGAIN then InvalidState else CallFailed
  {
    OwnedBy(s, i, s.slots[i].call.value);
  }

  // ---- mute, and identifiers that are not there --------------------------------------------

  lemma MuteTakes(s: Calls, id: string, i: nat, mute: bool)
    requires Inv(s) && FindById(s.slots, id) == Some(i)
    ensures var (r, e) := SetMute(s, id, mute);
            && e == Ok && OnlyTouches(s, r, i, s.slots[i].call.value)
            && r.stack == s.stack && r.notes == s.notes
            && r.slots[i].call == s.slots[i].call && r.slots[i].callId == s.slots[i].callId
            && r.slots[i].info.isMuted == mute
            && r.slots[i].info.(isMuted := s.slots[i].info.isMuted) == s.slots[i].info
  {
  }

  /** Every operation refuses an identifier that no slot has, the empty one included, and changes nothing. */
  lemma UnknownIsRefused(s: Calls, id: string, err: Errno, now: StackState, outcome: HangupOutcome, on: bool)
    requires Inv(s) && forall j | 0 <= j < |s.slots| && s.slots[j].call.Some? :: s.slots[j].callId != id
    ensures Answer(s, id, err, now) == (s, InvalidState)
    ensures Reject(s, id, outcome) == (s, InvalidState)
    ensures HangUp(s, id, outcome) == (s, InvalidState)
    ensures HoldOrResume(s, id, on, err, on) == (s, InvalidState)
    ensures SetMute(s, id, on) == (s, InvalidState)
  {
    assert FindById(s.slots, id) == None;
  }

  // ---- new calls ---------------------------------------------------------------------

  /** The lowest free slot. */
  predicate FirstFree(s: Calls, i: nat) {
    i < |s.slots| && s.slots[i].call == None && forall j | 0 <= j < i :: s.slots[j].call.Some?
  }

  /** A slot is free and the identifier is one that no slot has. */
  predicate Welcome(s: Calls, id: string) {
    && id != "" && (forall j | 0 <= j < |s.slots| && s.slots[j].call.Some? :: s.slots[j].callId != id)
    && exists j | 0 <= j < |s.slots| :: s.slots[j].call == None
  }

  lemma WelcomeIs(s: Calls, id: string)
    requires |s.slots| == CAPACITY && SlotsOk(s)
    ensures var i := FindByPtr(s.slots, None);
            Welcome(s, id) <==> id != "" && FindById(s.slots, id) == None && i.Some? && FirstFree(s, i.value)
  {
  }

  /** The new call's slot and handler: identifier cut to 127 characters, not muted. */
  predicate Adopted(s: Calls, r: Calls, i: nat, c: Call, b: StackCall) {
    && i < |s.slots| == |r.slots| && OnlyTouches(s, r, i, c)
    && r.stack == s.stack[c := b.(handler := OmnixHandler(i))]
    && r.slots[i].call == Some(c) && r.slots[i].callId == b.id[..if |b.id| < 128 then |b.id| else 127]
    && !r.slots[i].info.isMuted && r.slots[i].info.isOnHold == b.onHold
    && Tells(s, r, c, r.slots[i].info)
  }

  /** The new call was hung up, its end told to nobody: it holds no slot. */
  predicate TurnedAway(s: Calls, r: Calls, c: Call, b: StackCall, busy: HangupOutcome) {
    r == s.(stack := s.stack[c := if busy.Silent? then b.(state := StackTerminated) else b.(releases := 1)])
  }

  /** What finding no room, or a slot, means for the call just created. */
  lemma Newcomer(s: Calls, c: Call, b: StackCall)
    requires Inv(s) && IsNew(s, c, b)
    ensures var s1 := s.(stack := s.stack[c := b]);
            && Linked(s1) && Live(s1, c) && FindByPtr(s.slots, Some(c)) == None
            && (Welcome(s, b.id) <==> Alloc(s1, c).Some?)
            && match Alloc(s1, c)
               case None => true
               case Some((i, slot)) =>
                 && FirstFree(s, i) && slot.call == Some(c) && slot.callId == Copy(b.id, 128)
                 && slot.info == InfoFrom(b, false)
  {
    NewcomerInv(s, c, b);
    Unslotted(s, c);
    WelcomeIs(s, b.id);
  }

  lemma AdoptIs(s: Calls, c: Call, b: StackCall, i: nat, slot: Slot)
    requires Inv(s) && IsNew(s, c, b) && FirstFree(s, i)
    requires Linked(s.(stack := s.stack[c := b])) && FindByPtr(s.slots, Some(c)) == None
    requires slot.call == Some(c) && slot.callId == Copy(b.id, 128)
    requires !slot.info.isMuted && slot.info.isOnHold == b.onHold
    ensures Adopted(s, Adopt(s.(stack := s.stack[c := b]), c, i, slot), i, c, b)
  {
    assert s.stack[c := b][c := b.(handler := OmnixHandler(i))] == s.stack[c := b.(handler := OmnixHandler(i))];
  }

  lemma TurnAway(s: Calls, c: Call, b: StackCall, busy: HangupOutcome)
    requires Inv(s) && IsNew(s, c, b) && Linked(s.(stack := s.stack[c := b]))
    ensures TurnedAway(s, HangUpStack(s.(stack := s.stack[c := b]), c, busy), c, b, busy)
  {
    var b1 := if busy.Silent? then b.(state := StackTerminated) else b.(releases := 1);
    assert s.stack[c := b][c := b1] == s.stack[c := b1];
  }

  /**
   * An incoming call that is welcome goes to the first free slot and is announced as
   * INCOMING and not outgoing; any other is hung up, and nobody hears of it.
   */
  lemma IncomingIs(s: Calls, c: Call, b: StackCall, busy: HangupOutcome)
    requires Inv(s) && IsNew(s, c, b)
    ensures var r := After(s, NewIncoming(c, b, busy));
            if Welcome(s, b.id) then
              exists i: nat :: FirstFree(s, i) && Adopted(s, r, i, c, b)
                               && r.slots[i].info.state == Incoming && !r.slots[i].info.isOutgoing
            else TurnedAway(s, r, c, b, busy)
  {
    Newcomer(s, c, b);
    var s1 := s.(stack := s.stack[c := b]);
    match Alloc(s1, c)
    case None => TurnAway(s, c, b, busy);
    case Some((i, slot)) =>
      AdoptIs(s, c, b, i, slot.(info := slot.info.(state := Incoming, isOutgoing := false)));
  }

  /** The same for a call that the application makes; the answers are Ok and CallBusy. */
  lemma OutgoingIs(s: Calls, c: Call, b: StackCall, err: Errno, busy: HangupOutcome)
    requires Inv(s) && IsNew(s, c, b) && b.id != ""
    ensures Linked(s.(stack := s.stack[c := b]))
    ensures var (r, e) := Make(s.(stack := s.stack[c := b]), c, err, busy);
            if Welcome(s, b.id) then
              e == Ok && exists i: nat :: FirstFree(s, i) && Adopted(s, r, i, c, b)
                                          && r.slots[i].info.state == Outgoing
                                          && r.slots[i].info.isOutgoing == b.outgoing
            else e == CallBusy && TurnedAway(s, r, c, b, busy)
  {
    Newcomer(s, c, b);
    var s1 := s.(stack := s.stack[c := b]);
    match Alloc(s1, c)
    case None => TurnAway(s, c, b, busy);
    case Some((i, slot)) => AdoptIs(s, c, b, i, slot.(info := slot.info.(state := Outgoing)));
  }

  /** A call that the stack gave no identifier is released, and the connect error reported. */
  lemma OutgoingWithoutId(s: Calls, c: Call, b: StackCall, err: Errno, busy: HangupOutcome)
    requires Inv(s) && IsNew(s, c, b) && b.id == ""
    ensures Linked(s.(stack := s.stack[c := b]))
    ensures var (r, e) := Make(s.(stack := s.stack[c := b]), c, err, busy);
            && r == s.(stack := s.stack[c := b.(releases := 1)])
            && (e == InvalidConfig <==> err == EINVAL)
            && (e == PermissionDenied <==> err == EACCES)
            && (e == Internal <==> err == ENOMEM)
            && (e == CallFailed <==> err in {NoError, EAGAIN, EPROTO, OtherErrno})
  {
    NewcomerInv(s, c, b);
    assert s.stack[c := b][c := b.(releases := 1)] == s.stack[c := b.(releases := 1)];
  }

  // ---- stack events, a known call, and the reset ------------------------------------------------------

  /** CLOSED for a call that no slot holds releases it, and nobody hears of it. */
  lemma UnslottedClose(s: Calls, c: Call, scode: nat, textCode: Option<nat>)
    requires Inv(s) && Live(s, c) && forall j | 0 <= j < |s.slots| :: s.slots[j].call != Some(c)
    ensures s.stack[c].releases == 0
    ensures After(s, RemoteClose(c, scode, textCode)) == s.(stack := s.stack[c := s.stack[c].(releases := 1)])
  {
  }

  /** What the last note of a call says besides the names: mute from the slot, hold and direction from the stack. */
  lemma FinalIs(slot: Slot, b: StackCall, outcome: HangupOutcome, terminal: CallState)
    ensures var info := FinalInfo(slot, LastSight(b, outcome), terminal);
            && info.state == terminal && info.isMuted == slot.info.isMuted
            && info.isOnHold == b.onHold && info.isOutgoing == b.outgoing
    ensures Gone(b, outcome).releases == b.releases + 1 && Gone(b, outcome).slotsFreed == b.slotsFreed + 1
  {
  }

  /** Every other event of a live call leaves slots, notes and other calls alone. */
  lemma OtherEvents(s: Calls, c: Call, now: StackState)
    requires Inv(s) && Live(s, c)
    ensures After(s, Moves(c, now)) == s.(stack := s.stack[c := s.stack[c].(state := now)])
  {
  }

  /** Allocating for a call that has a slot gives that slot, refreshed, with its mute flag kept. */
  lemma AllocRefreshes(s: Calls, i: nat)
    requires Inv(s) && i < CAPACITY && s.slots[i].call.Some?
    ensures var c := s.slots[i].call.value;
            && Live(s, c)
            && match Alloc(s, c)
               case None => false
               case Some((j, slot)) =>
                 && j == i && slot.call == Some(c) && slot.callId == s.slots[i].callId
                 && slot.info.isMuted == s.slots[i].info.isMuted
                 && slot.info.isOnHold == s.stack[c].onHold
                 && slot.info.state == Shown(s.stack[c].state, s.stack[c].onHold)
  {
    var c := s.slots[i].call.value;
    OwnedBy(s, i, c);
    assert SlotOk(s.slots[i], s.stack);
    assert FindByPtr(s.slots, Some(c)).Some?;
  }

  /** OUTGOING or INCOMING fired again: the slot refreshed, with that state, and told. */
  lemma RefireIs(s: Calls, i: nat, st: CallState)
    requires Inv(s) && i < CAPACITY && s.slots[i].call.Some? && (st == Outgoing || st == Incoming)
    ensures var c := s.slots[i].call.value;
            && Live(s, c)
            && var r := Refire(s, i, c, st);
               && OnlyTouches(s, r, i, c) && r.stack == s.stack
               && r.slots[i].call == Some(c) && r.slots[i].info.state == st
               && r.slots[i].info.isMuted == s.slots[i].info.isMuted
               && r.slots[i].info.isOutgoing == (s.stack[c].outgoing && st == Outgoing)
               && Tells(s, r, c, r.slots[i].info)
  {
    OwnedBy(s, i, s.slots[i].call.value);
  }

  lemma ResetClears(s: Calls)
    requires Inv(s)
    ensures var r := Reset(s);
            && |r.slots| == 8
            && (forall j | 0 <= j < 8 :: r.slots[j].call == None && r.slots[j].callId == "")
            && r.stack == s.stack && r.notes == s.notes && r.quiet == s.quiet && r.torn
  {
  }
}
