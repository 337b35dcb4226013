/**
 * The call registry in its own form: an array of slots that every operation changes
 * in place. Each method is proved equal to its function in CallModel.
 */
module CallEngine {
  import opened Wrappers
  import opened Text
  import opened CallModel
  import RegistryMap

  class Engine {
    var slots: array<Slot>
    var stack: map<Call, StackCall>
    var notes: seq<Note>
    var quiet: bool
    var torn: bool

    function State(): Calls
      reads this, slots
    {
      Calls(slots[..], stack, notes, quiet, torn)
    }

    ghost predicate Valid()
      reads this, slots
    {
      slots.Length == CAPACITY && Linked(State())
    }

    constructor ()
      ensures Valid() && fresh(slots) && State() == START
    {
      slots := new Slot[CAPACITY](_ => EMPTY_SLOT);
      stack, notes, quiet, torn := map[], [], false, false;
      new;
      assert slots[..] == BLANK;
    }

    // ---- lookups ---------------------------------------------------------------

    method FindById(id: string) returns (r: Option<nat>)
      requires Valid()
      ensures r == CallModel.FindById(slots[..], id)
    {
      if id == "" { return None; }
      var i := 0;
      while i < CAPACITY
        invariant i <= CAPACITY
        invariant CallModel.FindById(slots[..], id) == CallModel.FindById(slots[..], id, i)
      {
        if slots[i].call.Some? && slots[i].callId != "" && slots[i].callId == id {
          return Some(i);
        }
        i := i + 1;
      }
      return None;
    }

    method FindByPtr(want: Option<Call>) returns (r: Option<nat>)
      requires Valid()
      ensures r == CallModel.FindByPtr(slots[..], want)
    {
      var i := 0;
      while i < CAPACITY
        invariant i <= CAPACITY
        invariant CallModel.FindByPtr(slots[..], want) == CallModel.FindByPtr(slots[..], want, i)
      {
        if slots[i].call == want {
          return Some(i);
        }
        i := i + 1;
      }
      return None;
    }

    method Count() returns (n: nat)
      requires Valid()
      ensures n == RegistryMap.Count(slots[..])
    {
      n := 0;
      var i := 0;
      while i < CAPACITY
        invariant i <= CAPACITY
        invariant n == RegistryMap.Count(slots[..i])
      {
        assert slots[..i + 1][..i] == slots[..i];
        if slots[i].call.Some? {
          n := n + 1;
        }
        i := i + 1;
      }
      assert slots[..CAPACITY] == slots[..];
    }

    method CallState(id: string) returns (st: CallModel.CallState)
      requires Valid()
      ensures st == match CallModel.FindById(slots[..], id) case None => Idle case Some(i) => slots[i].info.state
    {
      var found := FindById(id);
      match found
      case None => st := Idle;
      case Some(i) => st := slots[i].info.state;
    }

    // ---- primitives --------------------------------------------------------------

    /** omnix_events_notify_call_state: dropped while shutting down. */
    method Notify(c: Call, info: Info)
      modifies this`notes
      ensures notes == if quiet then old(notes) else old(notes) + [Note(c, info.state, info)]
    {
      if !quiet {
        notes := notes + [Note(c, info.state, info)];
      }
    }

    /** omnix_alloc_call_slot: refreshes the slot of a known call, or fills the first free one. */
    method Alloc(c: Call) returns (r: Option<nat>)
      requires slots.Length == CAPACITY && Linked(State()) && Live(State(), c)
      modifies slots
      ensures match CallModel.Alloc(old(State()), c)
              case None => r == None && slots[..] == old(slots[..])
              case Some((i, slot)) => r == Some(i) && slots[..] == old(slots[..])[i := slot]
    {
      var b := stack[c];
      var known := FindByPtr(Some(c));
      if known.Some? {
        var i := known.value;
        slots[i] := slots[i].(callId := Copy(b.id, ID_SIZE), info := InfoFrom(b, slots[i].info.isMuted));
        return known;
      }
      if b.id == "" { return None; }
      var duplicate := FindById(b.id);
      if duplicate.Some? { return None; }
      var free := FindByPtr(None);
      if free.Some? {
        slots[free.value] := Slot(Copy(b.id, ID_SIZE), Some(c), InfoFrom(b, false));
      }
      return free;
    }

    // ---- events from the stack -----------------------------------------------------

    /** omnix_closed_sip_code: the stack's code, or a leading 300 to 699 in the text. */
    method ClosedSipCode(scode: nat, textCode: Option<nat>) returns (code: nat)
      ensures code != 0 <==> scode != 0 || (textCode.Some? && 300 <= textCode.value <= 699)
      ensures code == SipCode(scode, textCode)
    {
      if scode != 0 {
        return scode;
      }
      if textCode.Some? && textCode.value >= 300 && textCode.value <= 699 {
        return textCode.value;
      }
      return 0;
    }

    method FinalizeClosed(i: nat, c: Call, scode: nat, textCode: Option<nat>)
      requires Valid() && i < CAPACITY && Live(State(), c) && stack[c].handler == OmnixHandler(i)
      modifies this, slots
      ensures slots == old(slots) && Valid()
      ensures State() == Finalize(old(State()), i, c, Terminal(scode, textCode))
    {
      var sipCode := ClosedSipCode(scode, textCode);
      var terminal := if sipCode != 0 then Failed else Ended;
      var freed := 0;
      if slots[i].call == Some(c) {
        var info := InfoFrom(stack[c], slots[i].info.isMuted).(state := terminal);
        slots[i] := slots[i].(info := info);
        Notify(c, info);
        slots[i] := EMPTY_SLOT;
        freed := 1;
        assert slots[..] == old(slots[..])[i := EMPTY_SLOT];
      }
      stack := stack[c := stack[c].(releases := stack[c].releases + 1, slotsFreed := stack[c].slotsFreed + freed)];
    }

    method OnClosed(c: Call, scode: nat, textCode: Option<nat>)
      requires Valid() && Live(State(), c)
      modifies this, slots
      ensures slots == old(slots) && Valid()
      ensures State() == Closed(old(State()), c, Terminal(scode, textCode))
    {
      match stack[c].handler
      case UaHandler =>
        stack := stack[c := stack[c].(releases := stack[c].releases + 1)];
      case OmnixHandler(i) =>
        FinalizeClosed(i, c, scode, textCode);
    }

    /** call_hangup of the stack: it may call back before it returns. */
    method StackHangUp(c: Call, outcome: HangupOutcome)
      requires Valid() && Live(State(), c)
      modifies this, slots
      ensures slots == old(slots) && Valid()
      ensures State() == HangUpStack(old(State()), c, outcome)
    {
      match outcome
      case Silent(_) => stack := stack[c := stack[c].(state := StackTerminated)];
      case FiresClosed(scode, textCode) => OnClosed(c, scode, textCode);
    }

    /** omnix_call_handle_incoming, from BEVENT_CALL_INCOMING. */
    method HandleIncoming(c: Call, busy: HangupOutcome)
      requires Valid() && Live(State(), c)
      modifies this, slots
      ensures slots == old(slots) && Valid()
      ensures State() == CallModel.HandleIncoming(old(State()), c, busy)
    {
      var entry := Alloc(c);
      if entry.None? {
        StackHangUp(c, busy);
        return;
      }
      var i := entry.value;
      stack := stack[c := stack[c].(handler := OmnixHandler(i))];
      var info := InfoFrom(stack[c], slots[i].info.isMuted);
      slots[i] := slots[i].(info := info.(state := Incoming, isOutgoing := false));
      Notify(c, slots[i].info);
      assert slots[..] == CallModel.HandleIncoming(old(State()), c, busy).slots;
    }

    // ---- calls from the application ---------------------------------------------------

    /** omnix_call_make once the stack has produced call `c`. */
    method Make(c: Call, err: Errno, busy: HangupOutcome) returns (e: Error, idOut: string)
      requires Valid() && Live(State(), c) && stack[c].handler == UaHandler
      modifies this, slots
      ensures slots == old(slots) && Valid()
      ensures (State(), e) == CallModel.Make(old(State()), c, err, busy)
      ensures idOut == if e == Ok && old(stack[c].id) != "" then Copy(old(stack[c].id), ID_SIZE) else ""
    {
      idOut := "";
      if stack[c].id == "" {
        stack := stack[c := stack[c].(releases := stack[c].releases + 1)];
        return MapConnectErr(if err == NoError then EPROTO else err), idOut;
      }
      var entry := Alloc(c);
      if entry.None? {
        StackHangUp(c, busy);
        return CallBusy, idOut;
      }
      var i := entry.value;
      stack := stack[c := stack[c].(handler := OmnixHandler(i))];
      slots[i] := slots[i].(info := slots[i].info.(state := Outgoing));
      idOut := slots[i].callId;
      Notify(c, slots[i].info);
      assert slots[..] == CallModel.Make(old(State()), c, err, busy).0.slots;
      e := Ok;
    }

    method Answer(id: string, err: Errno, now: StackState) returns (e: Error)
      requires Valid()
      modifies this, slots
      ensures slots == old(slots) && Valid()
      ensures (State(), e) == CallModel.Answer(old(State()), id, err, now)
    {
      var found := FindById(id);
      if found.None? { return InvalidState; }
      var i := found.value;
      assert Holds(State(), i, slots[i].call.value);
      var c := slots[i].call.value;
      stack := stack[c := stack[c].(state := now)];
      if err != NoError {
        return if err == EINVAL || err == EAGAIN then InvalidState else CallFailed;
      }
      slots[i] := slots[i].(info := InfoFrom(stack[c], slots[i].info.isMuted));
      assert slots[..] == CallModel.Answer(old(State()), id, err, now).0.slots;
      e := Ok;
    }

    method Reject(id: string, outcome: HangupOutcome) returns (e: Error)
      requires Valid()
      modifies this, slots
      ensures slots == old(slots) && Valid()
      ensures (State(), e) == CallModel.Reject(old(State()), id, outcome)
    {
      var found := FindById(id);
      if found.None? { return InvalidState; }
      var idbuf := Copy(id, ID_SIZE);
      assert Holds(State(), found.value, slots[found.value].call.value);
      var c := slots[found.value].call.value;
      StackHangUp(c, outcome);
      var again := FindById(idbuf);
      if again.Some? && slots[again.value].call == Some(c) {
        assert Holds(State(), again.value, c);
        FinalizeClosed(again.value, c, outcome.scode, Some(486));
      }
      e := Ok;
    }

    method HangUp(id: string, outcome: HangupOutcome) returns (e: Error)
      requires Valid()
      modifies this, slots
      ensures slots == old(slots) && Valid()
      ensures (State(), e) == CallModel.HangUp(old(State()), id, outcome)
    {
      var found := FindById(id);
      if found.None? { return InvalidState; }
      var idbuf := Copy(id, ID_SIZE);
      var i := found.value;
      assert Holds(State(), i, slots[i].call.value);
      var c := slots[i].call.value;
      slots[i] := slots[i].(info := slots[i].info.(state := Ending));
      Notify(c, slots[i].info);
      assert State() == MarkEnding(old(State()), i);
      StackHangUp(c, outcome);
      var again := FindById(idbuf);
      if again.Some? && slots[again.value].call == Some(c) {
        assert Holds(State(), again.value, c);
        FinalizeClosed(again.value, c, outcome.scode, None);
      }
      e := Ok;
    }

    /** The common second half of hold and resume, after the state guard. */
    method Toggle(i: nat, on: bool, err: Errno, takes: bool) returns (e: Error)
      requires Valid() && i < CAPACITY && slots[i].call.Some?
      modifies this, slots
      ensures slots == old(slots) && (State(), e) == CallModel.Toggle(old(State()), i, on, err, takes)
      ensures Valid()
    {
      assert Holds(State(), i, slots[i].call.value);
      var c := slots[i].call.value;
      var b := stack[c].(onHold := if takes then on else stack[c].onHold);
      stack := stack[c := b];
      if b.onHold != on {
        return if err == EINVAL then InvalidState else CallFailed;
      }
      var info := InfoFrom(b, slots[i].info.isMuted).(state := if on then Held else Connected, isOnHold := on);
      slots[i] := slots[i].(info := info);
      Notify(c, info);
      assert slots[..] == old(slots[..])[i := old(slots[i]).(info := info)];
      e := Ok;
    }

    method Hold(id: string, err: Errno, takes: bool) returns (e: Error)
      requires Valid()
      modifies this, slots
      ensures slots == old(slots) && Valid()
      ensures (State(), e) == HoldOrResume(old(State()), id, true, err, takes)
    {
      var found := FindById(id);
      if found.None? { return InvalidState; }
      if slots[found.value].info.state != Connected { return InvalidState; }
      e := Toggle(found.value, true, err, takes);
    }

    method Resume(id: string, err: Errno, takes: bool) returns (e: Error)
      requires Valid()
      modifies this, slots
      ensures slots == old(slots) && Valid()
      ensures (State(), e) == HoldOrResume(old(State()), id, false, err, takes)
    {
      var found := FindById(id);
      if found.None? { return InvalidState; }
      if slots[found.value].info.state != Held { return InvalidState; }
      e := Toggle(found.value, false, err, takes);
    }

    method SetMute(id: string, mute: bool) returns (e: Error)
      requires Valid()
      modifies this, slots
      ensures slots == old(slots) && Valid()
      ensures (State(), e) == CallModel.SetMute(old(State()), id, mute)
    {
      var found := FindById(id);
      if found.None? { return InvalidState; }
      slots[found.value] := slots[found.value].(info := slots[found.value].info.(isMuted := mute));
      assert slots[..] == CallModel.SetMute(old(State()), id, mute).0.slots;
      e := Ok;
    }

    /** omnix_call_registry_reset during omnix_shutdown. */
    method RegistryReset()
      requires Valid()
      modifies this, slots
      ensures slots == old(slots) && Valid()
      ensures State() == Reset(old(State()))
    {
      forall i | 0 <= i < CAPACITY {
        slots[i] := EMPTY_SLOT;
      }
      torn := true;
      assert slots[..] == BLANK;
    }
  }
}
