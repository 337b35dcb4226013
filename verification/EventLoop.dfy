/** The event queue in its own form: one object whose methods change its fields. */
module EventLoop {
  import opened Wrappers
  import opened Text
  import opened StatusText
  import opened CallModel
  import opened EventModel

  class Events {
    var reg: RegState
    var pending: bool
    var shutting: bool
    var cancelled: bool
    var ua: Option<nat>
    var queue: seq<Item>
    var delivered: seq<Item>
    var made: nat
    var applied: nat

    function State(): Loop
      reads this
    {
      Loop(reg, pending, shutting, cancelled, ua, queue, delivered, made, applied)
    }

    constructor ()
      ensures State() == READY
    {
      reg, pending, shutting, cancelled, ua := Unregistered, false, false, false, Some(0);
      queue, delivered, made, applied := [], [], 0, 0;
    }

    method PushReg(state: RegState, sipCode: nat, reason: string)
      modifies this`queue, this`made
      ensures State() == Push(old(State()), RegText(state, sipCode, reason))
    {
      var text := "";
      if reason != "" {
        text := Copy(reason, REASON_SIZE);
      }
      queue := queue + [Payload(made, RegMsg(state, sipCode, text))];
      made := made + 1;
    }

    method RegApply(state: RegState, sipCode: nat, reason: string)
      modifies this`reg, this`pending, this`applied, this`queue, this`made
      ensures State() == Apply(old(State()), state, sipCode, reason)
    {
      reg := state;
      applied := applied + 1;
      if state == Unregistered || state == RegFailed || state == Registered {
        pending := false;
      }
      if state == Registering {
        pending := false;
      }
      if shutting { return; }
      PushReg(state, sipCode, reason);
    }

    method OnRegEvent(from: Option<nat>, ev: RegEvent, txt: Option<string>)
      modifies this`reg, this`pending, this`applied, this`queue, this`made
      ensures State() == EventModel.OnRegEvent(old(State()), from, ev, if txt.Some? then txt.value else "")
    {
      if ua.Some? && from.Some? && from != ua { return; }
      var sipCode, reason := ParseRegText(txt);
      match ev
      case EvRegistering =>
        if reg != Registering { RegApply(Registering, 0, ""); }
      case EvRegisterOk =>
        if pending {
          RegApply(Unregistered, sipCode, if reason != "" then reason else "OK");
        } else {
          RegApply(Registered, sipCode, if reason != "" then reason else "OK");
        }
      case EvRegisterFail =>
        RegApply(RegFailed, sipCode, if reason != "" then reason else "register failed");
      case EvUnregistering =>
        pending := true;
        RegApply(Unregistered, 0, "");
    }

    method NotifyRegistering()
      modifies this`reg, this`pending, this`applied, this`queue, this`made
      ensures State() == EventModel.NotifyRegistering(old(State()))
    {
      reg := Registering;
      applied := applied + 1;
      pending := false;
      PushReg(Registering, 0, "");
    }

    method NotifyRejected()
      modifies this`reg, this`pending, this`applied, this`queue, this`made
      ensures State() == EventModel.NotifyRejected(old(State()))
    {
      reg := RegFailed;
      applied := applied + 1;
      pending := false;
      PushReg(RegFailed, 0, "register rejected");
    }

    method NotifyCall(note: Note)
      modifies this`queue, this`made
      ensures State() == EventModel.NotifyCall(old(State()), note)
    {
      if shutting { return; }
      queue := queue + [Payload(made, CallMsg(note))];
      made := made + 1;
    }

    /** omnix_unregister before it asks the stack. */
    method MarkUnregister()
      modifies this`pending
      ensures State() == old(State()).(pending := true)
    {
      pending := true;
    }

    /** omnix_shutdown, first statement. */
    method MarkShuttingDown()
      modifies this`shutting
      ensures State() == old(State()).(shutting := true)
    {
      shutting := true;
    }

    method RequestStop()
      modifies this`ua, this`queue
      ensures State() == EventModel.RequestStop(old(State()))
    {
      ua := None;
      queue := queue + [Shutdown];
    }

    /** The consumer: one message, its callback, its payload freed. */
    method HandleOne() returns (told: Option<Msg>)
      requires queue != [] && !cancelled
      modifies this`queue, this`delivered, this`shutting, this`cancelled
      ensures State() == Deliver(old(State()))
      ensures told == match old(queue[0]) case Payload(_, msg) => Some(msg) case Shutdown => None
    {
      var item := queue[0];
      queue := queue[1..];
      delivered := delivered + [item];
      match item
      case Payload(_, msg) => told := Some(msg);
      case Shutdown =>
        shutting := true;
        cancelled := true;
        told := None;
    }
  }
}
