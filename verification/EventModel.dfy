/**
 * Registration state and the message queue of cpp/src/omnix_events.c, with the
 * registration entry points of cpp/src/omnix_voice.c, as functions on a value.
 */
module EventModel {
  import opened Wrappers
  import opened Text
  import opened StatusText
  import opened CallModel

  datatype RegState = Uninitialized | Unregistered | Registering | Registered | RegFailed

  datatype Msg = RegMsg(state: RegState, sipCode: nat, reason: string) | CallMsg(note: Note)

  /** A queued message: an allocated payload (numbered by allocation), or the bare SHUTDOWN id. */
  datatype Item = Payload(id: nat, msg: Msg) | Shutdown

  datatype RegEvent = EvRegistering | EvRegisterOk | EvRegisterFail | EvUnregistering

  /**
   * `delivered` are the items handled so far (for a payload: the host called back and
   * the payload freed) and `queue` those still in the pipe. `made` counts the payloads
   * allocated, and `applied` the assignments to reg_state since initialization.
   */
  datatype Loop = Loop(reg: RegState, pending: bool, shutting: bool, cancelled: bool, ua: Option<nat>,
                       queue: seq<Item>, delivered: seq<Item>, made: nat, applied: nat)

  /** After omnix_init: UNREGISTERED, nothing queued. */
  const READY := Loop(Unregistered, false, false, false, Some(0), [], [], 0, 0)

  function Push(l: Loop, msg: Msg): Loop {
    l.(queue := l.queue + [Payload(l.made, msg)], made := l.made + 1)
  }

  function RegText(state: RegState, sipCode: nat, reason: string): Msg {
    RegMsg(state, sipCode, Copy(reason, REASON_SIZE))
  }

  /** omnix_reg_apply. */
  function Apply(l: Loop, state: RegState, sipCode: nat, reason: string): Loop {
    var l1 := l.(reg := state, pending := l.pending && state == Uninitialized, applied := l.applied + 1);
    if l.shutting then l1 else Push(l1, RegText(state, sipCode, reason))
  }

  function OrElse(text: string, fallback: string): string {
    if text == "" then fallback else text
  }

  /** omnix_bevent_handler for a registration event; events of another user agent are ignored. */
  function OnRegEvent(l: Loop, from: Option<nat>, ev: RegEvent, txt: string): Loop {
    if l.ua.Some? && from.Some? && from != l.ua then l
    else
      var (sipCode, reason) := Parse(txt);
      match ev
      case EvRegistering => if l.reg != Registering then Apply(l, Registering, 0, "") else l
      case EvRegisterOk => Apply(l, if l.pending then Unregistered else Registered, sipCode, OrElse(reason, "OK"))
      case EvRegisterFail => Apply(l, RegFailed, sipCode, OrElse(reason, "register failed"))
      case EvUnregistering => Apply(l.(pending := true), Unregistered, 0, "")
  }

  /** omnix_events_notify_registering, from omnix_register. */
  function NotifyRegistering(l: Loop): Loop {
    Push(l.(reg := Registering, pending := false, applied := l.applied + 1), RegText(Registering, 0, ""))
  }

  /** omnix_events_notify_reg_state(FAILED), when ua_register refuses. */
  function NotifyRejected(l: Loop): Loop {
    Push(l.(reg := RegFailed, pending := false, applied := l.applied + 1), RegText(RegFailed, 0, "register rejected"))
  }

  function NotifyCall(l: Loop, note: Note): Loop {
    if l.shutting then l else Push(l, CallMsg(note))
  }

  /** omnix_mqueue_handler on the oldest item. */
  function Deliver(l: Loop): Loop
    requires l.queue != [] && !l.cancelled
  {
    var l1 := l.(queue := l.queue[1..], delivered := l.delivered + [l.queue[0]]);
    if l.queue[0].Shutdown? then l1.(shutting := true, cancelled := true) else l1
  }

  /** omnix_account_teardown and the SHUTDOWN message. */
  function RequestStop(l: Loop): Loop {
    l.(ua := None, queue := l.queue + [Shutdown])
  }

  /** Everything ever pushed, oldest first. */
  function History(l: Loop): seq<Item> {
    l.delivered + l.queue
  }
}
