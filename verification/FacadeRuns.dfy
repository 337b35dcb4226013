/**
 * The whole C facade: calls, registration and the queue, driven by one application
 * thread, the stack, and the consumer of the queue, in any interleaving.
 */
module FacadeRuns {
  import opened Wrappers
  import opened CallModel
  import opened EventModel
  import CallRuns

  /** Where the application thread is inside the facade; it makes one call at a time. */
  datatype App = AtRest | InRegister | InUnregister | InMake | Stopping | Stopped

  datatype Facade = Facade(calls: Calls, loop: Loop, app: App)

  const INITIAL := Facade(START, READY, AtRest)

  datatype Step =
    | CallStep(step: CallRuns.Step)
    | RegisterBegins
    | RegisterEnds(refused: bool)
    | UnregisterBegins
    | UnregisterEnds
    | MakeChecks              // the guards of omnix_call_make, read before it takes the lock
    | MakeFails               // ua_call_alloc failed
    | StackEvent(from: Option<nat>, ev: RegEvent, txt: string)
    | StopIsRequested
    | HostHears               // the loop handles the oldest message

  /** Which call steps the application thread and the stack may take when. */
  predicate CallStepFits(app: App, step: CallRuns.Step) {
    match step
    case NewIncoming(_, _, _) => true
    case Moves(_, _) => true
    case RemoteClose(_, _, _) => true
    case NewOutgoing(_, _, _, _) => app == InMake
    case RegistryReset => app == Stopping
    case _ => app == AtRest
  }

  predicate Enabled(f: Facade, step: Step) {
    match step
    case CallStep(cs) => CallStepFits(f.app, cs) && CallRuns.Enabled(f.calls, cs)
    case RegisterBegins => f.app == AtRest && f.loop.ua.Some?
    case RegisterEnds(_) => f.app == InRegister
    case UnregisterBegins => f.app == AtRest && f.loop.ua.Some?
    case UnregisterEnds => f.app == InUnregister
    case MakeChecks => f.app == AtRest && f.loop.reg == Registered
    case MakeFails => f.app == InMake
    case StackEvent(_, _, _) => true
    case StopIsRequested => f.app == Stopping && f.calls.torn
    case HostHears => f.loop.queue != [] && !f.loop.cancelled
  }

  function NotifyAll(l: Loop, notes: seq<Note>): Loop
    decreases |notes|
  {
    if notes == [] then l
    else
      var before := NotifyAll(l, notes[..|notes| - 1]);
      Push(before, CallMsg(notes[|notes| - 1]))
  }

  function NewNotes(before: Calls, after: Calls): seq<Note> {
    if |before.notes| <= |after.notes| then after.notes[|before.notes|..] else []
  }

  function NextApp(app: App, step: CallRuns.Step): App {
    match step
    case NewOutgoing(_, _, _, _) => AtRest
    case ShuttingDown => Stopping
    case _ => app
  }

  function AfterCall(f: Facade, cs: CallRuns.Step): (r: Facade)
    requires Linked(f.calls) && Enabled(f, CallStep(cs))
    ensures Linked(r.calls)
  {
    var calls := CallRuns.After(f.calls, cs);
    var loop := NotifyAll(f.loop, NewNotes(f.calls, calls));
    Facade(calls, loop.(shutting := loop.shutting || cs.ShuttingDown?), NextApp(f.app, cs))
  }

  function After(f: Facade, step: Step): (r: Facade)
    requires Linked(f.calls) && Enabled(f, step)
    ensures Linked(r.calls)
  {
    match step
    case CallStep(cs) => AfterCall(f, cs)
    case RegisterBegins => f.(loop := NotifyRegistering(f.loop), app := InRegister)
    case RegisterEnds(refused) => f.(loop := if refused then NotifyRejected(f.loop) else f.loop, app := AtRest)
    case UnregisterBegins => f.(loop := f.loop.(pending := true), app := InUnregister)
    case UnregisterEnds => f.(app := AtRest)
    case MakeChecks => f.(app := InMake)
    case MakeFails => f.(app := AtRest)
    case StackEvent(from, ev, txt) => f.(loop := OnRegEvent(f.loop, from, ev, txt))
    case StopIsRequested => f.(loop := RequestStop(f.loop), app := Stopped)
    case HostHears => f.(loop := Deliver(f.loop))
  }

  // ---- what the history of the queue says ---------------------------------------------

  /** The call notes in a history, in order. */
  function CallNotes(h: seq<Item>): seq<Note> {
    if h == [] then []
    else
      var before := CallNotes(h[..|h| - 1]);
      match h[|h| - 1]
      case Payload(_, CallMsg(note)) => before + [note]
      case _ => before
  }

  /** The state in the last registration message, UNREGISTERED if there is none. */
  function LastReg(h: seq<Item>): RegState {
    if h == [] then Unregistered
    else
      match h[|h| - 1]
      case Payload(_, RegMsg(state, _, _)) => state
      case _ => LastReg(h[..|h| - 1])
  }

  /** How many payloads a history holds. */
  function Payloads(h: seq<Item>): nat {
    if h == [] then 0 else Payloads(h[..|h| - 1]) + if h[|h| - 1].Payload? then 1 else 0
  }

  /** Payloads appear in the order they were allocated, each once. */
  predicate Numbered(h: seq<Item>) {
    h == [] || (Numbered(h[..|h| - 1]) && (h[|h| - 1].Payload? ==> h[|h| - 1].id == Payloads(h[..|h| - 1])))
  }

  /** A REGISTERED message came before every OUTGOING notification. */
  predicate RegisteredFirst(h: seq<Item>) {
    h == [] ||
    (RegisteredFirst(h[..|h| - 1]) && (SaysOutgoing(h[|h| - 1]) ==> WasRegistered(h[..|h| - 1])))
  }

  predicate SaysOutgoing(item: Item) {
    item.Payload? && item.msg.CallMsg? && item.msg.note.state == Outgoing
  }

  predicate WasRegistered(h: seq<Item>) {
    exists k | 0 <= k < |h| :: h[k].Payload? && h[k].msg.RegMsg? && h[k].msg.state == Registered
  }

  /** The SHUTDOWN message, if any, is the last thing in the history. */
  predicate ShutdownLast(h: seq<Item>) {
    forall k | 0 <= k < |h| && h[k].Shutdown? :: k == |h| - 1
  }

  lemma Snoc(h: seq<Item>, item: Item)
    ensures CallNotes(h + [item]) == CallNotes(h) + (if item.Payload? && item.msg.CallMsg? then [item.msg.note] else [])
    ensures LastReg(h + [item]) == if item.Payload? && item.msg.RegMsg? then item.msg.state else LastReg(h)
    ensures Payloads(h + [item]) == Payloads(h) + if item.Payload? then 1 else 0
    ensures Numbered(h + [item]) <==> Numbered(h) && (item.Payload? ==> item.id == Payloads(h))
    ensures RegisteredFirst(h + [item]) <==> RegisteredFirst(h) && (SaysOutgoing(item) ==> WasRegistered(h))
  {
    assert (h + [item])[..|h|] == h;
  }
}
