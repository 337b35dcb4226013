/**
 * The Android audio session: OmnixVoice.kt, OmnixAudioRouter.kt and the bridge to the
 * platform's AudioManager, as functions from one state to the next.
 */
module AudioModel {
  import opened Wrappers

  const MODE_NORMAL: int := 0
  const MODE_IN_COMMUNICATION: int := 3

  datatype CallState =
    | Idle | Outgoing | Incoming | Ringing | EarlyMedia | Connected | Held | Ending | Ended | Failed

  /** What the platform was told to do with the audio focus. */
  datatype Focus = Requested(granted: bool) | Abandoned

  /** The platform's AudioManager; other applications may set its mode too. */
  datatype Device = Device(mode: int, speaker: bool, focus: seq<Focus>)

  /** OmnixAudioRouter, with the focus request that its bridge keeps. */
  datatype Router = Router(sessionActive: bool, previousMode: int, speakerEnabled: bool,
                           focusHeld: bool, request: bool)

  const NEW_ROUTER: Router := Router(false, MODE_NORMAL, false, false, false)

  type Calls = map<string, CallState>

  datatype Voice = Voice(device: Device, router: Option<Router>, calls: Calls, initialized: bool)

  predicate IsActive(s: CallState) {
    !(s.Idle? || s.Ended? || s.Failed?)
  }

  predicate HasActive(calls: Calls) {
    exists id | id in calls :: IsActive(calls[id])
  }

  /** A session is up: there is a router and it says so. */
  predicate InSession(v: Voice) {
    v.router.Some? && v.router.value.sessionActive
  }

  // ---- the router --------------------------------------------------------------------

  function Abandon(focus: seq<Focus>, request: bool): seq<Focus> {
    if request then focus + [Abandoned] else focus
  }

  /** The device and the router after a call's start; `granted` is the platform's answer. */
  function StartCallAudio(d: Device, r: Router, granted: bool): (Device, Router) {
    if r.sessionActive then (d.(speaker := r.speakerEnabled), r)
    else
      (Device(MODE_IN_COMMUNICATION, r.speakerEnabled, Abandon(d.focus, r.request) + [Requested(granted)]),
       Router(true, d.mode, r.speakerEnabled, granted, granted))
  }

  function EndCallAudio(d: Device, r: Router): (Device, Router) {
    if !r.sessionActive then (d, r)
    else
      (Device(r.previousMode, false, Abandon(d.focus, r.request)),
       Router(false, r.previousMode, r.speakerEnabled, false, false))
  }

  function SetSpeakerEnabled(d: Device, r: Router, on: bool): (Device, Router) {
    (if r.sessionActive then d.(speaker := on) else d, r.(speakerEnabled := on))
  }

  function Apply(v: Voice, to: (Device, Router)): Voice {
    v.(device := to.0, router := Some(to.1))
  }

  // ---- the facade --------------------------------------------------------------------

  datatype InitOutcome = Refused | NativeFailed | Ready

  /** One step of the application, of the native core, or of another application. */
  datatype Event =
    | Initialize(outcome: InitOutcome)
    | Shutdown
    | CallEvent(id: Option<string>, state: CallState, granted: bool)
    | SetSpeaker(on: bool, accepted: bool)
    | OtherMode(mode: int)

  function SyncCallAudioSession(v: Voice, granted: bool): Voice {
    if v.router.None? then v
    else if HasActive(v.calls) then Apply(v, StartCallAudio(v.device, v.router.value, granted))
    else Apply(v, EndCallAudio(v.device, v.router.value))
  }

  function After(v: Voice, e: Event): Voice {
    match e
    case Initialize(outcome) =>
      if v.initialized || outcome.Refused? then v
      else v.(router := Some(NEW_ROUTER), initialized := outcome.Ready?)
    case Shutdown =>
      if !v.initialized then v
      else
        var device := if v.router.Some? then EndCallAudio(v.device, v.router.value).0 else v.device;
        Voice(device, None, map[], false)
    case CallEvent(id, state, granted) =>
      if id.None? then v
      else SyncCallAudioSession(v.(calls := v.calls[id.value := state]), granted)
    case SetSpeaker(on, accepted) =>
      if !v.initialized || !accepted || v.router.None? then v
      else Apply(v, SetSpeakerEnabled(v.device, v.router.value, on))
    case OtherMode(mode) => v.(device := v.device.(mode := mode))
  }

  // ---- runs --------------------------------------------------------------------------

  /** The native core sends call events only while it is initialized. */
  predicate Enabled(v: Voice, e: Event) {
    e.CallEvent? ==> v.initialized
  }

  function Start(d: Device): Voice {
    Voice(d, None, map[], false)
  }

  function Run(d: Device, tr: seq<Event>): Voice {
    if tr == [] then Start(d) else After(Run(d, tr[..|tr| - 1]), tr[|tr| - 1])
  }

  predicate Legal(d: Device, tr: seq<Event>) {
    tr == [] || (Legal(d, tr[..|tr| - 1]) && Enabled(Run(d, tr[..|tr| - 1]), tr[|tr| - 1]))
  }

  // ---- the history alone ---------------------------------------------------------------

  /** The last state the core reported for a call, since the last shutdown. */
  function Latest(tr: seq<Event>, id: string): Option<CallState> {
    if tr == [] then None
    else
      var last := tr[|tr| - 1];
      if last.Shutdown? then None
      else if last.CallEvent? && last.id == Some(id) then Some(last.state)
      else Latest(tr[..|tr| - 1], id)
  }

  /** Some call's latest state is an active one. */
  ghost predicate Busy(tr: seq<Event>) {
    exists id :: Latest(tr, id).Some? && IsActive(Latest(tr, id).value)
  }

  predicate Up(tr: seq<Event>) {
    tr != [] &&
    match tr[|tr| - 1]
    case Initialize(outcome) => outcome.Ready? || Up(tr[..|tr| - 1])
    case Shutdown => false
    case _ => Up(tr[..|tr| - 1])
  }

  /** The speaker preference: the last one accepted since the last initialize. */
  function Preference(tr: seq<Event>): bool {
    if tr == [] then false
    else
      var before := tr[..|tr| - 1];
      match tr[|tr| - 1]
      case Initialize(outcome) => Up(before) && Preference(before)
      case Shutdown => false
      case SetSpeaker(on, accepted) => if Up(before) && accepted then on else Preference(before)
      case _ => Preference(before)
  }

  /** How often some call became active while none was, and the other way round. */
  ghost function Starts(tr: seq<Event>): nat {
    if tr == [] then 0
    else Starts(tr[..|tr| - 1]) + (if Busy(tr) && !Busy(tr[..|tr| - 1]) then 1 else 0)
  }

  ghost function Ends(tr: seq<Event>): nat {
    if tr == [] then 0
    else Ends(tr[..|tr| - 1]) + (if !Busy(tr) && Busy(tr[..|tr| - 1]) then 1 else 0)
  }

  function Tally(focus: seq<Focus>, what: Focus): nat {
    multiset(focus)[what]
  }
}
