/** What every run of the Android audio session keeps. */
module AudioTheorems {
  import opened Wrappers
  import opened AudioModel

  // ---- one step ---------------------------------------------------------------------

  /** The calls are what the history says of them. */
  ghost predicate CallsAgree(tr: seq<Event>, calls: Calls) {
    forall id :: Latest(tr, id) == if id in calls then Some(calls[id]) else None
  }

  predicate Coherent(v: Voice) {
    && (v.initialized ==> v.router.Some?)
    && (!v.initialized ==> v.calls == map[])
    && (InSession(v) <==> HasActive(v.calls))
    && (v.router.Some? ==> v.router.value.request == v.router.value.focusHeld)
    && (v.router.Some? && v.router.value.focusHeld ==> v.router.value.sessionActive)
    && (InSession(v) ==> v.device.speaker == v.router.value.speakerEnabled)
  }

  lemma StepCoherent(v: Voice, e: Event)
    requires Coherent(v) && Enabled(v, e)
    ensures Coherent(After(v, e))
  {
  }

  lemma StepCalls(tr: seq<Event>, v: Voice, e: Event)
    requires CallsAgree(tr, v.calls) && Coherent(v)
    ensures CallsAgree(tr + [e], After(v, e).calls)
  {
    assert (tr + [e])[..|tr|] == tr;
    forall id ensures var calls := After(v, e).calls;
                      Latest(tr + [e], id) == if id in calls then Some(calls[id]) else None
    {
      assert Latest(tr, id) == if id in v.calls then Some(v.calls[id]) else None;
    }
  }

  lemma BusyIs(tr: seq<Event>, calls: Calls)
    requires CallsAgree(tr, calls)
    ensures Busy(tr) <==> HasActive(calls)
  {
    if id :| id in calls && IsActive(calls[id]) {
      assert Latest(tr, id) == Some(calls[id]);
    }
  }

  // ---- every run ---------------------------------------------------------------------

  ghost predicate Inv(tr: seq<Event>, v: Voice) {
    && Coherent(v)
    && CallsAgree(tr, v.calls)
    && v.initialized == Up(tr)
    && (v.router.Some? ==> v.router.value.speakerEnabled == Preference(tr))
    && (!v.initialized ==> !Preference(tr))
  }

  lemma StepPreference(tr: seq<Event>, v: Voice, e: Event)
    requires Inv(tr, v)
    ensures var w := After(v, e);
            && w.initialized == Up(tr + [e])
            && (w.router.Some? ==> w.router.value.speakerEnabled == Preference(tr + [e]))
            && (!w.initialized ==> !Preference(tr + [e]))
  {
    assert (tr + [e])[..|tr|] == tr;
  }

  lemma {:induction false} RunInv(d: Device, tr: seq<Event>)
    requires Legal(d, tr)
    ensures Inv(tr, Run(d, tr))
    decreases |tr|
  {
    if tr != [] {
      var before, e := tr[..|tr| - 1], tr[|tr| - 1];
      RunInv(d, before);
      var v := Run(d, before);
      assert before + [e] == tr;
      StepCoherent(v, e);
      StepCalls(before, v, e);
      StepPreference(before, v, e);
    }
  }

  /**
   * In every run the session is up exactly while some call's latest state is active,
   * and while it is up the speakerphone is what was last asked for, be it before the
   * session started.
   */
  lemma SessionFollowsCalls(d: Device, tr: seq<Event>)
    requires Legal(d, tr)
    ensures var v := Run(d, tr);
            && (InSession(v) <==> Busy(tr))
            && (Busy(tr) ==> v.device.speaker == Preference(tr))
  {
    RunInv(d, tr);
    BusyIs(tr, Run(d, tr).calls);
  }

  // ---- focus -------------------------------------------------------------------------

  /** A running session that was granted the focus. */
  function FocusHeld(v: Voice): nat {
    if InSession(v) && v.router.value.focusHeld then 1 else 0
  }

  /** How one step moves the focus: a request when a session starts, an abandon when it ends. */
  lemma StepFocus(v: Voice, e: Event)
    requires Coherent(v) && Enabled(v, e)
    ensures var w := After(v, e);
            var before, after := v.device.focus, w.device.focus;
            && Tally(after, Requested(true)) + Tally(after, Requested(false)) ==
               Tally(before, Requested(true)) + Tally(before, Requested(false))
               + (if !InSession(v) && InSession(w) then 1 else 0)
            && Tally(after, Requested(true)) - Tally(after, Abandoned) - FocusHeld(w) ==
               Tally(before, Requested(true)) - Tally(before, Abandoned) - FocusHeld(v)
  {
  }

  /**
   * Over any run the focus is requested once for each session, as often as some call
   * became active while none was; every granted request but a running session's has been
   * abandoned, once.
   */
  lemma {:induction false} FocusOncePerSession(mode: int, speaker: bool, tr: seq<Event>)
    requires Legal(Device(mode, speaker, []), tr)
    ensures var v := Run(Device(mode, speaker, []), tr);
            var focus := v.device.focus;
            && Tally(focus, Requested(true)) + Tally(focus, Requested(false)) == Starts(tr)
            && Starts(tr) == Ends(tr) + (if Busy(tr) then 1 else 0)
            && Tally(focus, Requested(true)) ==
               Tally(focus, Abandoned) + FocusHeld(v)
    decreases |tr|
  {
    var d := Device(mode, speaker, []);
    SessionFollowsCalls(d, tr);
    RunInv(d, tr);
    if tr != [] {
      var before, e := tr[..|tr| - 1], tr[|tr| - 1];
      FocusOncePerSession(mode, speaker, before);
      SessionFollowsCalls(d, before);
      RunInv(d, before);
      StepFocus(Run(d, before), e);
    }
  }

  // ---- the mode ----------------------------------------------------------------------

  /** Some call has been active at every moment after the first k steps, and none then. */
  ghost predicate BusySince(tr: seq<Event>, k: nat) {
    k < |tr| && !Busy(tr[..k]) && forall j | k < j <= |tr| :: Busy(tr[..j])
  }

  /** A running session remembers the mode from just before it started. */
  lemma {:induction false} ModeIsKept(d: Device, tr: seq<Event>, k: nat)
    requires Legal(d, tr) && BusySince(tr, k)
    ensures InSession(Run(d, tr)) && Run(d, tr).router.value.previousMode == Run(d, tr[..k]).device.mode
    decreases |tr|
  {
    var before, e := tr[..|tr| - 1], tr[|tr| - 1];
    assert tr[..|tr|] == tr;
    SessionFollowsCalls(d, tr);
    SessionFollowsCalls(d, before);
    if k < |before| {
      assert before[..k] == tr[..k] && forall j | k < j <= |before| :: before[..j] == tr[..j];
      ModeIsKept(d, before, k);
      assert InSession(Run(d, before));
    } else {
      assert before == tr[..k];
    }
  }

  /** Ending a session gives back the mode from before it, whoever set it in between. */
  lemma EndRestoresMode(d: Device, tr: seq<Event>, k: nat, e: Event)
    requires Legal(d, tr + [e]) && BusySince(tr, k) && !Busy(tr + [e])
    ensures var v := Run(d, tr + [e]);
            v.device.mode == Run(d, tr[..k]).device.mode && !v.device.speaker && !InSession(v)
  {
    assert (tr + [e])[..|tr|] == tr;
    RunInv(d, tr);
    ModeIsKept(d, tr, k);
    SessionFollowsCalls(d, tr + [e]);
  }

  /** The calls that keep a session up. */
  lemma ActiveStates(s: CallState)
    ensures IsActive(s) <==> s in {Outgoing, Incoming, Ringing, EarlyMedia, Connected, Held, Ending}
  {
  }

  /** The mode after the session's first step: communication, unless somebody else set it since. */
  function ModeSince(tr: seq<Event>, k: nat): int {
    if |tr| <= k + 1 then 3
    else if tr[|tr| - 1].OtherMode? then tr[|tr| - 1].mode
    else ModeSince(tr[..|tr| - 1], k)
  }

  lemma {:induction false} SinceFirst(tr: seq<Event>, k: nat)
    requires forall j | k < j < |tr| :: !tr[j].OtherMode?
    ensures ModeSince(tr, k) == 3
    decreases |tr|
  {
    if |tr| > k + 1 { SinceFirst(tr[..|tr| - 1], k); }
  }

  /**
   * A session puts the device in communication mode (3) when it starts, and leaves the
   * mode to others until it ends: it is 3 throughout unless another application set it.
   */
  lemma {:induction false} SessionSetsMode(d: Device, tr: seq<Event>, k: nat)
    requires Legal(d, tr) && BusySince(tr, k)
    ensures Run(d, tr).device.mode == ModeSince(tr, k)
    ensures (forall j | k < j < |tr| :: !tr[j].OtherMode?) ==> Run(d, tr).device.mode == 3
    decreases |tr|
  {
    var before, e := tr[..|tr| - 1], tr[|tr| - 1];
    assert tr[..|tr|] == tr;
    SessionFollowsCalls(d, tr);
    SessionFollowsCalls(d, before);
    RunInv(d, before);
    if k < |before| {
      assert before[..k] == tr[..k] && forall j | k < j <= |before| :: before[..j] == tr[..j];
      SessionSetsMode(d, before, k);
    } else {
      assert before == tr[..k];
    }
    if forall j | k < j < |tr| :: !tr[j].OtherMode? { SinceFirst(tr, k); }
  }

  /** The event that starts a session asks for the focus, last; what a grant leaves is held. */
  lemma StartRequestsFocus(d: Device, tr: seq<Event>, e: Event)
    requires Legal(d, tr + [e]) && !Busy(tr) && Busy(tr + [e])
    ensures var focus := Run(d, tr + [e]).device.focus;
            && e.CallEvent? && focus != [] && focus[|focus| - 1] == Requested(e.granted)
            && (FocusHeld(Run(d, tr + [e])) == 1 <==> e.granted)
  {
    assert (tr + [e])[..|tr|] == tr;
    SessionFollowsCalls(d, tr);
    SessionFollowsCalls(d, tr + [e]);
    RunInv(d, tr);
  }
}
