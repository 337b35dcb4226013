/** OmnixVoice.kt and OmnixAudioRouter.kt as the objects they are, step by step. */
module AudioSession {
  import opened Wrappers
  import M = AudioModel

  /** The platform's AudioManager. */
  class AudioManager {
    var mode: int
    var speakerphoneOn: bool
    var focus: seq<M.Focus>

    constructor (mode: int, on: bool)
      ensures State() == M.Device(mode, on, [])
    {
      this.mode, speakerphoneOn, focus := mode, on, [];
    }

    function State(): M.Device
      reads this
    {
      M.Device(mode, speakerphoneOn, focus)
    }
  }

  /** SystemOmnixAudioManagerBridge. */
  class Bridge {
    const audioManager: AudioManager
    var focusRequest: bool

    constructor (audioManager: AudioManager)
      ensures this.audioManager == audioManager && !focusRequest
    {
      this.audioManager, focusRequest := audioManager, false;
    }

    method AbandonFocus()
      modifies this, audioManager`focus
      ensures audioManager.focus == M.Abandon(old(audioManager.focus), old(focusRequest)) && !focusRequest
    {
      if !focusRequest {
        return;
      }
      audioManager.focus := audioManager.focus + [M.Abandoned];
      focusRequest := false;
    }

    method RequestVoiceCommunicationFocus(granted: bool) returns (ok: bool)
      modifies this, audioManager`focus
      ensures audioManager.focus ==
              M.Abandon(old(audioManager.focus), old(focusRequest)) + [M.Requested(granted)]
      ensures ok == focusRequest == granted
    {
      AbandonFocus();
      audioManager.focus := audioManager.focus + [M.Requested(granted)];
      if granted {
        focusRequest := true;
        return true;
      }
      return false;
    }
  }

  /** OmnixAudioRouter. */
  class AudioRouter {
    const audio: Bridge
    var sessionActive: bool
    var previousMode: int
    var speakerEnabled: bool
    var focusHeld: bool

    constructor (manager: AudioManager)
      ensures State() == M.NEW_ROUTER && fresh(audio) && audio.audioManager == manager
    {
      audio := new Bridge(manager);
      sessionActive, previousMode, speakerEnabled, focusHeld := false, M.MODE_NORMAL, false, false;
    }

    function State(): M.Router
      reads this, audio
    {
      M.Router(sessionActive, previousMode, speakerEnabled, focusHeld, audio.focusRequest)
    }

    function Both(): (M.Device, M.Router)
      reads this, audio, audio.audioManager
    {
      (audio.audioManager.State(), State())
    }

    method StartCallAudio(granted: bool)
      modifies this, audio, audio.audioManager
      ensures Both() == M.StartCallAudio(old(Both()).0, old(Both()).1, granted)
    {
      var manager := audio.audioManager;
      if sessionActive {
        manager.speakerphoneOn := speakerEnabled;
        return;
      }
      previousMode := manager.mode;
      manager.mode := M.MODE_IN_COMMUNICATION;
      focusHeld := audio.RequestVoiceCommunicationFocus(granted);
      sessionActive := true;
      manager.speakerphoneOn := speakerEnabled;
    }

    method EndCallAudio()
      modifies this, audio, audio.audioManager
      ensures Both() == M.EndCallAudio(old(Both()).0, old(Both()).1)
    {
      var manager := audio.audioManager;
      if !sessionActive {
        return;
      }
      manager.speakerphoneOn := false;
      audio.AbandonFocus();
      focusHeld := false;
      manager.mode := previousMode;
      sessionActive := false;
    }

    method SetSpeakerEnabled(on: bool)
      modifies this, audio.audioManager
      ensures Both() == M.SetSpeakerEnabled(old(Both()).0, old(Both()).1, on)
    {
      speakerEnabled := on;
      if sessionActive {
        audio.audioManager.speakerphoneOn := speakerEnabled;
      }
    }
  }

  /** OmnixVoice. The native core's answers are parameters. */
  class OmnixVoice {
    const manager: AudioManager
    var audioRouter: AudioRouter?
    var calls: M.Calls
    var initialized: bool

    constructor (manager: AudioManager)
      ensures this.manager == manager && Valid() && State() == M.Start(manager.State())
    {
      this.manager, audioRouter, calls, initialized := manager, null, map[], false;
    }

    ghost predicate Valid()
      reads this, audioRouter
    {
      audioRouter != null ==> audioRouter.audio.audioManager == manager
    }

    ghost function Repr(): set<object>
      reads this, audioRouter
    {
      {this, manager} + if audioRouter == null then {} else {audioRouter, audioRouter.audio}
    }

    ghost function State(): M.Voice
      reads this, manager, audioRouter, if audioRouter == null then {} else {audioRouter.audio}
    {
      M.Voice(manager.State(), if audioRouter == null then None else Some(audioRouter.State()),
              calls, initialized)
    }

    method Initialize(outcome: M.InitOutcome) returns (ok: bool)
      requires Valid()
      modifies this
      ensures Valid() && State() == M.After(old(State()), M.Initialize(outcome))
      ensures ok == (!old(initialized) && outcome.Ready?)
    {
      if initialized || outcome.Refused? {
        return false;
      }
      audioRouter := new AudioRouter(manager);
      if outcome.NativeFailed? {
        return false;
      }
      initialized := true;
      return true;
    }

    method Shutdown()
      requires Valid()
      modifies Repr()
      ensures Valid() && State() == M.After(old(State()), M.Shutdown)
    {
      if !initialized {
        return;
      }
      if audioRouter != null {
        audioRouter.EndCallAudio();
      }
      audioRouter := null;
      calls := map[];
      initialized := false;
    }

    method SyncCallAudioSession(latest: M.CallState, granted: bool)
      requires Valid() && (M.IsActive(latest) ==> M.HasActive(calls))
      modifies Repr()
      ensures Valid() && State() == M.SyncCallAudioSession(old(State()), granted)
    {
      var router := audioRouter;
      if router == null {
        return;
      }
      if M.IsActive(latest) || M.HasActive(calls) {
        router.StartCallAudio(granted);
      } else {
        router.EndCallAudio();
      }
    }

    method OnCallEvent(callId: Option<string>, state: M.CallState, granted: bool)
      requires Valid()
      modifies Repr()
      ensures Valid() && State() == M.After(old(State()), M.CallEvent(callId, state, granted))
    {
      if callId.None? {
        return;
      }
      calls := calls[callId.value := state];
      assert callId.value in calls;
      SyncCallAudioSession(state, granted);
    }

    method SetSpeakerEnabled(on: bool, accepted: bool) returns (ok: bool)
      requires Valid()
      modifies Repr()
      ensures Valid() && State() == M.After(old(State()), M.SetSpeaker(on, accepted))
      ensures ok == (old(initialized) && accepted)
    {
      if !initialized || !accepted {
        return false;
      }
      if audioRouter != null {
        audioRouter.SetSpeakerEnabled(on);
      }
      return true;
    }
  }
}
