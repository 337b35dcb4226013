/** The session fields of OmnixVoiceClient, and the jobs that change them. */
module VoiceClient {
  import opened Wrappers
  import Q = OperationQueue

  class OmnixVoiceClient {
    var ready: bool
    var sessionKey: Option<string>
    var subscriptions: seq<string>
    const native: bool

    constructor (native: bool)
      ensures State() == Q.Clean(None, native)
    {
      ready, sessionKey, subscriptions, this.native := false, None, [], native;
    }

    function State(): Q.Session
      reads this
    {
      Q.Session(ready, sessionKey, subscriptions, native)
    }

    method AttachEvents()
      modifies this`subscriptions
      ensures State() == Q.Attached(old(State()))
    {
      if |subscriptions| > 0 || !native {
        return;
      }
      var bindings := Q.EVENTS;
      for i := 0 to |bindings|
        invariant subscriptions == bindings[..i]
      {
        assert bindings[..i + 1] == bindings[..i] + [bindings[i]];
        subscriptions := subscriptions + [bindings[i]];
      }
    }

    method DetachEvents()
      modifies this`subscriptions
      ensures State() == Q.Detached(old(State()))
    {
      subscriptions := [];
    }

    /** doInitialize up to its await: whether it gets there, and how it ends if not. */
    method BeginInitialize(valid: bool, key: string) returns (asked: bool, ended: Q.Outcome)
      modifies this
      ensures var op := Q.Initialize(valid, key);
              && State() == Q.Begun(old(State()), op)
              && asked == Q.AsksNative(old(State()), op)
              && (!asked ==> ended == Q.Immediate(old(State()), op))
    {
      asked, ended := false, Q.Rejected;
      if !valid {
        return;
      }
      if ready {
        if sessionKey == Some(key) {
          ended := Q.Fulfilled;
        }
        return;
      }
      if !native {
        return;
      }
      AttachEvents();
      asked := true;
    }

    /** doInitialize once the native module has answered. */
    method EndInitialize(valid: bool, key: string, answer: Q.Outcome)
      modifies this
      ensures State() == Q.Ended(old(State()), Q.Initialize(valid, key), answer)
    {
      if answer.Rejected? {
        DetachEvents();
        return;
      }
      ready := true;
      sessionKey := Some(key);
      AttachEvents();
    }

    /** doShutdown up to its await; nothing is left to do after it. */
    method BeginShutdown() returns (asked: bool)
      modifies this
      ensures State() == Q.Begun(old(State()), Q.Shutdown) && asked == Q.AsksNative(old(State()), Q.Shutdown)
    {
      var wasReady := ready;
      DetachEvents();
      ready := false;
      sessionKey := None;
      asked := wasReady && native;
    }
  }
}
