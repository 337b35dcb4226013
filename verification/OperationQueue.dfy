/**
 * The TypeScript client's promise chain: enqueue of OmnixVoice.ts, with the promises of
 * the language underneath it, and the session fields that the queued jobs work on.
 */
module OperationQueue {
  import opened Wrappers

  // ---- promises ----------------------------------------------------------------------

  datatype Outcome = Fulfilled | Rejected

  /** What is to happen once a promise settles: call a job's work, or settle its tail. */
  datatype Reaction = Start(job: nat) | Release(job: nat)

  datatype Promise = Pending(waiting: seq<Reaction>) | Settled(outcome: Outcome)

  // ---- the session fields --------------------------------------------------------------

  /**
   * An initialize knows whether its configuration passes and what identifies it; another
   * operation, whether its arguments and the client's own state let it through.
   */
  datatype Op = Initialize(valid: bool, key: string) | Shutdown | Other(passes: bool)

  /** `native` says whether the native module is there. */
  datatype Session = Session(ready: bool, sessionKey: Option<string>, subscriptions: seq<string>,
                             native: bool)

  const EVENTS: seq<string> :=
    ["registrationStateChanged", "incomingCall", "callStateChanged", "audioRouteChanged", "error"]

  function Attached(s: Session): Session {
    if s.subscriptions != [] || !s.native then s else s.(subscriptions := EVENTS)
  }

  function Detached(s: Session): Session {
    s.(subscriptions := [])
  }

  /** The job waits for an answer of the native module. */
  predicate AsksNative(s: Session, op: Op) {
    match op
    case Initialize(valid, _) => valid && !s.ready && s.native
    case Shutdown => s.ready && s.native
    case Other(passes) => s.ready && passes
  }

  /** How a job ends that does not ask. */
  function Immediate(s: Session, op: Op): Outcome {
    match op
    case Initialize(valid, key) => if valid && s.ready && s.sessionKey == Some(key) then Fulfilled else Rejected
    case Shutdown => Fulfilled
    case Other(_) => Rejected
  }

  /** The work up to its await. */
  function Begun(s: Session, op: Op): Session {
    match op
    case Initialize(_, _) => if AsksNative(s, op) then Attached(s) else s
    case Shutdown => Detached(s).(ready := false, sessionKey := None)
    case Other(_) => s
  }

  /** The work after its await. */
  function Ended(s: Session, op: Op, outcome: Outcome): Session {
    if !op.Initialize? then s
    else if outcome.Rejected? then Detached(s)
    else Attached(s.(ready := true, sessionKey := Some(op.key)))
  }

  // ---- the queue -----------------------------------------------------------------------

  /** The job that runs, and whether it has asked the native module. */
  datatype Running = Running(job: nat, asked: bool, immediate: Outcome)

  /**
   * Promise 0 is Promise.resolve(); job j has its own at 2 j + 1, which its caller gets,
   * and the tail after it at 2 j + 2.
   */
  datatype Queue = Queue(ops: seq<Op>, promises: seq<Promise>, tail: nat, microtasks: seq<Reaction>,
                         begun: seq<nat>, outcomes: seq<Outcome>, running: Option<Running>, session: Session)

  /** promise.then(f, f), where f is what `r` says. */
  function Then(q: Queue, p: nat, r: Reaction): Queue
    requires p < |q.promises|
  {
    match q.promises[p]
    case Pending(waiting) => q.(promises := q.promises[p := Pending(waiting + [r])])
    case Settled(_) => q.(microtasks := q.microtasks + [r])
  }

  function Settle(q: Queue, p: nat, outcome: Outcome): Queue
    requires p < |q.promises| && q.promises[p].Pending?
  {
    q.(promises := q.promises[p := Settled(outcome)], microtasks := q.microtasks + q.promises[p].waiting)
  }

  function Enqueue(q: Queue, op: Op): Queue
    requires q.tail < |q.promises|
  {
    var job, run := |q.ops|, |q.promises|;
    var asked := Then(q.(ops := q.ops + [op], promises := q.promises + [Pending([]), Pending([])]),
                      q.tail, Start(job));
    Then(asked, run, Release(job)).(tail := run + 1)
  }

  function BeginJob(q: Queue, job: nat): Queue
    requires job < |q.ops|
  {
    var op := q.ops[job];
    q.(begun := q.begun + [job],
       running := Some(Running(job, AsksNative(q.session, op), Immediate(q.session, op))),
       session := Begun(q.session, op))
  }

  function EndJob(q: Queue, outcome: Outcome): Queue
    requires q.running.Some? && q.running.value.job < |q.ops|
    requires 2 * q.running.value.job + 1 < |q.promises| && q.promises[2 * q.running.value.job + 1].Pending?
  {
    var r := q.running.value;
    var session := if r.asked then Ended(q.session, q.ops[r.job], outcome) else q.session;
    Settle(q.(outcomes := q.outcomes + [outcome], running := None, session := session), 2 * r.job + 1, outcome)
  }

  // ---- runs ------------------------------------------------------------------------------

  /** A call of the client, a turn of the microtask loop, the end of the running job's work. */
  datatype Step = Call(op: Op) | Turn | WorkDone(outcome: Outcome)

  predicate Enabled(q: Queue, s: Step) {
    match s
    case Call(_) => q.tail < |q.promises|
    case Turn =>
      q.microtasks != [] &&
      (match q.microtasks[0]
       case Start(job) => job < |q.ops|
       case Release(job) => 2 * job + 2 < |q.promises| && q.promises[2 * job + 2].Pending?)
    case WorkDone(outcome) =>
      && q.running.Some? && q.running.value.job < |q.ops|
      && 2 * q.running.value.job + 1 < |q.promises| && q.promises[2 * q.running.value.job + 1].Pending?
      && (!q.running.value.asked ==> outcome == q.running.value.immediate)
  }

  function After(q: Queue, s: Step): Queue
    requires Enabled(q, s)
  {
    match s
    case Call(op) => Enqueue(q, op)
    case Turn =>
      var rest := q.(microtasks := q.microtasks[1..]);
      (match q.microtasks[0]
       case Start(job) => BeginJob(rest, job)
       case Release(job) => Settle(rest, 2 * job + 2, Fulfilled))
    case WorkDone(outcome) => EndJob(q, outcome)
  }

  function Initial(native: bool): Queue {
    Queue([], [Settled(Fulfilled)], 0, [], [], [], None, Session(false, None, [], native))
  }

  predicate Legal(native: bool, tr: seq<Step>)
    decreases |tr|, 0
  {
    tr == [] || (Legal(native, tr[..|tr| - 1]) && Enabled(Run(native, tr[..|tr| - 1]), tr[|tr| - 1]))
  }

  function Run(native: bool, tr: seq<Step>): Queue
    requires Legal(native, tr)
    decreases |tr|, 1
  {
    if tr == [] then Initial(native) else After(Run(native, tr[..|tr| - 1]), tr[|tr| - 1])
  }

  // ---- the shape of the chain ----------------------------------------------------------

  /** Where the chain is: between jobs, in one, or between one's end and its tail's. */
  datatype Phase = Idle | Working | Passing

  function PhaseOf(q: Queue): Phase {
    if q.running.Some? then Working
    else if q.microtasks != [] && q.microtasks[0].Release? then Passing
    else Idle
  }

  /** How many jobs have settled their tails. */
  function Released(q: Queue): int {
    |q.outcomes| - if PhaseOf(q).Passing? then 1 else 0
  }

  /** Jobs begin one after the other, in the order of the calls. */
  predicate InOrder(q: Queue) {
    && 0 <= Released(q) && |q.outcomes| <= |q.begun| <= |q.ops|
    && (forall k | 0 <= k < |q.begun| :: q.begun[k] == k)
    && |q.begun| == |q.outcomes| + (if q.running.Some? then 1 else 0)
    && (q.running.Some? ==> q.running.value.job == |q.outcomes|)
  }

  /** At most one reaction is ever due, and the phase says which. */
  predicate OneMicrotask(q: Queue)
    requires InOrder(q)
  {
    q.microtasks ==
      match PhaseOf(q)
      case Working => []
      case Passing => [Release(|q.outcomes| - 1)]
      case Idle => if |q.outcomes| < |q.ops| then [Start(|q.outcomes|)] else []
  }

  /** The i-th tail, when `released` of `calls` jobs have settled theirs. */
  function TailShould(released: int, calls: nat, i: nat): Promise {
    if i <= released then Settled(Fulfilled) else Pending(if i < calls then [Start(i)] else [])
  }

  /** The promise of job j's caller: how job j itself ended, nothing else. */
  function RunShould(outcomes: seq<Outcome>, j: nat): Promise {
    if j < |outcomes| then Settled(outcomes[j]) else Pending([Release(j)])
  }

  predicate Chain(q: Queue) {
    && |q.promises| == 2 * |q.ops| + 1 && q.tail == 2 * |q.ops|
    && (forall i: nat | i <= |q.ops| :: q.promises[2 * i] == TailShould(Released(q), |q.ops|, i))
    && (forall j: nat | j < |q.ops| :: q.promises[2 * j + 1] == RunShould(q.outcomes, j))
  }

  predicate Good(q: Queue) {
    InOrder(q) && OneMicrotask(q) && Chain(q)
  }

  // ---- every step keeps it ---------------------------------------------------------------

  /** What a call adds: its two promises, and its start after the last tail. */
  lemma CallAdds(q: Queue, op: Op)
    requires Good(q)
    ensures var n, w := |q.ops|, Enqueue(q, op);
            && w == q.(ops := q.ops + [op], promises := w.promises, tail := 2 * n + 2, microtasks := w.microtasks)
            && |w.promises| == 2 * n + 3
            && w.promises[2 * n + 1] == Pending([Release(n)]) && w.promises[2 * n + 2] == Pending([])
            && w.promises[2 * n] == TailShould(Released(q), n + 1, n)
            && w.microtasks == q.microtasks + (if n <= Released(q) then [Start(n)] else [])
            && forall k | 0 <= k < 2 * n :: w.promises[k] == q.promises[k]
  {
    var n := |q.ops|;
    assert q.promises[2 * n] == TailShould(Released(q), n, n);
  }

  lemma CallChain(q: Queue, op: Op)
    requires Good(q)
    ensures Released(Enqueue(q, op)) == Released(q) && Chain(Enqueue(q, op))
  {
    var n := |q.ops|;
    var w := Enqueue(q, op);
    CallAdds(q, op);
    var released := Released(q);
    assert Released(w) == released;
    forall i: nat | i <= n + 1 ensures w.promises[2 * i] == TailShould(released, n + 1, i) {
      if i < n { assert q.promises[2 * i] == TailShould(released, n, i); }
    }
    forall j: nat | j < n + 1 ensures w.promises[2 * j + 1] == RunShould(w.outcomes, j) {
      if j < n { assert q.promises[2 * j + 1] == RunShould(q.outcomes, j); }
    }
  }

  lemma CallGood(q: Queue, op: Op)
    requires Good(q)
    ensures Good(Enqueue(q, op))
  {
    CallChain(q, op);
    CallAdds(q, op);
  }

  lemma BeginGood(q: Queue, job: nat)
    requires Good(q) && q.microtasks == [Start(job)] && job < |q.ops|
    ensures Good(BeginJob(q.(microtasks := []), job))
  {
    var w := BeginJob(q.(microtasks := []), job);
    var n := |q.ops|;
    forall i: nat | i <= n ensures w.promises[2 * i] == TailShould(Released(w), n, i) {
      assert q.promises[2 * i] == TailShould(Released(q), n, i);
    }
  }

  lemma ReleaseGood(q: Queue, job: nat)
    requires Good(q) && q.microtasks == [Release(job)]
    ensures 2 * job + 2 < |q.promises| && q.promises[2 * job + 2].Pending?
    ensures Good(Settle(q.(microtasks := []), 2 * job + 2, Fulfilled))
  {
    var n := |q.ops|;
    assert q.promises[2 * (job + 1)] == TailShould(Released(q), n, job + 1);
    var w := Settle(q.(microtasks := []), 2 * job + 2, Fulfilled);
    forall i: nat | i <= n ensures w.promises[2 * i] == TailShould(Released(w), n, i) {
      assert q.promises[2 * i] == TailShould(Released(q), n, i);
    }
    forall j: nat | j < n ensures w.promises[2 * j + 1] == RunShould(w.outcomes, j) {
      assert q.promises[2 * j + 1] == RunShould(q.outcomes, j);
    }
  }

  lemma TurnGood(q: Queue)
    requires Good(q) && Enabled(q, Turn)
    ensures Good(After(q, Turn))
  {
    assert |q.microtasks| == 1 && q.microtasks[1..] == [];
    match q.microtasks[0]
    case Start(job) => BeginGood(q, job);
    case Release(job) => ReleaseGood(q, job);
  }

  lemma WorkDoneGood(q: Queue, outcome: Outcome)
    requires Good(q) && Enabled(q, WorkDone(outcome))
    ensures Good(EndJob(q, outcome))
  {
    var w := EndJob(q, outcome);
    var n := |q.ops|;
    assert q.promises[2 * |q.outcomes| + 1] == RunShould(q.outcomes, |q.outcomes|);
    forall i: nat | i <= n ensures w.promises[2 * i] == TailShould(Released(w), n, i) {
      assert q.promises[2 * i] == TailShould(Released(q), n, i);
    }
    forall j: nat | j < n ensures w.promises[2 * j + 1] == RunShould(w.outcomes, j) {
      assert q.promises[2 * j + 1] == RunShould(q.outcomes, j);
    }
  }

  lemma {:induction false} RunGood(native: bool, tr: seq<Step>)
    requires Legal(native, tr)
    ensures Good(Run(native, tr))
    decreases |tr|
  {
    if tr != [] {
      RunGood(native, tr[..|tr| - 1]);
      var q := Run(native, tr[..|tr| - 1]);
      match tr[|tr| - 1]
      case Call(op) => CallGood(q, op);
      case Turn => TurnGood(q);
      case WorkDone(outcome) => WorkDoneGood(q, outcome);
    }
  }

  // ---- turns and outcomes ----------------------------------------------------------------

  /**
   * In every run the jobs begin in the order of the calls, each once, and none before the
   * last one has ended; a caller's promise settles the way its own job ended.
   */
  lemma JobsTakeTurns(native: bool, tr: seq<Step>, j: nat)
    requires Legal(native, tr) && j < |Run(native, tr).ops|
    ensures var q := Run(native, tr);
            && |q.outcomes| <= |q.begun| <= |q.outcomes| + 1
            && (j < |q.begun| ==> q.begun[j] == j)
            && 2 * j + 1 < |q.promises|
            && (j < |q.outcomes| ==> q.promises[2 * j + 1] == Settled(q.outcomes[j]))
            && (j >= |q.outcomes| ==> q.promises[2 * j + 1].Pending?)
  {
    RunGood(native, tr);
    var q := Run(native, tr);
    assert q.promises[2 * j + 1] == RunShould(q.outcomes, j);
  }

  predicate Runs(q: Queue, job: nat) {
    q.running.Some? && q.running.value.job == job
  }

  /** After a job's end its tail settles, and the next job's start is due. */
  lemma ReleaseStarts(q: Queue)
    requires Good(q) && PhaseOf(q).Passing? && |q.outcomes| < |q.ops|
    ensures Enabled(q, Turn)
    ensures var w := After(q, Turn); w.ops == q.ops && w.microtasks == [Start(|q.outcomes|)]
  {
    ReleaseGood(q, |q.outcomes| - 1);
    assert q.promises[2 * |q.outcomes|] == TailShould(Released(q), |q.ops|, |q.outcomes|);
    assert q.microtasks[1..] == [];
  }

  lemma StartRuns(w: Queue, job: nat)
    requires w.microtasks == [Start(job)] && job < |w.ops|
    ensures Enabled(w, Turn) && Runs(After(w, Turn), job)
  {
  }

  lemma RunningEnds(q: Queue, o: Outcome)
    requires Good(q) && q.running.Some? && (q.running.value.asked || o == q.running.value.immediate)
    ensures Enabled(q, WorkDone(o))
  {
    assert q.promises[2 * |q.outcomes| + 1] == RunShould(q.outcomes, |q.outcomes|);
  }

  /**
   * The queue never stalls, however the jobs before ended: with a job left, either the
   * first one left runs, and its end is a step, or two turns at most begin it.
   */
  lemma NeverStalls(native: bool, tr: seq<Step>)
    requires Legal(native, tr) && |Run(native, tr).outcomes| < |Run(native, tr).ops|
    ensures var q := Run(native, tr);
            var next := |q.outcomes|;
            if q.running.Some? then
              && Runs(q, next)
              && forall o: Outcome :: (q.running.value.asked || o == q.running.value.immediate) ==>
                                        Enabled(q, WorkDone(o))
            else
              && Enabled(q, Turn)
              && var w := After(q, Turn);
                 Runs(w, next) || (Enabled(w, Turn) && Runs(After(w, Turn), next))
  {
    RunGood(native, tr);
    var q := Run(native, tr);
    if q.running.Some? {
      forall o: Outcome | q.running.value.asked || o == q.running.value.immediate
        ensures Enabled(q, WorkDone(o))
      {
        RunningEnds(q, o);
      }
    } else if PhaseOf(q).Passing? {
      ReleaseStarts(q);
      StartRuns(After(q, Turn), |q.outcomes|);
    } else {
      StartRuns(q, |q.outcomes|);
    }
  }

  // ---- the session -------------------------------------------------------------------

  /** What one job does to the session's key if it has the client to itself. */
  function KeyAfter(key: Option<string>, op: Op, outcome: Outcome): Option<string> {
    match op
    case Initialize(_, k) => if outcome.Fulfilled? then Some(k) else key
    case Shutdown => None
    case Other(_) => key
  }

  /** The ended jobs, one after the other. */
  function Key(ops: seq<Op>, outcomes: seq<Outcome>): Option<string>
    requires |outcomes| <= |ops|
    decreases |outcomes|
  {
    if outcomes == [] then None
    else
      var k := |outcomes| - 1;
      KeyAfter(Key(ops, outcomes[..k]), ops[k], outcomes[k])
  }

  /** Ready, a key and the five subscriptions: all of them or none. */
  function Clean(key: Option<string>, native: bool): Session {
    Session(key.Some?, key, if key.Some? then EVENTS else [], native)
  }

  lemma JobIsSequential(key: Option<string>, native: bool, op: Op, outcome: Outcome)
    requires key.Some? ==> native
    requires var s := Clean(key, native); AsksNative(s, op) || outcome == Immediate(s, op)
    ensures var s := Clean(key, native);
            var done := Begun(s, op);
            (if AsksNative(s, op) then Ended(done, op, outcome) else done)
            == Clean(KeyAfter(key, op, outcome), native)
    ensures KeyAfter(key, op, outcome).Some? ==> native
  {
  }

  lemma {:induction false} KeyPrefix(ops: seq<Op>, op: Op, outcomes: seq<Outcome>)
    requires |outcomes| <= |ops|
    ensures Key(ops + [op], outcomes) == Key(ops, outcomes)
    decreases |outcomes|
  {
    if outcomes != [] { KeyPrefix(ops, op, outcomes[..|outcomes| - 1]); }
  }

  predicate SessionIs(native: bool, q: Queue)
    requires InOrder(q)
  {
    var key := Key(q.ops, q.outcomes);
    var clean := Clean(key, native);
    && (key.Some? ==> native)
    && if q.running.None? then q.session == clean
       else
         var op := q.ops[|q.outcomes|];
         && q.running.value == Running(|q.outcomes|, AsksNative(clean, op), Immediate(clean, op))
         && q.session == Begun(clean, op)
  }

  lemma SessionStep(native: bool, q: Queue, s: Step)
    requires Good(q) && SessionIs(native, q) && Enabled(q, s)
    requires Good(After(q, s))
    ensures SessionIs(native, After(q, s))
  {
    match s
    case Call(op) => KeyPrefix(q.ops, op, q.outcomes);
    case Turn =>
    case WorkDone(outcome) =>
      var op := q.ops[|q.outcomes|];
      JobIsSequential(Key(q.ops, q.outcomes), native, op, outcome);
      assert (q.outcomes + [outcome])[..|q.outcomes|] == q.outcomes;
  }

  lemma {:induction false} RunSession(native: bool, tr: seq<Step>)
    requires Legal(native, tr)
    ensures Good(Run(native, tr)) && SessionIs(native, Run(native, tr))
    decreases |tr|
  {
    RunGood(native, tr);
    if tr != [] {
      RunSession(native, tr[..|tr| - 1]);
      SessionStep(native, Run(native, tr[..|tr| - 1]), tr[|tr| - 1]);
    }
  }

  /**
   * However the calls overlap, between two jobs the client is in the state that the ended
   * jobs leave when they run one after the other: ready, with the key of the last
   * initialize and the five subscriptions, or with none of the three.
   */
  lemma SessionIsSequential(native: bool, tr: seq<Step>)
    requires Legal(native, tr) && Run(native, tr).running.None?
    ensures var q := Run(native, tr);
            && |q.outcomes| <= |q.ops|
            && q.session == Clean(Key(q.ops, q.outcomes), native)
            && q.session.ready == q.session.sessionKey.Some?
            && q.session.subscriptions ==
               if q.session.ready
               then ["registrationStateChanged", "incomingCall", "callStateChanged", "audioRouteChanged", "error"]
               else []
  {
    RunSession(native, tr);
  }

  // ---- what each job does ------------------------------------------------------------------

  /** The job decides the key: a shutdown, or an initialize that went through. */
  predicate Decides(op: Op, outcome: Outcome) {
    op.Shutdown? || (op.Initialize? && outcome.Fulfilled?)
  }

  /** The key after some jobs is that of the last initialize that went through, unless a shutdown came later. */
  lemma {:induction false} KeyIsLast(ops: seq<Op>, outcomes: seq<Outcome>, j: nat)
    requires |outcomes| <= |ops|
    requires forall k | j < k < |outcomes| :: !Decides(ops[k], outcomes[k])
    ensures j < |outcomes| && Decides(ops[j], outcomes[j]) ==>
              Key(ops, outcomes) == if ops[j].Shutdown? then None else Some(ops[j].key)
    ensures (forall k | 0 <= k < |outcomes| :: !Decides(ops[k], outcomes[k])) ==> Key(ops, outcomes) == None
    decreases |outcomes|
  {
    if outcomes != [] {
      var before := outcomes[..|outcomes| - 1];
      assert forall k | 0 <= k < |before| :: before[k] == outcomes[k];
      if j != |before| { KeyIsLast(ops, before, j); }
      if forall k | 0 <= k < |outcomes| :: !Decides(ops[k], outcomes[k]) {
        KeyIsLast(ops, before, j);
      }
    }
  }

  /** With this key in the client, the job asks the native module. */
  predicate Asks(native: bool, key: Option<string>, op: Op) {
    match op
    case Initialize(valid, _) => valid && key.None? && native
    case Shutdown => key.Some?
    case Other(passes) => key.Some? && passes
  }

  /**
   * A job that does not ask ends at once: an initialize well only for the key that the
   * client already has, a shutdown well, anything else badly.
   */
  predicate OutcomeFits(native: bool, key: Option<string>, op: Op, outcome: Outcome) {
    || Asks(native, key, op)
    || (outcome.Fulfilled? <==> op.Shutdown? || (op.Initialize? && op.valid && key == Some(op.key)))
  }

  lemma AsksIs(native: bool, key: Option<string>, op: Op)
    requires key.Some? ==> native
    ensures AsksNative(Clean(key, native), op) == Asks(native, key, op)
    ensures OutcomeFits(native, key, op, Immediate(Clean(key, native), op))
  {
  }

  /** In every run the job that runs asks exactly when it should; it has its subscriptions by then. */
  lemma RunningJobIs(native: bool, tr: seq<Step>)
    requires Legal(native, tr) && Run(native, tr).running.Some?
    ensures var q := Run(native, tr); var n := |q.outcomes|;
            && q.running.value.job == n < |q.ops|
            && var key := Key(q.ops, q.outcomes);
               && q.running.value.asked == Asks(native, key, q.ops[n])
               && q.session.ready == q.session.sessionKey.Some?
               && q.session.sessionKey == (if q.ops[n].Shutdown? then None else key)
               && q.session.subscriptions ==
                  if q.session.ready || (q.ops[n].Initialize? && q.running.value.asked)
                  then ["registrationStateChanged", "incomingCall", "callStateChanged", "audioRouteChanged", "error"]
                  else []
  {
    RunSession(native, tr);
    var q := Run(native, tr);
    AsksIs(native, Key(q.ops, q.outcomes), q.ops[|q.outcomes|]);
  }

  /** Every ended job fits the key that the jobs before it left. */
  ghost predicate AllFit(native: bool, ops: seq<Op>, outcomes: seq<Outcome>)
    requires |outcomes| <= |ops|
  {
    forall j | 0 <= j < |outcomes| :: OutcomeFits(native, Key(ops, outcomes[..j]), ops[j], outcomes[j])
  }

  lemma FitsMore(native: bool, ops: seq<Op>, op: Op, outcomes: seq<Outcome>)
    requires |outcomes| <= |ops| && AllFit(native, ops, outcomes)
    ensures AllFit(native, ops + [op], outcomes)
  {
    forall j | 0 <= j < |outcomes|
      ensures OutcomeFits(native, Key(ops + [op], outcomes[..j]), (ops + [op])[j], outcomes[j])
    {
      KeyPrefix(ops, op, outcomes[..j]);
    }
  }

  lemma FitsLast(native: bool, ops: seq<Op>, outcomes: seq<Outcome>, outcome: Outcome)
    requires |outcomes| < |ops| && AllFit(native, ops, outcomes)
    requires OutcomeFits(native, Key(ops, outcomes), ops[|outcomes|], outcome)
    ensures AllFit(native, ops, outcomes + [outcome])
  {
    var all := outcomes + [outcome];
    forall j | 0 <= j < |all| ensures OutcomeFits(native, Key(ops, all[..j]), ops[j], all[j]) {
      assert all[..j] == outcomes[..j];
      if j == |outcomes| { assert outcomes[..j] == outcomes; }
    }
  }

  /**
   * In every run each job that did not ask the native module ended as it should: a second
   * initialize well with the same key and badly with another, a call without a session badly.
   */
  lemma {:induction false} JobsEndAsTheyShould(native: bool, tr: seq<Step>)
    requires Legal(native, tr)
    ensures var q := Run(native, tr); |q.outcomes| <= |q.ops| && AllFit(native, q.ops, q.outcomes)
    decreases |tr|
  {
    RunGood(native, tr);
    if tr != [] {
      var before := tr[..|tr| - 1];
      JobsEndAsTheyShould(native, before);
      RunSession(native, before);
      var q := Run(native, before);
      match tr[|tr| - 1]
      case Call(op) => FitsMore(native, q.ops, op, q.outcomes);
      case Turn =>
      case WorkDone(outcome) =>
        AsksIs(native, Key(q.ops, q.outcomes), q.ops[|q.outcomes|]);
        FitsLast(native, q.ops, q.outcomes, outcome);
    }
  }
}
