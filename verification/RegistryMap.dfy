/**
 * The slot array refines a partial map from identifier to call of size at most
 * eight, as long as identifiers fit their buffer.
 */
module RegistryMap {
  import opened Wrappers
  import opened Text
  import opened CallModel
  import opened CallRuns
  import opened CallTheorems

  type Registry = map<string, Call>

  /** Occupied slots have different identifiers. */
  predicate Apart(slots: seq<Slot>) {
    && (forall i | 0 <= i < |slots| && slots[i].call.Some? :: slots[i].callId != "")
    && forall i, j | 0 <= i < j < |slots| && slots[i].call.Some? && slots[j].call.Some? ::
         slots[i].callId != slots[j].callId
  }

  function Abs(slots: seq<Slot>): Registry {
    if slots == [] then map[]
    else
      var m := Abs(slots[..|slots| - 1]);
      var last := slots[|slots| - 1];
      if last.call.Some? then m[last.callId := last.call.value] else m
  }

  lemma {:induction false} AbsHas(slots: seq<Slot>)
    requires Apart(slots)
    ensures forall id :: id in Abs(slots) <==> exists i | 0 <= i < |slots| :: HasId(slots[i], id)
    ensures forall i | 0 <= i < |slots| && slots[i].call.Some? ::
              slots[i].callId in Abs(slots) && Abs(slots)[slots[i].callId] == slots[i].call.value
    decreases |slots|
  {
    if slots != [] {
      var front := slots[..|slots| - 1];
      AbsHas(front);
      forall id ensures id in Abs(slots) <==> exists i | 0 <= i < |slots| :: HasId(slots[i], id) {
        if i :| 0 <= i < |slots| && HasId(slots[i], id) {
          assert i < |front| ==> HasId(front[i], id);
        }
        if id in Abs(front) {
          var i :| 0 <= i < |front| && HasId(front[i], id);
          assert HasId(slots[i], id);
        }
      }
    }
  }

  /** omnix_find_call_by_id is map lookup. */
  lemma LookupIsMap(slots: seq<Slot>, id: string)
    requires Apart(slots)
    ensures FindById(slots, id).Some? <==> id in Abs(slots)
    ensures id in Abs(slots) ==> slots[FindById(slots, id).value].call == Some(Abs(slots)[id])
  {
    AbsHas(slots);
    var r := FindById(slots, id);
    if r.Some? { assert HasId(slots[r.value], id); }
  }

  /** omnix_call_registry_count. */
  function Count(slots: seq<Slot>): nat {
    if slots == [] then 0
    else Count(slots[..|slots| - 1]) + if slots[|slots| - 1].call.Some? then 1 else 0
  }

  lemma {:induction false} CountIsSize(slots: seq<Slot>)
    requires Apart(slots)
    ensures Count(slots) == |Abs(slots)|
    decreases |slots|
  {
    if slots != [] {
      var front := slots[..|slots| - 1];
      CountIsSize(front);
      AbsHas(front);
    }
  }

  lemma {:induction false} FullIsFull(slots: seq<Slot>)
    ensures Count(slots) <= |slots|
    ensures Count(slots) == |slots| <==> FindByPtr(slots, None) == None
    decreases |slots|
  {
    if slots != [] {
      var front := slots[..|slots| - 1];
      FullIsFull(front);
      var r, f := FindByPtr(slots, None), FindByPtr(front, None);
      if f.Some? { assert slots[f.value].call == None; }
      if r.Some? && r.value < |front| { assert front[r.value].call == None; }
      if f == None { assert forall j | 0 <= j < |front| :: front[j].call != None; }
    }
  }

  /** Two slot arrays with the same maplets have the same map. */
  lemma AbsIs(slots: seq<Slot>, m: Registry)
    requires Apart(slots)
    requires forall i | 0 <= i < |slots| && slots[i].call.Some? ::
               slots[i].callId in m && m[slots[i].callId] == slots[i].call.value
    requires forall id | id in m :: exists i | 0 <= i < |slots| :: HasId(slots[i], id)
    ensures Abs(slots) == m
  {
    AbsHas(slots);
    forall id ensures id in Abs(slots) <==> id in m {
      if id in Abs(slots) {
        var i :| 0 <= i < |slots| && HasId(slots[i], id);
      }
    }
    forall id | id in m ensures Abs(slots)[id] == m[id] {
      var i :| 0 <= i < |slots| && HasId(slots[i], id);
    }
  }

  /** Filling a free slot inserts; clearing a slot removes; anything else about a slot is invisible. */
  lemma AbsFill(slots: seq<Slot>, i: nat, slot: Slot)
    requires Apart(slots) && i < |slots| && slots[i].call == None
    requires slot.call.Some? && slot.callId != "" && slot.callId !in Abs(slots)
    ensures Apart(slots[i := slot])
    ensures Abs(slots[i := slot]) == Abs(slots)[slot.callId := slot.call.value]
  {
    AbsHas(slots);
    var r := slots[i := slot];
    forall j | 0 <= j < |slots| && j != i && slots[j].call.Some? ensures slots[j].callId != slot.callId {
      assert HasId(slots[j], slots[j].callId);
    }
    var m := Abs(slots)[slot.callId := slot.call.value];
    forall id | id in m ensures exists k | 0 <= k < |r| :: HasId(r[k], id) {
      if id == slot.callId { assert HasId(r[i], id); }
      else {
        var k :| 0 <= k < |slots| && HasId(slots[k], id);
        assert HasId(r[k], id);
      }
    }
    AbsIs(r, m);
  }

  lemma AbsClear(slots: seq<Slot>, i: nat)
    requires Apart(slots) && i < |slots| && slots[i].call.Some?
    ensures Apart(slots[i := EMPTY_SLOT])
    ensures Abs(slots[i := EMPTY_SLOT]) == Abs(slots) - {slots[i].callId}
  {
    AbsHas(slots);
    var r := slots[i := EMPTY_SLOT];
    var m := Abs(slots) - {slots[i].callId};
    forall id | id in m ensures exists k | 0 <= k < |r| :: HasId(r[k], id) {
      var k :| 0 <= k < |slots| && HasId(slots[k], id);
      assert HasId(r[k], id);
    }
    AbsIs(r, m);
  }

  lemma {:induction false} AbsSame(a: seq<Slot>, b: seq<Slot>)
    requires |a| == |b| && Apart(a)
    requires forall k | 0 <= k < |a| :: a[k].call == b[k].call && a[k].callId == b[k].callId
    ensures Apart(b) && Abs(b) == Abs(a)
    decreases |a|
  {
    if a != [] { AbsSame(a[..|a| - 1], b[..|b| - 1]); }
  }

  // ---- the map machine, and the simulation -----------------------------------------

  function Without(m: Registry, c: Call): Registry {
    map id | id in m && m[id] != c :: m[id]
  }

  /** A slot remembers as much of an identifier as call_id[128] holds. */
  function Key(id: string): string {
    Copy(id, ID_SIZE)
  }

  function Insert(m: Registry, id: string, c: Call): Registry {
    if id != "" && Key(id) !in m && |m| < CAPACITY then m[Key(id) := c] else m
  }

  function MapAfter(m: Registry, step: Step): Registry {
    match step
    case NewIncoming(c, b, _) => Insert(m, b.id, c)
    case NewOutgoing(c, b, _, _) => Insert(m, b.id, c)
    case RemoteClose(c, _, _) => Without(m, c)
    case AppReject(id, _) => m - {id}
    case AppHangUp(id, _) => m - {id}
    case RegistryReset => map[]
    case _ => m
  }

  /** A new identifier that does not fit, while a slot is free and what fits of it is taken. */
  predicate Clashes(m: Registry, id: string) {
    ID_SIZE <= |id| && Key(id) in m && |m| < CAPACITY
  }

  predicate Collides(m: Registry, step: Step) {
    match step
    case NewIncoming(_, b, _) => Clashes(m, b.id)
    case NewOutgoing(_, b, _, _) => Clashes(m, b.id)
    case _ => false
  }

  /** The slot array after a step is the map after it, or no map, as there is a collision or not. */
  predicate Simulates(s: Calls, step: Step, r: Calls) {
    && (Apart(r.slots) <==> !Collides(Abs(s.slots), step))
    && (Apart(r.slots) ==> Abs(r.slots) == MapAfter(Abs(s.slots), step))
  }

  /** No slot has an identifier that does not fit one. */
  lemma LongIsNotFound(s: Calls, id: string)
    requires SlotsOk(s) && ID_SIZE <= |id|
    ensures FindById(s.slots, id) == None
  {
    forall k | 0 <= k < |s.slots| ensures !HasId(s.slots[k], id) {
      assert SlotOk(s.slots[k], s.stack);
    }
  }

  /**
   * omnix_alloc_call_slot refuses a new call exactly when its identifier is empty, or
   * fits and is taken, or the map is full.
   */
  lemma AllocInserts(s: Calls, c: Call)
    requires Inv(s) && Apart(s.slots) && Live(s, c) && s.stack[c].handler == UaHandler
    ensures var id := s.stack[c].id; var a := Alloc(s, c);
            && (a == None <==> id == "" || (|id| < ID_SIZE && id in Abs(s.slots)) || |Abs(s.slots)| == CAPACITY)
            && (a.Some? ==> var (i, slot) := a.value;
                  i < CAPACITY && s.slots[i].call == None && slot.callId == Key(id) != "" && slot.call == Some(c))
  {
    var id := s.stack[c].id;
    Unslotted(s, c);
    LookupIsMap(s.slots, id);
    CountIsSize(s.slots);
    FullIsFull(s.slots);
    if ID_SIZE <= |id| { LongIsNotFound(s, id); }
  }

  /** Filling a free slot keeps the identifiers apart exactly when the new one is not taken. */
  lemma FillIsApart(slots: seq<Slot>, i: nat, slot: Slot)
    requires Apart(slots) && i < |slots| && slots[i].call == None && slot.call.Some? && slot.callId != ""
    ensures Apart(slots[i := slot]) <==> slot.callId !in Abs(slots)
  {
    AbsHas(slots);
    if slot.callId in Abs(slots) {
      var r := slots[i := slot];
      var k :| 0 <= k < |slots| && HasId(slots[k], slot.callId);
      assert r[k] == slots[k] && r[i] == slot && k != i;
    } else {
      AbsFill(slots, i, slot);
    }
  }

  /** What adopting a new call does, whatever else its slot says. */
  lemma AdoptSimulates(s: Calls, c: Call, b: StackCall, i: nat, slot: Slot)
    requires Apart(s.slots) && i < |s.slots| && s.slots[i].call == None
    requires slot.call == Some(c) && slot.callId == Key(b.id) != "" && |Abs(s.slots)| < CAPACITY
    requires |b.id| < ID_SIZE ==> b.id !in Abs(s.slots)
    ensures var r := s.slots[i := slot];
            && (Apart(r) <==> !Clashes(Abs(s.slots), b.id))
            && (Apart(r) ==> Abs(r) == Insert(Abs(s.slots), b.id, c))
  {
    FillIsApart(s.slots, i, slot);
    if Apart(s.slots[i := slot]) { AbsFill(s.slots, i, slot); }
  }

  /** A new call before it is looked at: the same slots, and what allocating it gives. */
  lemma NewcomerAlloc(s: Calls, c: Call, b: StackCall)
    requires Inv(s) && Apart(s.slots) && IsNew(s, c, b)
    ensures var s1 := s.(stack := s.stack[c := b]);
            && Linked(s1) && Live(s1, c)
            && match Alloc(s1, c)
               case None => !Clashes(Abs(s.slots), b.id) && Insert(Abs(s.slots), b.id, c) == Abs(s.slots)
               case Some((i, slot)) =>
                 && i < CAPACITY && s.slots[i].call == None && |Abs(s.slots)| < CAPACITY
                 && slot.callId == Key(b.id) != "" && slot.call == Some(c)
                 && (|b.id| < ID_SIZE ==> b.id !in Abs(s.slots))
  {
    NewcomerInv(s, c, b);
    AllocInserts(s.(stack := s.stack[c := b]), c);
    CountIsSize(s.slots);
    FullIsFull(s.slots);
  }

  lemma IncomingRefines(s: Calls, step: Step)
    requires Inv(s) && Apart(s.slots) && Enabled(s, step) && step.NewIncoming?
    ensures Simulates(s, step, After(s, step))
  {
    var c, b := step.c, step.b;
    NewcomerAlloc(s, c, b);
    match Alloc(s.(stack := s.stack[c := b]), c)
    case None =>
    case Some((i, slot)) =>
      var info := InfoFrom(b, slot.info.isMuted).(state := Incoming, isOutgoing := false);
      AdoptSimulates(s, c, b, i, slot.(info := info));
  }

  lemma OutgoingRefines(s: Calls, step: Step)
    requires Inv(s) && Apart(s.slots) && Enabled(s, step) && step.NewOutgoing?
    ensures Simulates(s, step, After(s, step))
  {
    var c, b := step.c, step.b;
    NewcomerAlloc(s, c, b);
    match Alloc(s.(stack := s.stack[c := b]), c)
    case None =>
    case Some((i, slot)) =>
      AdoptSimulates(s, c, b, i, slot.(info := slot.info.(state := Outgoing)));
  }

  /** A call is the value of the identifier of the slot its handler names, and of no other. */
  lemma ValueIs(s: Calls, c: Call, id: string)
    requires Inv(s) && Apart(s.slots) && Live(s, c) && id in Abs(s.slots)
    ensures var h := s.stack[c].handler;
            Abs(s.slots)[id] == c <==>
            h.OmnixHandler? && s.slots[h.entry].call == Some(c) && id == s.slots[h.entry].callId
  {
    LookupIsMap(s.slots, id);
    var k := FindById(s.slots, id).value;
    OwnedBy(s, k, s.slots[k].call.value);
    var h := s.stack[c].handler;
    if h.OmnixHandler? && s.slots[h.entry].call == Some(c) && id == s.slots[h.entry].callId {
      OnlyOneHas(s.slots, id, k, h.entry);
    }
  }

  lemma WithoutIs(s: Calls, c: Call)
    requires Inv(s) && Apart(s.slots) && Live(s, c)
    ensures var h := s.stack[c].handler;
            Without(Abs(s.slots), c) ==
            if h.OmnixHandler? && s.slots[h.entry].call == Some(c) then Abs(s.slots) - {s.slots[h.entry].callId}
            else Abs(s.slots)
  {
    var m := Abs(s.slots);
    forall id | id in m
      ensures var h := s.stack[c].handler;
              m[id] == c <==> h.OmnixHandler? && s.slots[h.entry].call == Some(c) && id == s.slots[h.entry].callId
    {
      ValueIs(s, c, id);
    }
  }

  lemma CloseRefines(s: Calls, c: Call, terminal: CallState)
    requires Inv(s) && Apart(s.slots) && Live(s, c)
    ensures Apart(Closed(s, c, terminal).slots)
    ensures Abs(Closed(s, c, terminal).slots) == Without(Abs(s.slots), c)
  {
    WithoutIs(s, c);
    var h := s.stack[c].handler;
    if h.OmnixHandler? && s.slots[h.entry].call == Some(c) {
      AbsClear(s.slots, h.entry);
    }
  }

  lemma FinishRefines(s: Calls, step: Step)
    requires Inv(s) && Apart(s.slots) && Enabled(s, step) && (step.AppReject? || step.AppHangUp?)
    ensures Simulates(s, step, After(s, step))
  {
    LookupIsMap(s.slots, step.id);
    match FindById(s.slots, step.id)
    case None =>
    case Some(i) =>
      AbsClear(s.slots, i);
      if step.AppReject? { RejectEnds(s, step.id, step.outcome, i); } else { HangUpEnds(s, step.id, step.outcome, i); }
  }

  lemma QuietRefines(s: Calls, step: Step)
    requires Inv(s) && Apart(s.slots) && Enabled(s, step)
    requires step.Moves? || step.AppAnswer? || step.AppMute? || step.ShuttingDown?
    ensures Simulates(s, step, After(s, step))
  {
    AbsSame(s.slots, After(s, step).slots);
  }

  lemma HoldRefines(s: Calls, step: Step)
    requires Inv(s) && Apart(s.slots) && Enabled(s, step) && step.AppHold?
    ensures Simulates(s, step, After(s, step))
  {
    AbsSame(s.slots, After(s, step).slots);
  }

  lemma StepRefines(s: Calls, step: Step)
    requires Inv(s) && Apart(s.slots) && Enabled(s, step)
    ensures Simulates(s, step, After(s, step))
  {
    match step
    case NewIncoming(_, _, _) => IncomingRefines(s, step);
    case NewOutgoing(_, _, _, _) => OutgoingRefines(s, step);
    case RemoteClose(c, scode, textCode) => CloseRefines(s, c, Terminal(scode, textCode));
    case AppReject(_, _) => FinishRefines(s, step);
    case AppHangUp(_, _) => FinishRefines(s, step);
    case RegistryReset => AbsIs(BLANK, map[]);
    case AppHold(_, _, _, _) => HoldRefines(s, step);
    case _ => QuietRefines(s, step);
  }

  function MapExec(tr: seq<Step>): Registry
    decreases |tr|
  {
    if tr == [] then map[] else MapAfter(MapExec(Front(tr)), Last(tr))
  }

  /** No step of the run collides; this is said of the map alone. */
  predicate Clear(tr: seq<Step>) {
    tr == [] || (Clear(Front(tr)) && !Collides(MapExec(Front(tr)), Last(tr)))
  }

  /** Identifiers are apart at every moment of the run. */
  predicate AlwaysApart(tr: seq<Step>)
    requires Legal(tr)
    decreases |tr|
  {
    Apart(Exec(tr).slots) && (tr == [] || AlwaysApart(Front(tr)))
  }

  /**
   * Over every run the slot array is the map exactly as long as no identifier collides:
   * same identifiers, same calls, and as many as the map has, which are at most eight.
   */
  lemma {:induction false} RegistryIsMap(tr: seq<Step>)
    requires Legal(tr)
    ensures AlwaysApart(tr) <==> Clear(tr)
    ensures Clear(tr) ==> Abs(Exec(tr).slots) == MapExec(tr)
    ensures Clear(tr) ==> Count(Exec(tr).slots) == |MapExec(tr)| <= CAPACITY
    decreases |tr|
  {
    if tr == [] {
      AbsHas(BLANK);
    } else {
      RegistryIsMap(Front(tr));
      RunInv(Front(tr));
      if Clear(Front(tr)) { StepRefines(Exec(Front(tr)), Last(tr)); }
    }
    if Clear(tr) {
      CountIsSize(Exec(tr).slots);
      FullIsFull(Exec(tr).slots);
    }
  }

  /** Identifiers fit call_id[128] with their terminator. */
  predicate Short(step: Step) {
    match step
    case NewIncoming(_, b, _) => |b.id| < ID_SIZE
    case NewOutgoing(_, b, _, _) => |b.id| < ID_SIZE
    case _ => true
  }

  /** In particular no run collides whose identifiers all fit. */
  lemma {:induction false} ShortIsClear(tr: seq<Step>)
    requires forall k | 0 <= k < |tr| :: Short(tr[k])
    ensures Clear(tr)
    decreases |tr|
  {
    if tr != [] { ShortIsClear(Front(tr)); }
  }

  // ---- both lookups ------------------------------------------------------------------

  /** Occupied slots hold different calls. */
  lemma CallsAreDistinct(s: Calls, i: nat, j: nat)
    requires Inv(s) && i < CAPACITY && j < CAPACITY && s.slots[i].call.Some?
    ensures s.slots[i].call == s.slots[j].call ==> i == j
  {
    OwnedBy(s, i, s.slots[i].call.value);
  }

  /** omnix_find_call_by_ptr is lookup by value, and gives the slot of that value's identifier. */
  lemma PtrLookupIsMap(slots: seq<Slot>, c: Call)
    requires Apart(slots)
    ensures FindByPtr(slots, Some(c)).Some? <==> exists id :: id in Abs(slots) && Abs(slots)[id] == c
    ensures FindByPtr(slots, Some(c)).Some? ==>
              var id := slots[FindByPtr(slots, Some(c)).value].callId;
              id in Abs(slots) && Abs(slots)[id] == c && FindById(slots, id) == FindByPtr(slots, Some(c))
  {
    AbsHas(slots);
    var r := FindByPtr(slots, Some(c));
    if r.Some? {
      var id := slots[r.value].callId;
      assert HasId(slots[r.value], id);
      LookupIsMap(slots, id);
      OnlyOneHas(slots, id, r.value, FindById(slots, id).value);
    }
    if id :| id in Abs(slots) && Abs(slots)[id] == c {
      LookupIsMap(slots, id);
      assert slots[FindById(slots, id).value].call == Some(c);
    }
  }

  lemma OnlyOneHas(slots: seq<Slot>, id: string, i: nat, j: nat)
    requires Apart(slots) && i < |slots| && j < |slots| && HasId(slots[i], id) && HasId(slots[j], id)
    ensures i == j
  {
  }

  /**
   * In every run without a collision occupied slots have different calls and different
   * identifiers, and both linear searches are lookups in the map: by identifier, and by
   * call, which no two identifiers share.
   */
  lemma LookupsAreMap(tr: seq<Step>, id: string, c: Call)
    requires Legal(tr) && Clear(tr)
    ensures var slots, m := Exec(tr).slots, MapExec(tr);
            && (FindById(slots, id).Some? <==> id in m)
            && (id in m ==> slots[FindById(slots, id).value].call == Some(m[id]))
            && (FindByPtr(slots, Some(c)).Some? <==> exists k :: k in m && m[k] == c)
            && (id in m && m[id] == c ==> FindByPtr(slots, Some(c)) == FindById(slots, id))
            && (forall i, j | 0 <= i < j < CAPACITY && slots[i].call.Some? && slots[j].call.Some? ::
                  slots[i].call != slots[j].call && slots[i].callId != slots[j].callId)
  {
    RegistryIsMap(tr);
    RunInv(tr);
    var s := Exec(tr);
    LookupIsMap(s.slots, id);
    PtrLookupIsMap(s.slots, c);
    forall i, j | 0 <= i < j < CAPACITY && s.slots[i].call.Some? && s.slots[j].call.Some?
      ensures s.slots[i].call != s.slots[j].call && s.slots[i].callId != s.slots[j].callId
    {
      CallsAreDistinct(s, i, j);
    }
    if id in MapExec(tr) && MapExec(tr)[id] == c {
      CallsAreDistinct(s, FindByPtr(s.slots, Some(c)).value, FindById(s.slots, id).value);
    }
  }

  // ---- identifiers that do not fit ----------------------------------------------------

  /**
   * What a collision does, in every run: the new call is adopted under the identifier of
   * another one, and from then on only one of the two is found by it.
   */
  lemma CollisionHidesOne(tr: seq<Step>) returns (i: nat, k: nat)
    requires tr != [] && Legal(tr) && Clear(Front(tr)) && Collides(MapExec(Front(tr)), Last(tr))
    ensures i < CAPACITY && k < CAPACITY && i != k
    ensures var slots := Exec(tr).slots;
            && slots[i].call == Some(Last(tr).c) && slots[k].call.Some? && slots[k] == Exec(Front(tr)).slots[k]
            && slots[i].callId == slots[k].callId == Key(Last(tr).b.id)
            && FindById(slots, slots[i].callId) == Some(if i < k then i else k)
  {
    var s, step := Exec(Front(tr)), Last(tr);
    RegistryIsMap(Front(tr));
    RunInv(Front(tr));
    i := CollisionFills(s, step);
    AbsHas(s.slots);
    k :| 0 <= k < |s.slots| && HasId(s.slots[k], Key(step.b.id));
    FirstOfTwo(s.slots, Exec(tr).slots, i, k, Key(step.b.id));
  }

  /** A collision fills a free slot under an identifier that another slot has. */
  lemma CollisionFills(s: Calls, step: Step) returns (i: nat)
    requires Inv(s) && Apart(s.slots) && Enabled(s, step) && Collides(Abs(s.slots), step)
    ensures var r := After(s, step).slots;
            && i < CAPACITY && s.slots[i].call == None && r == s.slots[i := r[i]]
            && r[i].call == Some(step.c) && r[i].callId == Key(step.b.id) && HasId(r[i], Key(step.b.id))
  {
    NewcomerAlloc(s, step.c, step.b);
    i := Alloc(s.(stack := s.stack[step.c := step.b]), step.c).value.0;
  }

  lemma FirstOfTwo(before: seq<Slot>, slots: seq<Slot>, i: nat, k: nat, id: string)
    requires Apart(before) && i < |before| == |slots| && k < |before| && HasId(before[k], id)
    requires before[i].call == None && slots == before[i := slots[i]] && HasId(slots[i], id)
    ensures FindById(slots, id) == Some(if i < k then i else k)
  {
    var r := FindById(slots, id);
    assert HasId(slots[k], id);
    if r.Some? && r.value != i { OnlyOneHas(before, id, r.value, k); }
  }
}
