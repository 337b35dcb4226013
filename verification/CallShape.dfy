/**
 * The order in which the host may hear about one call: one OUTGOING or INCOMING,
 * then HELD and CONNECTED in turn, then an optional ENDING that is followed
 * directly by the one ENDED or FAILED, then silence.
 */
module CallShape {
  import opened CallModel

  datatype Shape = Unheard | Open(held: bool) | Closing | Done | Broken

  function Next(sh: Shape, st: CallState): Shape {
    match sh
    case Unheard => if st == Outgoing || st == Incoming then Open(false) else Broken
    case Open(held) =>
      if st == Held && !held then Open(true)
      else if st == Connected && held then Open(false)
      else if st == Ending then Closing
      else if st == Ended || st == Failed then Done
      else Broken
    case Closing => if st == Ended || st == Failed then Done else Broken
    case Done => Broken
    case Broken => Broken
  }

  /** The notes about `c`, oldest first, read through `Next`. */
  function ShapeOf(notes: seq<Note>, c: Call): Shape {
    if notes == [] then Unheard
    else
      var last := notes[|notes| - 1];
      var before := ShapeOf(notes[..|notes| - 1], c);
      if last.call == c then Next(before, last.state) else before
  }

  lemma ShapeSnoc(notes: seq<Note>, n: Note)
    ensures forall c :: ShapeOf(notes + [n], c)
                        == if n.call == c then Next(ShapeOf(notes, c), n.state) else ShapeOf(notes, c)
  {
    assert (notes + [n])[..|notes|] == notes;
  }

  /** A host that has seen only part of the notes has seen a well-shaped part. */
  lemma {:induction false} PrefixIsShaped(notes: seq<Note>, n: nat, c: Call)
    requires n <= |notes| && ShapeOf(notes, c) != Broken
    ensures ShapeOf(notes[..n], c) != Broken
    decreases |notes|
  {
    if n == |notes| {
      assert notes[..n] == notes;
    } else {
      PrefixIsShaped(notes[..|notes| - 1], n, c);
      assert notes[..|notes| - 1][..n] == notes[..n];
    }
  }

  // ---- the same order as a grammar ---------------------------------------------

  /** The states the notes report for `c`, oldest first. */
  function Heard(notes: seq<Note>, c: Call): seq<CallState> {
    if notes == [] then []
    else
      var before := Heard(notes[..|notes| - 1], c);
      if notes[|notes| - 1].call == c then before + [notes[|notes| - 1].state] else before
  }

  predicate IsTerminal(st: CallState) {
    st == Ended || st == Failed
  }

  /** HELD and CONNECTED in turn, then at most one ENDING, then at most one terminal state. */
  predicate Talk(w: seq<CallState>, held: bool) {
    || w == []
    || (w[0] == (if held then Connected else Held) && Talk(w[1..], !held))
    || (w[0] == Ending && |w| == 1)
    || (w[0] == Ending && |w| == 2 && IsTerminal(w[1]))
    || (|w| == 1 && IsTerminal(w[0]))
  }

  predicate Ordered(w: seq<CallState>) {
    w == [] || ((w[0] == Outgoing || w[0] == Incoming) && Talk(w[1..], false))
  }

  function Walk(sh: Shape, w: seq<CallState>): Shape
    decreases |w|
  {
    if w == [] then sh else Walk(Next(sh, w[0]), w[1..])
  }

  lemma {:induction false} WalkSnoc(sh: Shape, w: seq<CallState>, st: CallState)
    ensures Walk(sh, w + [st]) == Next(Walk(sh, w), st)
    decreases |w|
  {
    if w == [] {
      assert (w + [st])[1..] == [];
    } else {
      WalkSnoc(Next(sh, w[0]), w[1..], st);
      assert (w + [st])[1..] == w[1..] + [st];
    }
  }

  lemma {:induction false} ShapeIsWalk(notes: seq<Note>, c: Call)
    ensures ShapeOf(notes, c) == Walk(Unheard, Heard(notes, c))
    decreases |notes|
  {
    if notes != [] {
      var last := notes[|notes| - 1];
      ShapeIsWalk(notes[..|notes| - 1], c);
      WalkSnoc(Unheard, Heard(notes[..|notes| - 1], c), last.state);
    }
  }

  lemma {:induction false} WalkBroken(w: seq<CallState>)
    ensures Walk(Broken, w) == Broken
    ensures Walk(Done, w) != Broken <==> w == []
    ensures Walk(Closing, w) != Broken <==> w == [] || (|w| == 1 && IsTerminal(w[0]))
    decreases |w|
  {
    if w != [] { WalkBroken(w[1..]); }
  }

  lemma {:induction false} WalkIsTalk(w: seq<CallState>, held: bool)
    ensures Walk(Open(held), w) != Broken <==> Talk(w, held)
    decreases |w|
  {
    if w != [] {
      WalkIsTalk(w[1..], !held);
      WalkBroken(w[1..]);
    }
  }

  /** The automaton accepts exactly the grammar. */
  lemma ShapeIsGrammar(notes: seq<Note>, c: Call)
    ensures ShapeOf(notes, c) != Broken <==> Ordered(Heard(notes, c))
  {
    var w := Heard(notes, c);
    ShapeIsWalk(notes, c);
    if w != [] {
      WalkIsTalk(w[1..], false);
      WalkBroken(w[1..]);
    }
  }
}
