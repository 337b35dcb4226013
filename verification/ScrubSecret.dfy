/** What scrubDetail is for: the known secret is not in its result. */
module ScrubSecret {
  import opened Wrappers
  import opened Text
  import opened Redaction
  import opened Scrub

  /** The secret ends with a start of the mark, whatever it starts with. */
  predicate EndsInMark(secret: string) {
    exists n | 0 < n < |secret| && n < |MARK| :: secret[|secret| - n..] == MARK[..n]
  }

  predicate HasSign(s: string) {
    exists c | c in s :: IsSign(c)
  }

  /** After its last sign a piece before a value has only white space. */
  predicate EndsInSpace(lex: Lex, piece: string) {
    exists k | 0 <= k < |piece| :: IsSign(piece[k]) && forall j | k < j < |piece| :: piece[j] in lex.ws
  }

  /** What is known of the pieces around the values: no secret, and a name, a sign and space at their ends. */
  ghost predicate Fit(lex: Lex, pieces: seq<string>, secret: string) {
    && pieces != []
    && (forall i | 0 <= i < |pieces| :: !Contains(pieces[i], secret))
    && forall i | 0 <= i < |pieces| - 1 :: EndsInSpace(lex, pieces[i])
  }

  /** Redaction can show the secret, or a mark behind a credential's name and sign can complete it. */
  ghost predicate CanBeMade(secret: string) {
    Exposed(secret) || (EndsInMark(secret) && HasSign(secret))
  }

  lemma SpaceAfterSign(lex: Lex, piece: string, q: nat, secret: string)
    requires Sane(lex) && EndsInSpace(lex, piece) && q < |piece| && |piece| - q < |secret|
    requires secret[..|piece| - q] == piece[q..]
    ensures HasSign(secret) || secret[0] in lex.ws
  {
    var k :| 0 <= k < |piece| && IsSign(piece[k]) && forall j | k < j < |piece| :: piece[j] in lex.ws;
    var v := piece[q..];
    assert v[0] == piece[q] && secret[..|v|][0] == secret[0];
    if q <= k {
      assert secret[..|v|][k - q] == v[k - q] == piece[k];
      assert secret[k - q] in secret;
    }
  }

  /** A secret that starts in a piece and ends in or behind the mark after it. */
  lemma AcrossPiece(lex: Lex, piece: string, rest: string, secret: string, q: nat)
    requires Sane(lex) && EndsInSpace(lex, piece) && q < |piece| < q + |secret|
    requires At(piece + (MARK + rest), q, secret)
    ensures StartsMark(secret) || Wraps(secret) || (EndsInMark(secret) && HasSign(secret))
  {
    var t := piece + (MARK + rest);
    var a := |piece| - q;
    assert At(t, |piece|, MARK);
    FrontOver(t, q, secret, |piece|);
    assert t[q..|piece|] == piece[q..];
    if |secret| - a >= |MARK| {
      AtWithin(t, q, secret, |piece|, MARK);
    } else {
      var m := |secret| - a;
      FrontOver(t, |piece|, MARK, q + |secret|);
      SliceOfSlice(t, q, q + |secret|, |piece|, q + |secret|);
      assert secret[|secret| - m..] == MARK[..m];
      SpaceAfterSign(lex, piece, q, secret);
      assert MARK[..m][0] == '[' && secret[..m][0] == secret[0] && Visible('[');
      assert secret[0] in lex.ws ==> StartsMark(secret);
    }
  }

  lemma AtShift(a: string, b: string, q: nat, part: string)
    requires |a| <= q
    ensures At(a + b, q, part) <==> At(b, q - |a|, part)
  {
    if q + |part| <= |a + b| { assert (a + b)[q..q + |part|] == b[q - |a|..q - |a| + |part|]; }
  }

  lemma AtInFront(a: string, b: string, q: nat, part: string)
    requires q + |part| <= |a|
    ensures At(a + b, q, part) <==> At(a, q, part)
  {
    assert (a + b)[q..q + |part|] == a[q..q + |part|];
  }

  /** A secret in pieces with marks between them is one that can be made there. */
  lemma {:induction false} WovenSecret(lex: Lex, pieces: seq<string>, secret: string, q: nat)
    requires Sane(lex) && secret != "" && Fit(lex, pieces, secret)
    requires At(Weave(pieces, Marks(|pieces| - 1)), q, secret)
    ensures CanBeMade(secret)
    decreases |pieces|, 0
  {
    var piece := pieces[0];
    if |pieces| > 1 {
      var rest := Weave(pieces[1..], Marks(|pieces| - 2));
      assert Weave(pieces, Marks(|pieces| - 1)) == piece + (MARK + rest);
      if q + |secret| <= |piece| {
        AtInFront(piece, MARK + rest, q, secret);
      } else if q < |piece| {
        AcrossPiece(lex, piece, rest, secret, q);
      } else {
        AtShift(piece, MARK + rest, q, secret);
        BehindPiece(lex, pieces[1..], secret, rest, q - |piece|);
      }
    }
  }

  lemma {:induction false} BehindPiece(lex: Lex, pieces: seq<string>, secret: string, rest: string, q: nat)
    requires Sane(lex) && secret != "" && Fit(lex, pieces, secret)
    requires rest == Weave(pieces, Marks(|pieces| - 1)) && At(MARK + rest, q, secret)
    ensures CanBeMade(secret)
    decreases |pieces|, 1
  {
    if q < |MARK| {
      EdgeOfMark(MARK + rest, secret, q);
      ByMeans(secret, q, q);
    } else {
      AtShift(MARK, rest, q, secret);
      WovenSecret(lex, pieces, secret, q - |MARK|);
    }
  }

  // ---- the pieces around the values ------------------------------------------------------

  lemma ConsEndsInSpace(lex: Lex, c: char, piece: string)
    requires EndsInSpace(lex, piece)
    ensures EndsInSpace(lex, [c] + piece)
  {
    var k :| 0 <= k < |piece| && IsSign(piece[k]) && forall j | k < j < |piece| :: piece[j] in lex.ws;
    var p := [c] + piece;
    assert p[k + 1] == piece[k] && forall j | k + 1 < j < |p| :: p[j] == piece[j - 1];
  }

  lemma NameEndsInSpace(lex: Lex, s: string, sign: nat, value: nat)
    requires Matches(lex, s, sign, value)
    ensures EndsInSpace(lex, s[..value])
  {
    assert IsSign(s[..value][sign]);
  }

  /** Every piece occurs in `s`, the first one at its start, and all but the last one end in space. */
  ghost predicate PiecesOf(lex: Lex, pieces: seq<string>, s: string) {
    && pieces != [] && pieces[0] <= s
    && (forall i | 0 <= i < |pieces| :: Contains(s, pieces[i]))
    && forall i | 0 <= i < |pieces| - 1 :: EndsInSpace(lex, pieces[i])
  }

  lemma ContainsBehind(front: string, s: string, part: string)
    requires Contains(s, part)
    ensures Contains(front + s, part)
  {
    var at: nat :| At(s, at, part);
    AtShift(front, s, |front| + at, part);
    assert At(front + s, |front| + at, part);
  }

  lemma HeadIsIn(s: string, piece: string)
    requires piece <= s
    ensures Contains(s, piece)
  {
    assert At(s, 0, piece);
  }

  lemma PiecesCons(lex: Lex, c: char, rest: seq<string>, s: string)
    requires PiecesOf(lex, rest, s)
    ensures PiecesOf(lex, [[c] + rest[0]] + rest[1..], [c] + s)
  {
    var pieces := [[c] + rest[0]] + rest[1..];
    HeadIsIn([c] + s, pieces[0]);
    forall i | 0 < i < |pieces| ensures Contains([c] + s, pieces[i]) {
      ContainsBehind([c], s, rest[i]);
    }
    if |rest| > 1 { ConsEndsInSpace(lex, c, rest[0]); }
  }

  lemma PiecesBehind(lex: Lex, head: string, value: string, rest: seq<string>, s: string)
    requires EndsInSpace(lex, head) && PiecesOf(lex, rest, s)
    ensures PiecesOf(lex, [head] + rest, head + (value + s))
  {
    var pieces, t := [head] + rest, head + (value + s);
    HeadIsIn(t, head);
    assert t == (head + value) + s;
    forall i | 0 < i < |pieces| ensures Contains(t, pieces[i]) {
      ContainsBehind(head + value, s, rest[i - 1]);
    }
  }

  lemma {:induction false} AroundIsPieces(lex: Lex, s: string)
    ensures PiecesOf(lex, Around(lex, s), s)
    decreases |s|
  {
    var m := Match(lex, s);
    if s == "" {
      HeadIsIn("", "");
    } else if m.None? {
      AroundIsPieces(lex, s[1..]);
      PiecesCons(lex, s[0], Around(lex, s[1..]), s[1..]);
      assert s == [s[0]] + s[1..];
    } else {
      var (sign, value) := m.value;
      var end := SkipWord(lex, s, value);
      AroundIsPieces(lex, s[end..]);
      NameEndsInSpace(lex, s, sign, value);
      ThreeParts(s, value, end);
      PiecesBehind(lex, s[..value], s[value..end], Around(lex, s[end..]), s[end..]);
    }
  }

  /** What a text does not contain, its pieces do not. */
  lemma PartIsClean(s: string, piece: string, secret: string)
    requires Contains(s, piece) && !Contains(s, secret)
    ensures !Contains(piece, secret)
  {
    var at: nat :| At(s, at, piece);
    forall k: nat ensures !At(piece, k, secret) {
      AtInsideIf(s, at, piece, k, secret);
    }
  }

  lemma AtInsideIf(t: string, from: nat, word: string, k: nat, part: string)
    requires At(t, from, word)
    ensures At(word, k, part) ==> At(t, from + k, part)
  {
    if At(word, k, part) { AtInside(t, from, word, k, part); }
  }

  lemma PiecesFit(lex: Lex, s: string, secret: string)
    requires !Contains(s, secret)
    ensures Fit(lex, Around(lex, s), secret)
  {
    var pieces := Around(lex, s);
    AroundIsPieces(lex, s);
    forall i | 0 <= i < |pieces| ensures !Contains(pieces[i], secret) {
      PartIsClean(s, pieces[i], secret);
    }
  }

  // ---- the three stages --------------------------------------------------------------------

  /** A text without the secret stays without it, unless the secret can be made by a mark. */
  lemma RedactMakesNone(lex: Lex, s: string, secret: string)
    requires Sane(lex) && secret != "" && !CanBeMade(secret) && !Contains(s, secret)
    ensures !Contains(Redact(lex, s), secret)
  {
    RedactKeepsTheRest(lex, s);
    PiecesFit(lex, s, secret);
    forall q: nat ensures !At(Redact(lex, s), q, secret) {
      if At(Redact(lex, s), q, secret) { WovenSecret(lex, Around(lex, s), secret, q); }
    }
  }

  lemma CutShowsNoMore(s: string, secret: string)
    requires !Contains(s, secret)
    ensures !Contains(Cut(s), secret)
  {
    forall q: nat ensures !At(Cut(s), q, secret) {
      PrefixAt(s, Cut(s), q, secret);
    }
  }

  /** The known secret is not in what scrubDetail gives, through all three stages. */
  lemma SecretIsGone(lex: Lex, detail: string, secret: string)
    requires Sane(lex) && detail != "" && secret != "" && !CanBeMade(secret)
    ensures !Contains(Scrubbed(lex, Some(detail), Some(secret)).value, secret)
  {
    LeaksExactly(detail, secret);
    var open := Redacted(detail, secret);
    RedactMakesNone(lex, open, secret);
    CutShowsNoMore(Redact(lex, open), secret);
  }

  lemma SignlessUnchanged(lex: Lex, s: string)
    requires !HasSign(s)
    ensures Redact(lex, s) == s
  {
    forall i: nat | i <= |s| ensures Match(lex, s[i..]).None? {
      assert forall j | 0 <= j < |s[i..]| :: s[i..][j] == s[i + j] && s[i + j] in s;
    }
    NoMatchNoChange(lex, s);
  }

  /** A name and a sign stand before the first value. */
  lemma {:induction false} FirstPieceIsLong(lex: Lex, s: string)
    requires |Around(lex, s)| > 1
    ensures |Around(lex, s)[0]| >= |MARK| - 1
    decreases |s|
  {
    if Match(lex, s).None? { FirstPieceIsLong(lex, s[1..]); }
  }

  /** A secret in the result that starts so early starts in the text before the first value. */
  lemma ShownEarly(lex: Lex, detail: string, secret: string, q: nat)
    requires Sane(lex) && secret != "" && q < |MARK| - 1
    requires At(Redact(lex, Redacted(detail, secret)), q, secret)
    ensures ShownBy(secret, q) || (EndsInMark(secret) && HasSign(secret))
  {
    var open := Redacted(detail, secret);
    var pieces := Around(lex, open);
    var piece := pieces[0];
    RedactKeepsTheRest(lex, open);
    AroundIsPieces(lex, open);
    if |pieces| == 1 {
      LeakIsInMark(detail, secret, q);
    } else {
      FirstPieceIsLong(lex, open);
      var rest := Weave(pieces[1..], Marks(|pieces| - 2));
      assert Redact(lex, open) == piece + (MARK + rest);
      if q + |secret| <= |piece| {
        AtInFront(piece, MARK + rest, q, secret);
        PrefixAt(open, piece, q, secret);
        LeakIsInMark(detail, secret, q);
      } else {
        AcrossPiece(lex, piece, rest, secret, q);
      }
    }
  }

  /** Where a secret without a sign is in the result, it can be shown there. */
  lemma ShownWhere(lex: Lex, detail: string, secret: string, q: nat)
    requires Sane(lex) && detail != "" && secret != "" && !HasSign(secret)
    requires At(Redact(lex, Redacted(detail, secret)), q, secret)
    ensures ShownBy(secret, q)
  {
    if q < |MARK| - 1 {
      ShownEarly(lex, detail, secret, q);
    } else {
      ByMeans(secret, q, q);
      LeaksIfMade(lex, detail, secret);
    }
  }

  lemma LeaksIfMade(lex: Lex, detail: string, secret: string)
    requires Sane(lex) && secret != "" && Contains(Redact(lex, Redacted(detail, secret)), secret)
    ensures CanBeMade(secret)
  {
    if !CanBeMade(secret) {
      LeaksExactly(detail, secret);
      RedactMakesNone(lex, Redacted(detail, secret), secret);
    }
  }

  lemma MadeOfNoSign(lex: Lex, o: string, secret: string)
    requires MadeOf(o, secret) && !HasSign(secret)
    ensures Redact(lex, o) == o
  {
    assert forall c | c in MARK :: !IsSign(c);
    SignlessUnchanged(lex, o);
  }

  /** The 180 characters have room for the secret where it can be shown. */
  ghost predicate Fits(secret: string) {
    |secret| <= LIMIT && ShownBy(secret, LIMIT - |secret|)
  }

  lemma CutKeeps(o: string, at: nat, secret: string)
    requires At(o, at, secret)
    ensures at + |secret| <= LIMIT ==> At(Cut(o), at, secret)
  {
    if |o| > LIMIT && at + |secret| <= LIMIT { assert o[..LIMIT][at..at + |secret|] == o[at..at + |secret|]; }
  }

  /** For such a secret there is a text whose scrubbed form shows it. */
  lemma ShownFor(lex: Lex, secret: string) returns (detail: string)
    requires secret != "" && Fits(secret) && !HasSign(secret)
    ensures detail != "" && Contains(Scrubbed(lex, Some(detail), Some(secret)).value, secret)
  {
    var at;
    detail, at := LeakFor(secret, LIMIT - |secret|);
    var open := Redacted(detail, secret);
    MadeOfNoSign(lex, open, secret);
    CutKeeps(open, at, secret);
  }

  lemma HiddenUnlessFits(lex: Lex, detail: string, secret: string)
    requires Sane(lex) && detail != "" && secret != "" && !HasSign(secret) && !Fits(secret)
    ensures !Contains(Scrubbed(lex, Some(detail), Some(secret)).value, secret)
  {
    var r := Redact(lex, Redacted(detail, secret));
    forall q: nat ensures !At(Cut(r), q, secret) {
      if At(Cut(r), q, secret) {
        PrefixAt(r, Cut(r), q, secret);
        ShownWhere(lex, detail, secret, q);
        ByMeans(secret, q, LIMIT - |secret|);
      }
    }
  }

  /**
   * Which secrets without ':' and '=' scrubDetail hides, for every text: exactly those that
   * cannot be shown where the 180 characters still have room for them. Up to 170 characters
   * that is whether redaction hides them, and above 180 none can be shown.
   */
  lemma HidesExactly(lex: Lex, secret: string)
    requires Sane(lex) && secret != "" && !HasSign(secret)
    ensures (forall detail: string | detail != "" ::
               !Contains(Scrubbed(lex, Some(detail), Some(secret)).value, secret))
            <==> !Fits(secret)
  {
    if Fits(secret) {
      var s := ShownFor(lex, secret);
      assert Contains(Scrubbed(lex, Some(s), Some(secret)).value, secret);
    } else {
      forall detail: string | detail != ""
        ensures !Contains(Scrubbed(lex, Some(detail), Some(secret)).value, secret)
      {
        HiddenUnlessFits(lex, detail, secret);
      }
    }
  }

  lemma FitsMeans(secret: string)
    ensures |secret| + |MARK| <= LIMIT ==> (Fits(secret) <==> Exposed(secret))
    ensures |secret| > LIMIT ==> !Fits(secret)
  {
    if |secret| + |MARK| <= LIMIT { ByMeans(secret, LIMIT - |secret|, LIMIT - |secret|); }
  }
}
