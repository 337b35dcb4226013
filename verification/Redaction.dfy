/** omnix_log_redact_to of cpp/src/omnix_log.c. */
module Redaction {
  import opened Wrappers
  import opened Text

  const MARK: string := "[REDACTED]"

  /** Left to right, every non-overlapping occurrence of the secret becomes the mark. */
  function ReplaceAll(s: string, secret: string): string
    requires secret != ""
  {
    if s == "" then ""
    else if secret <= s then MARK + ReplaceAll(s[|secret|..], secret)
    else [s[0]] + ReplaceAll(s[1..], secret)
  }

  /** What the log line becomes before the buffer cuts it; no secret, no change. */
  function Redacted(s: string, secret: string): string {
    if secret == "" then s else ReplaceAll(s, secret)
  }

  /** What the rest of the line becomes, one character or one occurrence at a time. */
  lemma Unfold(s: string, src: nat, secret: string)
    requires secret != "" && src < |s|
    ensures ReplaceAll(s[src..], secret) ==
            if secret <= s[src..] then MARK + ReplaceAll(s[src + |secret|..], secret)
            else [s[src]] + ReplaceAll(s[src + 1..], secret)
  {
    assert s[src..][1..] == s[src + 1..];
    if secret <= s[src..] { assert s[src..][|secret|..] == s[src + |secret|..]; }
  }

  /** `done` is written: all of `full` but `rest`, or as much of it as there was room for. */
  predicate Progress(full: string, done: string, rest: string, room: nat) {
    full == done + rest || (room == 0 && done <= full)
  }

  /** memcpy: `text` into the buffer at `at`. */
  method Put(out: array<char>, at: nat, text: string)
    requires at + |text| <= out.Length
    modifies out
    ensures out[..at + |text|] == old(out[..at]) + text
    ensures forall k | at + |text| <= k < out.Length :: out[k] == old(out[k])
  {
    forall k | 0 <= k < |text| { out[at + k] := text[k]; }
  }

  /** As much of `piece` as there is room for. */
  method Append(out: array<char>, at: nat, piece: string, room: nat, ghost full: string, ghost rest: string)
    returns (n: nat)
    requires 0 < room && at + room < out.Length
    requires Progress(full, out[..at], piece + rest, room)
    modifies out
    ensures n == if |piece| > room then room else |piece|
    ensures Progress(full, out[..at + n], rest, room - n)
    ensures forall k | at + n <= k < out.Length :: out[k] == old(out[k])
  {
    ghost var done := out[..at];
    n := if |piece| > room then room else |piece|;
    Put(out, at, piece[..n]);
    assert full == done + piece + rest;
  }

  /** When nothing is left to write, or no room, what is written is the result cut to the buffer. */
  lemma DoneIsCut(full: string, done: string, rest: string, room: nat, outLen: nat)
    requires Progress(full, done, rest, room) && |done| + room == outLen - 1 && (room == 0 || rest == "")
    ensures done == Copy(full, outLen)
  {
    assert done + "" == done;
  }

  /** The scan, for a secret that is set and a buffer with room for a terminator. */
  method Scan(secret: string, s: string, out: array<char>, outLen: nat)
    requires secret != "" && 0 < outLen <= out.Length
    modifies out
    ensures var kept := Copy(ReplaceAll(s, secret), outLen); out[..|kept|] == kept && out[|kept|] == '\0'
    ensures forall k | outLen <= k < out.Length :: out[k] == old(out[k])
  {
    ghost var full := ReplaceAll(s, secret);
    var src: nat, dst: nat, remaining: nat := 0, 0, outLen - 1;
    while src < |s| && remaining > 0
      invariant src <= |s| && dst + remaining == outLen - 1
      invariant Progress(full, out[..dst], ReplaceAll(s[src..], secret), remaining)
      invariant forall k | outLen <= k < out.Length :: out[k] == old(out[k])
      decreases |s| - src
    {
      Unfold(s, src, secret);
      var n;
      if secret <= s[src..] {
        n := Append(out, dst, MARK, remaining, full, ReplaceAll(s[src + |secret|..], secret));
        src := src + |secret|;
      } else {
        n := Append(out, dst, [s[src]], remaining, full, ReplaceAll(s[src + 1..], secret));
        src := src + 1;
      }
      dst, remaining := dst + n, remaining - n;
    }
    DoneIsCut(full, out[..dst], ReplaceAll(s[src..], secret), remaining, outLen);
    out[dst] := '\0';
  }

  /**
   * `secret` is g_secret ("" when none is set) and `out` the caller's buffer of
   * `outLen` bytes: it receives as much of the redacted line as fits, and a
   * terminator right behind it.
   */
  method RedactTo(secret: string, msg: Option<string>, out: array?<char>, outLen: nat) returns (rc: int)
    requires out != null ==> outLen <= out.Length
    modifies out
    ensures rc == if msg.None? || out == null || outLen == 0 then -1 else 0
    ensures rc == 0 ==>
              var kept := Copy(Redacted(msg.value, secret), outLen);
              out[..|kept|] == kept && out[|kept|] == '\0'
    ensures rc == 0 ==> forall k | outLen <= k < out.Length :: out[k] == old(out[k])
    ensures rc != 0 && out != null ==> out[..] == old(out[..])
  {
    if msg.None? || out == null || outLen == 0 { return -1; }
    if secret == "" {
      var text := Copy(msg.value, outLen);
      Put(out, 0, text);
      out[|text|] := '\0';
    } else {
      Scan(secret, msg.value, out, outLen);
    }
    rc := 0;
  }

  // ---- an independent reading: split and join --------------------------------------------

  /** The line cut at each occurrence of the secret, left to right. */
  function Split(s: string, secret: string): (pieces: seq<string>)
    requires secret != ""
    ensures pieces != [] && pieces[0] <= s
    decreases |s|
  {
    if s == "" then [""]
    else if secret <= s then [""] + Split(s[|secret|..], secret)
    else
      var rest := Split(s[1..], secret);
      [[s[0]] + rest[0]] + rest[1..]
  }

  function JoinWith(pieces: seq<string>, glue: string): string
    requires pieces != []
  {
    if |pieces| == 1 then pieces[0] else pieces[0] + (glue + JoinWith(pieces[1..], glue))
  }

  lemma JoinHead(c: char, pieces: seq<string>, glue: string)
    requires pieces != []
    ensures JoinWith([[c] + pieces[0]] + pieces[1..], glue) == [c] + JoinWith(pieces, glue)
  {
    if |pieces| > 1 {
      assert ([[c] + pieces[0]] + pieces[1..])[1..] == pieces[1..];
    }
  }

  lemma JoinEmptyHead(pieces: seq<string>, glue: string)
    requires pieces != []
    ensures JoinWith([""] + pieces, glue) == glue + JoinWith(pieces, glue)
  {
    assert ([""] + pieces)[1..] == pieces;
  }

  lemma {:induction false} SplitJoins(s: string, secret: string)
    requires secret != ""
    ensures s == JoinWith(Split(s, secret), secret)
    decreases |s|
  {
    if s == "" {
    } else if secret <= s {
      assert s == secret + s[|secret|..];
      SplitJoins(s[|secret|..], secret);
      JoinEmptyHead(Split(s[|secret|..], secret), secret);
    } else {
      assert s == [s[0]] + s[1..];
      SplitJoins(s[1..], secret);
      JoinHead(s[0], Split(s[1..], secret), secret);
    }
  }

  /** Replacing is cutting the line at the secret and gluing the pieces with the mark. */
  lemma {:induction false} ReplaceIsSplitJoin(s: string, secret: string)
    requires secret != ""
    ensures ReplaceAll(s, secret) == JoinWith(Split(s, secret), MARK)
    decreases |s|
  {
    if s == "" {
    } else if secret <= s {
      ReplaceIsSplitJoin(s[|secret|..], secret);
      JoinEmptyHead(Split(s[|secret|..], secret), MARK);
    } else {
      ReplaceIsSplitJoin(s[1..], secret);
      JoinHead(s[0], Split(s[1..], secret), MARK);
    }
  }

  lemma Shift(c: char, s: string, part: string)
    ensures forall j: nat :: At([c] + s, j + 1, part) <==> At(s, j, part)
  {
    forall j: nat ensures At([c] + s, j + 1, part) <==> At(s, j, part) {
      if j + |part| <= |s| { assert ([c] + s)[j + 1..j + 1 + |part|] == s[j..j + |part|]; }
    }
  }

  /** No piece has the secret in it. */
  lemma {:induction false} PiecesAreClean(s: string, secret: string, i: nat, j: nat)
    requires secret != "" && i < |Split(s, secret)|
    ensures !At(Split(s, secret)[i], j, secret)
    decreases |s|
  {
    if s == "" {
    } else if secret <= s {
      if i > 0 { PiecesAreClean(s[|secret|..], secret, i - 1, j); }
    } else {
      var rest := Split(s[1..], secret);
      if i > 0 {
        PiecesAreClean(s[1..], secret, i, j);
      } else if j > 0 {
        PiecesAreClean(s[1..], secret, 0, j - 1);
        Shift(s[0], rest[0], secret);
      }
    }
  }

  // ---- when the secret can still be read ----------------------------------------------------

  /** The secret starts with an end of the mark, and goes on. */
  predicate EndsMark(secret: string) {
    exists n | 0 < n < |secret| && n < |MARK| :: secret[..n] == MARK[|MARK| - n..]
  }

  /** The secret ends with a start of the mark that it does not start with itself. */
  predicate StartsMark(secret: string) {
    exists n | 0 < n < |secret| && n < |MARK| :: secret[|secret| - n..] == MARK[..n] && secret[..n] != MARK[..n]
  }

  /** The mark is a part of the secret. */
  ghost predicate Wraps(secret: string) {
    |MARK| < |secret| && Contains(secret, MARK)
  }

  /** The secret can be read across an edge of a mark. */
  ghost predicate Crosses(secret: string) {
    EndsMark(secret) || StartsMark(secret) || Wraps(secret)
  }

  /** The same with the end of the mark standing at `q` or before, in a result that starts with a mark. */
  predicate EndsMarkBy(secret: string, q: nat) {
    exists n | 0 < n < |secret| && n < |MARK| :: secret[..n] == MARK[|MARK| - n..] && |MARK| - n <= q
  }

  ghost predicate CrossesBy(secret: string, q: nat) {
    EndsMarkBy(secret, q) || StartsMark(secret) || Wraps(secret)
  }

  /** The secret can be read in a result at `q` or before. */
  ghost predicate ShownBy(secret: string, q: nat) {
    Contains(MARK, secret) || CrossesBy(secret, q)
  }

  /** The position matters only within the first mark. */
  lemma ByMeans(secret: string, q: nat, r: nat)
    ensures CrossesBy(secret, q) ==> Crosses(secret)
    ensures CrossesBy(secret, q) && q <= r ==> CrossesBy(secret, r)
    ensures Crosses(secret) && |MARK| - 1 <= q ==> CrossesBy(secret, q)
  {
  }

  /** The secret can be read in a mark or across its edge. */
  ghost predicate Exposed(secret: string) {
    Contains(MARK, secret) || Crosses(secret)
  }

  lemma SliceOfSlice(t: string, a: nat, b: nat, c: nat, d: nat)
    requires a <= c <= d <= b <= |t|
    ensures t[a..b][c - a..d - a] == t[c..d]
  {
    var u, n := t[a..b], d - c;
    assert forall i | 0 <= i < n :: u[c - a..d - a][i] == u[c - a + i] == t[c + i] == t[c..d][i];
  }

  /** An occurrence inside another one is an occurrence in that one's text. */
  lemma AtWithin(t: string, from: nat, word: string, q: nat, part: string)
    requires At(t, from, word) && At(t, q, part) && from <= q && q + |part| <= from + |word|
    ensures At(word, q - from, part)
  {
    SliceOfSlice(t, from, from + |word|, q, q + |part|);
  }

  /** An occurrence in a text that occurs in another one. */
  lemma AtInside(t: string, from: nat, word: string, k: nat, part: string)
    requires At(t, from, word) && At(word, k, part)
    ensures At(t, from + k, part)
  {
    SliceOfSlice(t, from, from + |word|, from + k, from + k + |part|);
  }

  /** The front of an occurrence that runs over the end of a slice. */
  lemma FrontOver(t: string, q: nat, part: string, b: nat)
    requires At(t, q, part) && q <= b <= q + |part|
    ensures part[..b - q] == t[q..b]
  {
    assert forall i | 0 <= i < b - q :: t[q..q + |part|][i] == t[q + i] == t[q..b][i];
  }

  /** An occurrence that starts in a mark at the start of the line. */
  lemma EdgeOfMark(t: string, secret: string, q: nat)
    requires secret != "" && MARK <= t && q < |MARK| && At(t, q, secret)
    ensures CrossesBy(secret, q) || Contains(MARK, secret)
  {
    assert At(t, 0, MARK);
    if q + |secret| <= |MARK| {
      AtWithin(t, 0, MARK, q, secret);
    } else if q == 0 {
      AtWithin(t, 0, secret, 0, MARK);
    } else {
      FrontOver(t, q, secret, |MARK|);
      SliceOfSlice(t, 0, |MARK|, q, |MARK|);
      var n := |MARK| - q;
      assert MARK[|MARK| - n..] == t[q..|MARK|] == secret[..n];
    }
  }

  /** The line is left alone as far as no match starts. */
  lemma {:induction false} KeptUpTo(v: string, rest: string, secret: string)
    requires secret != "" && forall k: nat | k < |v| :: !At(v + rest, k, secret)
    ensures ReplaceAll(v + rest, secret) == v + ReplaceAll(rest, secret)
    decreases |v|
  {
    if v == "" {
      assert v + rest == rest;
    } else {
      var t := v[1..] + rest;
      assert v + rest == [v[0]] + t;
      Shift(v[0], t, secret);
      forall k: nat | k < |v[1..]| ensures !At(t, k, secret) {
        assert !At(v + rest, k + 1, secret);
      }
      assert !At(v + rest, 0, secret);
      KeptUpTo(v[1..], rest, secret);
    }
  }

  lemma ShortIsKept(t: string, secret: string)
    requires |t| < |secret|
    ensures ReplaceAll(t, secret) == t
  {
    assert t + "" == t;
    KeptUpTo(t, "", secret);
  }

  lemma ReplacedFront(secret: string, rest: string)
    requires secret != ""
    ensures ReplaceAll(secret + rest, secret) == MARK + ReplaceAll(rest, secret)
  {
    assert (secret + rest)[|secret|..] == rest;
  }

  lemma FirstAt(s: string, part: string) returns (a: nat)
    requires Contains(s, part)
    ensures At(s, a, part) && forall k: nat | k < a :: !At(s, k, part)
  {
    a := 0;
    while !At(s, a, part)
      invariant forall k: nat | k < a :: !At(s, k, part)
      decreases |s| - a
    {
      a := a + 1;
    }
  }

  /** A start of the line that repeats in the secret puts a match at the start of the line. */
  lemma EarlierMatch(v: string, secret: string)
    requires v <= secret
    ensures secret[|v|..] <= secret ==> secret <= v + secret
  {
    if secret[|v|..] <= secret { PrefixGoesOn(v, secret[|v|..], secret); }
  }

  lemma PrefixGoesOn(v: string, front: string, rest: string)
    requires front <= rest
    ensures v + front <= v + rest
  {
    assert (v + rest)[..|v + front|] == v + rest[..|front|];
  }

  /** A secret at the start of a result that starts in the text before the first mark. */
  lemma AcrossFirst(v: string, secret: string, t: string)
    requires v + MARK <= t && secret <= t && 0 < |v| < |secret| && !(secret <= v + secret)
    ensures StartsMark(secret) || Wraps(secret)
  {
    var m := |secret| - |v|;
    assert v == t[..|v|] == secret[..|v|];
    assert At(t, 0, secret);
    assert At(t, |v|, MARK) by { assert t[..|v + MARK|] == v + MARK; }
    if m >= |MARK| {
      AtWithin(t, 0, secret, |v|, MARK);
    } else {
      EarlierMatch(v, secret);
      FrontOver(t, |v|, MARK, |secret|);
      SliceOfSlice(t, 0, |secret|, |v|, |secret|);
      assert secret[|secret| - m..] == MARK[..m];
    }
  }

  lemma PrefixOf(a: string, b: string, o: string)
    requires a <= o && b <= o && |a| <= |b|
    ensures a <= b
  {
    assert o[..|b|][..|a|] == o[..|a|];
  }

  /** The result up to the first match, and the mark after it. */
  lemma UpToFirst(s: string, secret: string, n: nat)
    requires secret != "" && At(s, n, secret) && forall k: nat | k < n :: !At(s, k, secret)
    ensures s[..n] + secret <= s && s[..n] + MARK <= ReplaceAll(s, secret)
  {
    var v, rest := s[..n], s[n + |secret|..];
    assert s == v + (secret + rest);
    KeptUpTo(v, secret + rest, secret);
    ReplacedFront(secret, rest);
  }

  lemma NothingToHide(s: string, secret: string)
    requires secret != "" && !Contains(s, secret)
    ensures ReplaceAll(s, secret) == s
  {
    assert s + "" == s;
    KeptUpTo(s, "", secret);
  }

  lemma FirstHidden(s: string, secret: string, n: nat)
    requires secret != "" && At(s, n, secret) && forall k: nat | k < n :: !At(s, k, secret)
    ensures ReplaceAll(s, secret) == s[..n] + "[REDACTED]" + ReplaceAll(s[n + |secret|..], secret)
  {
    var v, rest := s[..n], s[n + |secret|..];
    assert s == v + (secret + rest);
    KeptUpTo(v, secret + rest, secret);
    ReplacedFront(secret, rest);
    Reassociate(v, MARK, ReplaceAll(rest, secret));
  }

  lemma Reassociate(a: string, b: string, c: string)
    ensures a + (b + c) == a + b + c
  {
  }

  /**
   * The line up to the first occurrence of the secret stays, "[REDACTED]" stands for it,
   * and the rest is redacted on its own; without an occurrence, or a secret, nothing changes.
   */
  lemma RedactedIs(s: string, secret: string, n: nat)
    ensures Redacted(s, "") == s
    ensures secret != "" && !Contains(s, secret) ==> Redacted(s, secret) == s
    ensures secret != "" && At(s, n, secret) && (forall k: nat | k < n :: !At(s, k, secret)) ==>
              Redacted(s, secret) == s[..n] + "[REDACTED]" + Redacted(s[n + |secret|..], secret)
  {
    if secret != "" {
      if !Contains(s, secret) { NothingToHide(s, secret); }
      if At(s, n, secret) && forall k: nat | k < n :: !At(s, k, secret) { FirstHidden(s, secret, n); }
    }
  }

  /** A secret at the start of the result was at the start of the line, or crosses an edge. */
  lemma StartOfResult(s: string, secret: string)
    requires secret != "" && secret <= ReplaceAll(s, secret)
    ensures secret <= s || StartsMark(secret) || Wraps(secret)
  {
    if Contains(s, secret) {
      var n := FirstAt(s, secret);
      UpToFirst(s, secret, n);
      var v, o := s[..n], ReplaceAll(s, secret);
      if |secret| <= n {
        assert v <= v + MARK;
        PrefixOf(v, v + MARK, o);
        PrefixOf(secret, v, o);
      } else if n == 0 {
        assert v + secret == secret;
      } else if secret <= v + secret {
        PrefixOf(secret, v + secret, s);
      } else {
        AcrossFirst(v, secret, o);
      }
    } else {
      assert s + "" == s;
      KeptUpTo(s, "", secret);
    }
  }

  lemma InTail(s: string, secret: string)
    requires s != "" && Contains(s[1..], secret)
    ensures Contains(s, secret)
  {
    var j: nat :| At(s[1..], j, secret);
    Shift(s[0], s[1..], secret);
    assert s == [s[0]] + s[1..];
    assert At(s, j + 1, secret);
  }

  /** A secret that is read in the result is read across an edge, or it fits in a mark and was there. */
  lemma {:induction false} LeakIsInMark(s: string, secret: string, q: nat)
    requires secret != "" && At(ReplaceAll(s, secret), q, secret)
    ensures CrossesBy(secret, q) || (Contains(MARK, secret) && Contains(s, secret))
    decreases |s|
  {
    if s == "" {
    } else if secret <= s {
      var rest := s[|secret|..];
      assert At(s, 0, secret);
      if q < |MARK| {
        EdgeOfMark(ReplaceAll(s, secret), secret, q);
      } else {
        var o := ReplaceAll(rest, secret);
        assert (MARK + o)[q..q + |secret|] == o[q - |MARK|..q - |MARK| + |secret|];
        LeakIsInMark(rest, secret, q - |MARK|);
        ByMeans(secret, q - |MARK|, q);
      }
    } else if q == 0 {
      StartOfResult(s, secret);
    } else {
      Shift(s[0], ReplaceAll(s[1..], secret), secret);
      LeakIsInMark(s[1..], secret, q - 1);
      ByMeans(secret, q - 1, q);
      if Contains(s[1..], secret) { InTail(s, secret); }
    }
  }

  lemma {:induction false} MarkAppears(s: string, secret: string, j: nat) returns (q: nat)
    requires secret != "" && At(s, j, secret)
    ensures At(ReplaceAll(s, secret), q, MARK)
    decreases |s|
  {
    if secret <= s {
      q := 0;
    } else {
      assert s == [s[0]] + s[1..];
      Shift(s[0], s[1..], secret);
      q := MarkAppears(s[1..], secret, j - 1);
      Shift(s[0], ReplaceAll(s[1..], secret), MARK);
      q := q + 1;
    }
  }

  /**
   * Line by line, for every secret that cannot be read across an edge of a mark: the
   * redacted line shows it exactly when the line had it and the mark shows it.
   */
  lemma LeaksExactly(s: string, secret: string)
    requires secret != "" && !Crosses(secret)
    ensures Contains(ReplaceAll(s, secret), secret) <==> Contains(s, secret) && Contains(MARK, secret)
  {
    var o := ReplaceAll(s, secret);
    if Contains(o, secret) {
      var q: nat :| At(o, q, secret);
      LeakIsInMark(s, secret, q);
      ByMeans(secret, q, q);
    }
    if Contains(s, secret) && Contains(MARK, secret) {
      var j: nat :| At(s, j, secret);
      var k: nat :| At(MARK, k, secret);
      var q := MarkAppears(s, secret, j);
      AtInside(o, q, MARK, k, secret);
    }
  }

  lemma PrefixAt(o: string, kept: string, q: nat, part: string)
    requires kept <= o
    ensures At(kept, q, part) ==> At(o, q, part)
  {
    if q + |part| <= |kept| { assert o[q..q + |part|] == kept[q..q + |part|]; }
  }

  /** What RedactTo writes never has such a secret in it, whatever the line and the buffer size. */
  lemma NeverLeaks(s: string, secret: string, outLen: nat)
    requires secret != "" && !Exposed(secret) && 0 < outLen
    ensures !Contains(Copy(Redacted(s, secret), outLen), secret)
  {
    LeaksExactly(s, secret);
    var o := ReplaceAll(s, secret);
    var kept := Copy(o, outLen);
    forall q: nat ensures !At(kept, q, secret) {
      PrefixAt(o, kept, q, secret);
    }
  }

  // ---- and when it can: a line that shows it -------------------------------------------------

  lemma AtTail(a: string, b: string, k: nat)
    requires k <= |a|
    ensures At(a + b, k, a[k..] + b)
  {
    assert (a + b)[k..] == a[k..] + b;
  }

  lemma AtFront(a: string, b: string, k: nat)
    requires k <= |b|
    ensures At(a + b, 0, a + b[..k])
  {
    assert (a + b)[..|a| + k] == a + b[..k];
  }

  lemma TwoParts(s: string, k: nat)
    requires k <= |s|
    ensures s == s[..k] + s[k..]
  {
  }

  lemma LeakAtEnd(secret: string, n: nat)
    requires 0 < n < |secret| && n < |MARK| && secret[..n] == MARK[|MARK| - n..]
    ensures ReplaceAll(secret + secret[n..], secret) == MARK + secret[n..]
    ensures At(MARK + secret[n..], |MARK| - n, secret)
  {
    var w := secret[n..];
    ReplacedFront(secret, w);
    ShortIsKept(w, secret);
    AtTail(MARK, w, |MARK| - n);
    TwoParts(secret, n);
  }

  lemma AtChars(t: string, q: nat, part: string)
    requires At(t, q, part)
    ensures forall j | 0 <= j < |part| :: t[q + j] == part[j]
  {
    var u := t[q..q + |part|];
    assert u == part && forall j | 0 <= j < |u| :: u[j] == t[q + j];
  }

  lemma Pick(s: string, k: nat, w: string, x: nat)
    requires k + |w| <= |s| && forall i | 0 <= i < |w| :: s[k + i] == w[i]
    ensures x < |w| ==> s[k + x] == w[x]
  {
  }

  lemma NoRepeat(w: string, x: nat)
    requires 0 < x && (x < |w| ==> w[x] == w[0]) && forall i | 0 < i < |w| :: w[i] != w[0]
    ensures |w| <= x
  {
  }

  /**
   * `t` is the secret without its ending `w`, and then the secret. A match in `t` before
   * that makes the secret start with `w`, when the first character of `w` is its only one.
   */
  lemma EarlierIsStart(t: string, secret: string, m: nat, w: string, k: nat)
    requires |secret| == m + |w| && |t| == m + |secret| && k < m
    requires forall x | 0 <= x < m :: t[x] == secret[x]
    requires forall x | 0 <= x < |secret| :: t[m + x] == secret[x]
    requires forall i | 0 <= i < |w| :: secret[m + i] == w[i]
    requires forall i | 0 < i < |w| :: w[i] != w[0]
    requires forall j | 0 <= j < |secret| :: t[k + j] == secret[j]
    ensures forall i | 0 <= i < |w| :: secret[i] == w[i]
  {
    forall i | 0 <= i < |w| ensures secret[k + i] == w[i] {
      assert t[m + (k + i)] == t[k + (m + i)] == secret[m + i];
    }
    if |w| > 0 {
      assert secret[m + 0] == w[0];
      Pick(secret, k, w, m - k);
      NoRepeat(w, m - k);
    }
    forall i | 0 <= i < |w| ensures secret[i] == w[i] {
      assert secret[i] == t[k + i] == secret[k + i];
    }
  }

  lemma MarkHasOneBracket()
    ensures forall i | 0 < i < |MARK| :: MARK[i] != MARK[0]
  {
  }

  lemma NoEarlierMatch(secret: string, n: nat, k: nat)
    requires 0 < n < |secret| && n < |MARK|
    requires secret[|secret| - n..] == MARK[..n] && secret[..n] != MARK[..n]
    requires k < |secret| - n
    ensures !At(secret[..|secret| - n] + secret, k, secret)
  {
    var m, w := |secret| - n, MARK[..n];
    var t := secret[..m] + secret;
    if At(t, k, secret) {
      MarkHasOneBracket();
      AtChars(t, k, secret);
      assert forall i | 0 <= i < n :: secret[m..][i] == secret[m + i];
      EarlierIsStart(t, secret, m, w, k);
    }
  }

  lemma LeakAtStart(secret: string, n: nat)
    requires 0 < n < |secret| && n < |MARK|
    requires secret[|secret| - n..] == MARK[..n] && secret[..n] != MARK[..n]
    ensures ReplaceAll(secret[..|secret| - n] + secret, secret) == secret[..|secret| - n] + MARK
    ensures At(secret[..|secret| - n] + MARK, 0, secret)
  {
    var v := secret[..|secret| - n];
    forall k: nat | k < |v| ensures !At(v + secret, k, secret) {
      NoEarlierMatch(secret, n, k);
    }
    KeptUpTo(v, secret, secret);
    ReplacedAlone(secret);
    AtFront(v, MARK, n);
    TwoParts(secret, |v|);
  }

  lemma ReplacedAlone(secret: string)
    requires secret != ""
    ensures ReplaceAll(secret, secret) == MARK
  {
    ReplacedFront(secret, "");
    assert secret + "" == secret && MARK + "" == MARK;
  }

  /** Before the first mark in the secret no copy of the secret can start. */
  lemma NoMatchAround(secret: string, a: nat, rest: string, k: nat)
    requires At(secret, a, MARK) && (forall i: nat | i < a :: !At(secret, i, MARK)) && k < a
    ensures !At(secret[..a] + (secret + rest), k, secret)
  {
    var t := secret[..a] + (secret + rest);
    if At(t, k, secret) {
      AtInside(t, k, secret, a, MARK);
      assert t[a..a + |secret|] == secret;
      AtWithin(t, a, secret, k + a, MARK);
    }
  }

  lemma AroundPart(s: string, a: nat, part: string)
    requires At(s, a, part)
    ensures s == s[..a] + (part + s[a + |part|..])
  {
  }

  lemma LeakAround(secret: string, a: nat)
    requires At(secret, a, MARK) && forall k: nat | k < a :: !At(secret, k, MARK)
    ensures ReplaceAll(secret[..a] + (secret + secret[a + |MARK|..]), secret) == secret
  {
    var v, w := secret[..a], secret[a + |MARK|..];
    forall k: nat | k < |v| ensures !At(v + (secret + w), k, secret) {
      NoMatchAround(secret, a, w, k);
    }
    KeptUpTo(v, secret + w, secret);
    ReplacedFront(secret, w);
    ShortIsKept(w, secret);
    AroundPart(secret, a, MARK);
  }

  /** A text made of the characters of the secret and of the mark. */
  predicate MadeOf(o: string, secret: string) {
    forall c | c in o :: c in secret || c in MARK
  }

  /**
   * For every secret that can be shown by `q` there is a line whose redaction shows it
   * there or before, or in its first ten characters.
   */
  lemma LeakFor(secret: string, q: nat) returns (s: string, at: nat)
    requires secret != "" && ShownBy(secret, q)
    ensures s != "" && At(ReplaceAll(s, secret), at, secret) && MadeOf(ReplaceAll(s, secret), secret)
    ensures at <= q || at + |secret| <= |MARK|
  {
    if Contains(MARK, secret) {
      s := secret;
      ReplacedAlone(secret);
      at := FirstAt(MARK, secret);
    } else if StartsMark(secret) {
      var n :| 0 < n < |secret| && n < |MARK| && secret[|secret| - n..] == MARK[..n] && secret[..n] != MARK[..n];
      s, at := secret[..|secret| - n] + secret, 0;
      LeakAtStart(secret, n);
    } else if Wraps(secret) {
      var a := FirstAt(secret, MARK);
      s, at := secret[..a] + (secret + secret[a + |MARK|..]), 0;
      LeakAround(secret, a);
      assert At(secret, 0, secret);
    } else {
      var n :| 0 < n < |secret| && n < |MARK| && secret[..n] == MARK[|MARK| - n..] && |MARK| - n <= q;
      s, at := secret + secret[n..], |MARK| - n;
      LeakAtEnd(secret, n);
    }
  }

  /**
   * Which secrets redaction hides: over all lines and buffer sizes, exactly those that
   * cannot be read in the mark or across one of its edges.
   */
  lemma HidesExactly(secret: string)
    requires secret != ""
    ensures (forall s: string, outLen: nat | 0 < outLen :: !Contains(Copy(Redacted(s, secret), outLen), secret))
            <==> !Exposed(secret)
  {
    if Exposed(secret) {
      ByMeans(secret, |MARK|, |MARK|);
      var s, at := LeakFor(secret, |MARK|);
      var o := Redacted(s, secret);
      assert Copy(o, |o| + 1) == o;
    } else {
      forall s: string, outLen: nat | 0 < outLen
        ensures !Contains(Copy(Redacted(s, secret), outLen), secret)
      {
        NeverLeaks(s, secret, outLen);
      }
    }
  }

  lemma FirstIsIn(o: string, k: nat, part: string)
    requires part != ""
    ensures At(o, k, part) ==> part[0] in o
  {
    if At(o, k, part) { assert o[k..k + |part|][0] == o[k]; }
  }

  /** In particular a secret that shares no character with the mark. */
  lemma DisjointSecretNeverLeaks(s: string, secret: string, outLen: nat)
    requires secret != "" && (forall c | c in secret :: c !in MARK) && 0 < outLen
    ensures !Contains(Copy(Redacted(s, secret), outLen), secret)
  {
    DisjointIsNotExposed(secret);
    NeverLeaks(s, secret, outLen);
  }

  lemma DisjointIsNotExposed(secret: string)
    requires secret != "" && forall c | c in secret :: c !in MARK
    ensures !Exposed(secret)
  {
    var first, last := secret[0], secret[|secret| - 1];
    assert first in secret && last in secret && MARK[0] in MARK;
    forall k: nat ensures !At(MARK, k, secret) && !At(secret, k, MARK) {
      FirstIsIn(MARK, k, secret);
      FirstIsIn(secret, k, MARK);
    }
    forall n | 0 < n < |secret| && n < |MARK|
      ensures secret[..n] != MARK[|MARK| - n..] && secret[|secret| - n..] != MARK[..n]
    {
      assert secret[..n][0] == first && MARK[|MARK| - n..][0] == MARK[|MARK| - n];
      assert secret[|secret| - n..][n - 1] == last && MARK[..n][n - 1] == MARK[n - 1];
    }
  }

  /** A secret that ends and starts with the same edge of the mark shares it and stays hidden. */
  lemma SharedEdgeCanHide(c: char)
    requires c !in MARK
    ensures "[" + [c] + "[" != MARK && !Exposed("[" + [c] + "[")
  {
    var secret := "[" + [c] + "[";
    assert secret[1] == c && |secret| == 3;
    forall k: nat ensures !At(MARK, k, secret) {
      if k + 3 <= |MARK| { assert MARK[k..k + 3][1] == MARK[k + 1]; }
    }
    assert MARK[9] == ']';
    forall n | 0 < n < |secret| && n < |MARK| ensures secret[..n] != MARK[|MARK| - n..] {
      assert MARK[|MARK| - n..][n - 1] == MARK[9] && secret[..n][n - 1] == secret[n - 1];
    }
    forall n | 0 < n < |secret| && n < |MARK|
      ensures secret[|secret| - n..] != MARK[..n] || secret[..n] == MARK[..n]
    {
      assert secret[|secret| - n..][0] == secret[3 - n] && MARK[..n][0] == MARK[0];
      assert n == 1 ==> secret[..1] == MARK[..1];
    }
  }
}
