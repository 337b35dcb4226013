/**
 * scrubDetail, which the Kotlin bridge and the TypeScript client both apply to error
 * texts: the known secret is replaced, then every value after a credential's name
 * (sipPassword, auth_pass or password, then ':' or '='), then the text is cut.
 */
module Scrub {
  import opened Wrappers
  import opened Redaction

  const LIMIT: nat := 180

  /**
   * What the two regular expression engines may differ in: the class of \s, and which
   * characters outside ASCII a case-insensitive match takes for a letter.
   */
  datatype Lex = Lex(ws: set<char>, fold: map<char, char>)

  /** A visible ASCII character. */
  predicate Visible(c: char) {
    '!' <= c <= '~'
  }

  predicate Sane(lex: Lex) {
    && (forall c | c in lex.ws :: !Visible(c))
    && (forall c | c in lex.fold :: !Visible(c) && c !in lex.ws)
  }

  function Fold(lex: Lex, c: char): char {
    if 'A' <= c <= 'Z' then (c as int - 'A' as int + 'a' as int) as char
    else if c in lex.fold then lex.fold[c]
    else c
  }

  predicate Spells(lex: Lex, s: string, word: string) {
    |word| <= |s| && forall j | 0 <= j < |word| :: Fold(lex, s[j]) == word[j]
  }

  /** The length of the credential's name that `s` starts with, 0 if it starts with none. */
  function Key(lex: Lex, s: string): (k: nat)
    ensures k <= |s|
  {
    if Spells(lex, s, "sippassword") then 11
    else if Spells(lex, s, "auth_pass") then 9
    else if Spells(lex, s, "password") then 8
    else 0
  }

  predicate IsSign(c: char) {
    c == ':' || c == '='
  }

  function SkipSpace(lex: Lex, s: string, p: nat): (q: nat)
    requires p <= |s|
    ensures p <= q <= |s| && (q < |s| ==> s[q] !in lex.ws)
    ensures forall j | p <= j < q :: s[j] in lex.ws
    decreases |s| - p
  {
    if p < |s| && s[p] in lex.ws then SkipSpace(lex, s, p + 1) else p
  }

  function SkipWord(lex: Lex, s: string, p: nat): (q: nat)
    requires p <= |s|
    ensures p <= q <= |s| && (q < |s| ==> s[q] in lex.ws)
    ensures forall j | p <= j < q :: s[j] !in lex.ws
    decreases |s| - p
  {
    if p < |s| && s[p] !in lex.ws then SkipWord(lex, s, p + 1) else p
  }

  /**
   * The match at the start of `s`: where its sign and where its value stand. No match
   * needs backtracking, since neither a sign nor the value can start with white space.
   */
  function Match(lex: Lex, s: string): (r: Option<(nat, nat)>)
    ensures r.Some? ==> Matches(lex, s, r.value.0, r.value.1)
  {
    var k := Key(lex, s);
    var sign := SkipSpace(lex, s, k);
    if k == 0 || sign == |s| || !IsSign(s[sign]) then None
    else
      var value := SkipSpace(lex, s, sign + 1);
      if value == |s| then None else Some((sign, value))
  }

  predicate Matches(lex: Lex, s: string, sign: nat, value: nat) {
    && 0 < Key(lex, s) <= sign < value < |s|
    && (forall j | Key(lex, s) <= j < sign :: s[j] in lex.ws)
    && IsSign(s[sign])
    && (forall j | sign < j < value :: s[j] in lex.ws)
    && s[value] !in lex.ws
  }

  /** replace(/.../gi, "$1[REDACTED]"). */
  function Redact(lex: Lex, s: string): string
    decreases |s|
  {
    if s == "" then ""
    else
      var m := Match(lex, s);
      if m.None? then [s[0]] + Redact(lex, s[1..])
      else s[..m.value.1] + MARK + Redact(lex, s[SkipWord(lex, s, m.value.1)..])
  }

  function Cut(s: string): string {
    if |s| > LIMIT then s[..LIMIT] else s
  }

  /** scrubDetail: None for undefined or null. */
  function Scrubbed(lex: Lex, detail: Option<string>, secret: Option<string>): Option<string> {
    if detail.None? || detail.value == "" then None
    else
      var open := if secret.Some? then Redacted(detail.value, secret.value) else detail.value;
      Some(Cut(Redact(lex, open)))
  }

  // ---- matches ---------------------------------------------------------------------

  lemma {:induction false} SpaceEnds(lex: Lex, s: string, p: nat, q: nat)
    requires p <= q < |s| && s[q] !in lex.ws && forall j | p <= j < q :: s[j] in lex.ws
    ensures SkipSpace(lex, s, p) == q
    decreases q - p
  {
    if p < q { SpaceEnds(lex, s, p + 1, q); }
  }

  lemma {:induction false} WordEnds(lex: Lex, s: string, p: nat, q: nat)
    requires p <= q <= |s| && (q < |s| ==> s[q] in lex.ws) && forall j | p <= j < q :: s[j] !in lex.ws
    ensures SkipWord(lex, s, p) == q
    decreases q - p
  {
    if p < q { WordEnds(lex, s, p + 1, q); }
  }

  lemma MatchIs(lex: Lex, s: string, sign: nat, value: nat)
    requires Sane(lex) && Matches(lex, s, sign, value)
    ensures Match(lex, s) == Some((sign, value))
  {
    SpaceEnds(lex, s, Key(lex, s), sign);
    SpaceEnds(lex, s, sign + 1, value);
  }

  /** The name is read off the characters it consists of. */
  lemma KeyCarries(l1: Lex, x: string, l2: Lex, y: string)
    requires Key(l1, x) > 0 && |y| >= Key(l1, x)
    requires forall j | 0 <= j < Key(l1, x) :: Fold(l1, x[j]) == Fold(l2, y[j])
    ensures Key(l2, y) == Key(l1, x)
  {
    assert Fold(l1, x[0]) == Fold(l2, y[0]);
  }

  lemma KeyIsName(lex: Lex, s: string, j: nat)
    requires Sane(lex) && j < Key(lex, s)
    ensures s[j] != '[' && !IsSign(s[j]) && s[j] !in lex.ws
  {
    var c := Fold(lex, s[j]);
    assert c in "sippassword" || c in "auth_pass";
    assert c == '_' || 'a' <= c <= 'z';
  }

  /** Up to its value a match has no bracket, and one sign. */
  lemma BeforeValue(lex: Lex, s: string, sign: nat, value: nat, j: nat)
    requires Sane(lex) && Matches(lex, s, sign, value) && j < value
    ensures s[j] != '[' && (IsSign(s[j]) <==> j == sign)
  {
    if j < Key(lex, s) { KeyIsName(lex, s, j); }
  }

  /** A match depends on the text up to its value only. */
  lemma MatchCarries(lex: Lex, x: string, y: string, sign: nat, value: nat)
    requires Sane(lex) && Matches(lex, x, sign, value)
    requires value < |y| && y[..value] == x[..value] && y[value] !in lex.ws
    ensures Matches(lex, y, sign, value)
  {
    assert forall j | 0 <= j < value :: y[..value][j] == x[..value][j];
    assert forall j | 0 <= j < value :: y[j] == x[j];
    KeyCarries(lex, x, lex, y);
  }

  // ---- what redaction leaves -------------------------------------------------------

  /** How far redaction leaves the text alone: up to the first value. */
  function Untouched(lex: Lex, s: string): (n: nat)
    ensures n <= |s|
    decreases |s|
  {
    if s == "" then 0
    else
      var m := Match(lex, s);
      if m.Some? then m.value.1 else 1 + Untouched(lex, s[1..])
  }

  /** `r` is `s` up to n; there `r` ends like `s` or has a bracket, and `s` a visible character. */
  predicate SameTo(lex: Lex, r: string, s: string, n: nat) {
    && n <= |r| && n <= |s| && r[..n] == s[..n]
    && if n == |s| then r == s else n < |r| && r[n] == '[' && s[n] !in lex.ws
  }

  lemma SameToCons(lex: Lex, r: string, s: string, n: nat, c: char)
    requires SameTo(lex, r, s, n)
    ensures SameTo(lex, [c] + r, [c] + s, n + 1)
  {
    assert ([c] + r)[..n + 1] == [c] + r[..n];
    assert ([c] + s)[..n + 1] == [c] + s[..n];
  }

  lemma SameToValue(lex: Lex, s: string, value: nat, tail: string)
    requires value < |s| && s[value] !in lex.ws
    ensures SameTo(lex, s[..value] + MARK + tail, s, value)
  {
    var r := s[..value] + MARK + tail;
    assert r[..value] == s[..value];
    assert r[value] == MARK[0];
  }

  lemma {:induction false} UntouchedStays(lex: Lex, s: string)
    ensures SameTo(lex, Redact(lex, s), s, Untouched(lex, s))
    decreases |s|
  {
    if s != "" {
      var m := Match(lex, s);
      if m.None? {
        UntouchedStays(lex, s[1..]);
        SameToCons(lex, Redact(lex, s[1..]), s[1..], Untouched(lex, s[1..]), s[0]);
        assert s == [s[0]] + s[1..];
      } else {
        SameToValue(lex, s, m.value.1, Redact(lex, s[SkipWord(lex, s, m.value.1)..]));
      }
    }
  }

  lemma SamePrefix(r: string, s: string, n: nat, k: nat)
    requires k <= n <= |r| && n <= |s| && r[..n] == s[..n]
    ensures r[..k] == s[..k] && (k < n ==> r[k] == s[k])
  {
    assert r[..k] == r[..n][..k];
    assert s[..k] == s[..n][..k];
    if k < n { assert r[..n][k] == s[..n][k]; }
  }

  /** A match of the redacted text has its value no later than the first mark, so it was there before. */
  lemma MatchWasThere(lex: Lex, r: string, s: string, n: nat, sign: nat, value: nat)
    requires Sane(lex) && SameTo(lex, r, s, n) && Matches(lex, r, sign, value)
    ensures Matches(lex, s, sign, value)
  {
    if n < value { BeforeValue(lex, r, sign, value, n); }
    SamePrefix(r, s, n, value);
    MatchCarries(lex, r, s, sign, value);
  }

  /** Redaction makes no match where there was none: the bracket of its mark stops one. */
  lemma NoNewMatch(lex: Lex, s: string, sign: nat, value: nat)
    requires Sane(lex) && Matches(lex, Redact(lex, s), sign, value)
    ensures Matches(lex, s, sign, value)
  {
    UntouchedStays(lex, s);
    MatchWasThere(lex, Redact(lex, s), s, Untouched(lex, s), sign, value);
  }

  predicate Bare(lex: Lex, s: string) {
    s == "" || s[0] in lex.ws
  }

  lemma BareStays(lex: Lex, s: string)
    requires Sane(lex) && Bare(lex, s)
    ensures Bare(lex, Redact(lex, s))
  {
    if s != "" && Key(lex, s) > 0 { KeyIsName(lex, s, 0); }
  }

  /** The value of every match in `t` is the mark. */
  ghost predicate Canonical(lex: Lex, t: string) {
    forall i: nat | i <= |t| :: ValueIsMark(lex, t[i..])
  }

  predicate ValueIsMark(lex: Lex, s: string) {
    var m := Match(lex, s);
    m.Some? ==> s[m.value.1..SkipWord(lex, s, m.value.1)] == MARK
  }

  lemma MarkVisible()
    ensures forall j | 0 <= j < |MARK| :: Visible(MARK[j])
  {
  }

  lemma MarkIsValue(lex: Lex, s: string, sign: nat, value: nat, rest: string)
    requires Sane(lex) && Matches(lex, s, sign, value)
    requires s == s[..value] + MARK + rest && Bare(lex, rest)
    ensures ValueIsMark(lex, s) && SkipWord(lex, s, value) == value + |MARK|
    ensures s[value + |MARK|..] == rest
  {
    MatchIs(lex, s, sign, value);
    MarkVisible();
    assert forall j | 0 <= j < |MARK| :: s[value + j] == MARK[j];
    WordEnds(lex, s, value, value + |MARK|);
  }

  /** No name of a credential starts inside the mark. */
  lemma NoMatchInMark(lex: Lex, x: string, i: nat)
    requires Sane(lex) && i < |MARK| && MARK[i..] <= x
    ensures ValueIsMark(lex, x)
  {
    assert x[0] == MARK[i] && Visible(x[0]);
    assert i == 4 ==> x[1] == MARK[i..][1] == 'C';
    assert Key(lex, x) == 0;
  }

  /** A match that starts inside another one's name has its value in the same place. */
  lemma SameValue(lex: Lex, s: string, sign: nat, value: nat, x: string, i: nat, a: nat, h: nat)
    requires Sane(lex) && Matches(lex, s, sign, value) && i < value
    requires value - i < |x| && x[value - i] == '[' && forall j | 0 <= j < value - i :: x[j] == s[j + i]
    requires Matches(lex, x, a, h)
    ensures h == value - i
  {
    if value - i < h { BeforeValue(lex, x, a, h, value - i); }
    BeforeValue(lex, s, sign, value, a + i);
    assert forall j | a < j < value - i :: x[j] == s[j + i] && s[j + i] in lex.ws;
  }

  lemma MatchInName(lex: Lex, s: string, sign: nat, value: nat, tail: string, i: nat)
    requires Sane(lex) && Matches(lex, s, sign, value) && i < value && Bare(lex, tail)
    ensures ValueIsMark(lex, s[i..value] + MARK + tail)
  {
    var name := s[i..value];
    var x := name + MARK + tail;
    var m := Match(lex, x);
    if m.Some? {
      assert forall j | 0 <= j < |name| :: x[j] == name[j] == s[j + i];
      assert x[|name|] == MARK[0];
      SameValue(lex, s, sign, value, x, i, m.value.0, m.value.1);
      assert x[..|name|] == name;
      MarkIsValue(lex, x, m.value.0, |name|, tail);
    }
  }

  lemma InMatch(lex: Lex, s: string, sign: nat, value: nat, tail: string, i: nat)
    requires Sane(lex) && Matches(lex, s, sign, value) && Bare(lex, tail) && i < value + |MARK|
    ensures ValueIsMark(lex, (s[..value] + MARK + tail)[i..])
  {
    var r := s[..value] + MARK + tail;
    if i < value {
      assert r[i..] == s[i..value] + MARK + tail;
      MatchInName(lex, s, sign, value, tail, i);
    } else {
      assert r[i..] == MARK[i - value..] + tail;
      NoMatchInMark(lex, r[i..], i - value);
    }
  }

  /** After redaction every match, wherever it starts, has the mark for its value. */
  lemma {:induction false} RedactedAt(lex: Lex, s: string, i: nat)
    requires Sane(lex) && i <= |Redact(lex, s)|
    ensures ValueIsMark(lex, Redact(lex, s)[i..])
    decreases |s|
  {
    var r, m := Redact(lex, s), Match(lex, s);
    if s == "" {
      assert r[i..] == "";
    } else if m.None? && i == 0 {
      assert r[0..] == r;
      NoMatchStays(lex, s);
    } else if m.None? {
      RedactedAt(lex, s[1..], i - 1);
      SuffixOf([s[0]], Redact(lex, s[1..]), i);
    } else {
      var (sign, value) := m.value;
      var rest := s[SkipWord(lex, s, value)..];
      var head := s[..value] + MARK;
      if i < |head| {
        BareStays(lex, rest);
        InMatch(lex, s, sign, value, Redact(lex, rest), i);
      } else {
        RedactedAt(lex, rest, i - |head|);
        SuffixOf(head, Redact(lex, rest), i);
      }
    }
  }

  lemma SuffixOf(head: string, tail: string, i: nat)
    requires |head| <= i <= |head + tail|
    ensures (head + tail)[i..] == tail[i - |head|..]
  {
  }

  lemma NoMatchStays(lex: Lex, s: string)
    requires Sane(lex) && Match(lex, s).None?
    ensures Match(lex, Redact(lex, s)).None?
  {
    var m := Match(lex, Redact(lex, s));
    if m.Some? {
      NoNewMatch(lex, s, m.value.0, m.value.1);
      MatchIs(lex, s, m.value.0, m.value.1);
    }
  }

  /** No credential survives: whatever follows a credential's name and sign is the mark. */
  lemma NoCredentialSurvives(lex: Lex, s: string)
    requires Sane(lex)
    ensures Canonical(lex, Redact(lex, s))
  {
    forall i: nat | i <= |Redact(lex, s)| ensures ValueIsMark(lex, Redact(lex, s)[i..]) {
      RedactedAt(lex, s, i);
    }
  }

  // ---- and nothing else changes ----------------------------------------------------

  /** The text between the values, one piece more than there are values. */
  function Around(lex: Lex, s: string): (pieces: seq<string>)
    ensures pieces != []
    decreases |s|
  {
    if s == "" then [""]
    else
      var m := Match(lex, s);
      if m.None? then
        var rest := Around(lex, s[1..]);
        [[s[0]] + rest[0]] + rest[1..]
      else [s[..m.value.1]] + Around(lex, s[SkipWord(lex, s, m.value.1)..])
  }

  /** The values that redaction takes out, in order. */
  function Values(lex: Lex, s: string): (values: seq<string>)
    ensures |values| == |Around(lex, s)| - 1
    decreases |s|
  {
    if s == "" then []
    else
      var m := Match(lex, s);
      if m.None? then Values(lex, s[1..])
      else
        var end := SkipWord(lex, s, m.value.1);
        [s[m.value.1..end]] + Values(lex, s[end..])
  }

  /** The pieces with something in each gap. */
  function Weave(pieces: seq<string>, gaps: seq<string>): string
    requires |pieces| == |gaps| + 1
  {
    if gaps == [] then pieces[0] else pieces[0] + (gaps[0] + Weave(pieces[1..], gaps[1..]))
  }

  function Marks(n: nat): (r: seq<string>)
    ensures |r| == n
  {
    if n == 0 then [] else [MARK] + Marks(n - 1)
  }

  lemma WeaveHead(head: string, pieces: seq<string>, gaps: seq<string>)
    requires |pieces| == |gaps| + 1
    ensures Weave([head + pieces[0]] + pieces[1..], gaps) == head + Weave(pieces, gaps)
  {
    if gaps != [] {
      assert ([head + pieces[0]] + pieces[1..])[1..] == pieces[1..];
    }
  }

  lemma WeaveCons(piece: string, gap: string, pieces: seq<string>, gaps: seq<string>)
    requires |pieces| == |gaps| + 1
    ensures Weave([piece] + pieces, [gap] + gaps) == piece + (gap + Weave(pieces, gaps))
  {
    assert ([piece] + pieces)[1..] == pieces && ([gap] + gaps)[1..] == gaps;
  }

  /** `s` is its pieces and its values, and redacted its pieces and marks. */
  ghost predicate Rewoven(lex: Lex, s: string) {
    && s == Weave(Around(lex, s), Values(lex, s))
    && Redact(lex, s) == Weave(Around(lex, s), Marks(|Values(lex, s)|))
  }

  lemma RewovenCons(lex: Lex, s: string)
    requires s != "" && Match(lex, s).None? && Rewoven(lex, s[1..])
    ensures Rewoven(lex, s)
  {
    var pieces, values := Around(lex, s[1..]), Values(lex, s[1..]);
    WeaveHead([s[0]], pieces, values);
    WeaveHead([s[0]], pieces, Marks(|values|));
    assert s == [s[0]] + s[1..];
  }

  lemma ThreeParts(s: string, a: nat, b: nat)
    requires a <= b <= |s|
    ensures s == s[..a] + (s[a..b] + s[b..])
  {
  }

  lemma MarksCons(n: nat)
    ensures Marks(n + 1) == [MARK] + Marks(n)
  {
  }

  /** What a match at the start does to the three functions. */
  lemma FirstMatch(lex: Lex, s: string, sign: nat, value: nat)
    requires s != "" && Match(lex, s) == Some((sign, value))
    ensures var end := SkipWord(lex, s, value);
            && Around(lex, s) == [s[..value]] + Around(lex, s[end..])
            && Values(lex, s) == [s[value..end]] + Values(lex, s[end..])
            && Redact(lex, s) == s[..value] + (MARK + Redact(lex, s[end..]))
  {
    var rest := Redact(lex, s[SkipWord(lex, s, value)..]);
    assert s[..value] + MARK + rest == s[..value] + (MARK + rest);
  }

  lemma RewovenMatch(lex: Lex, s: string, sign: nat, value: nat)
    requires s != "" && Match(lex, s) == Some((sign, value))
    requires Rewoven(lex, s[SkipWord(lex, s, value)..])
    ensures Rewoven(lex, s)
  {
    var end := SkipWord(lex, s, value);
    var pieces, values := Around(lex, s[end..]), Values(lex, s[end..]);
    var marks := Marks(|values|);
    WeaveCons(s[..value], s[value..end], pieces, values);
    WeaveCons(s[..value], MARK, pieces, marks);
    ThreeParts(s, value, end);
    MarksCons(|values|);
    FirstMatch(lex, s, sign, value);
  }

  /**
   * Redaction changes values only: the text is its pieces with the values in between,
   * and the redacted text is the same pieces with a mark for each.
   */
  lemma {:induction false} RedactKeepsTheRest(lex: Lex, s: string)
    ensures s == Weave(Around(lex, s), Values(lex, s))
    ensures Redact(lex, s) == Weave(Around(lex, s), Marks(|Values(lex, s)|))
    decreases |s|
  {
    if s != "" {
      var m := Match(lex, s);
      if m.None? {
        RedactKeepsTheRest(lex, s[1..]);
        RewovenCons(lex, s);
      } else {
        RedactKeepsTheRest(lex, s[SkipWord(lex, s, m.value.1)..]);
        RewovenMatch(lex, s, m.value.0, m.value.1);
      }
    }
  }

  /** Every value that is taken out is a whole word: not empty, and without white space. */
  lemma {:induction false} ValuesAreWords(lex: Lex, s: string, k: nat)
    requires k < |Values(lex, s)|
    ensures Values(lex, s)[k] != "" && forall c | c in Values(lex, s)[k] :: c !in lex.ws
    decreases |s|
  {
    var m := Match(lex, s);
    if m.None? {
      ValuesAreWords(lex, s[1..], k);
    } else {
      WholeWord(lex, s, m.value.1);
      if k > 0 { ValuesAreWords(lex, s[SkipWord(lex, s, m.value.1)..], k - 1); }
    }
  }

  lemma WholeWord(lex: Lex, s: string, value: nat)
    requires value < |s| && s[value] !in lex.ws
    ensures var word := s[value..SkipWord(lex, s, value)];
            word != "" && forall c | c in word :: c !in lex.ws
  {
    var end := SkipWord(lex, s, value);
    assert end > value;
    forall c | c in s[value..end] ensures c !in lex.ws {
      var k :| 0 <= k < end - value && s[value..end][k] == c;
      assert s[value + k] == c;
    }
  }

  // ---- redacting again -------------------------------------------------------------

  lemma CanonicalRest(lex: Lex, t: string, k: nat)
    requires Canonical(lex, t) && k <= |t|
    ensures Canonical(lex, t[k..])
  {
    forall i: nat | i <= |t[k..]| ensures ValueIsMark(lex, t[k..][i..]) {
      assert t[k..][i..] == t[k + i..];
    }
  }

  lemma TakeOfSlice(t: string, a: nat, b: nat, n: nat)
    requires a <= n <= b <= |t|
    ensures t[a..n] <= t[a..b]
  {
    var u := t[a..b];
    assert forall i | 0 <= i < n - a :: u[..n - a][i] == t[a + i] == t[a..n][i];
    assert u[..n - a] == t[a..n];
  }

  lemma TailOfCut(t: string, n: nat, k: nat)
    requires k <= n <= |t|
    ensures t[..n][k..] == t[k..][..n - k]
  {
  }

  /** A match that the cut left whole or cut in its value: its value is the mark, or starts it. */
  lemma CutMatch(lex: Lex, t: string, n: nat, sign: nat, value: nat)
    requires Sane(lex) && n <= |t| && ValueIsMark(lex, t) && Match(lex, t[..n]) == Some((sign, value))
    ensures value < n && var end := SkipWord(lex, t[..n], value);
            && t[value..end] <= MARK && (end < n || n == |t| ==> t[value..end] == MARK)
  {
    var c := t[..n];
    MatchCarries(lex, c, t, sign, value);
    MatchIs(lex, t, sign, value);
    var end := SkipWord(lex, t, value);
    if end <= n {
      WordEnds(lex, c, value, end);
    } else {
      WordEnds(lex, c, value, n);
      TakeOfSlice(t, value, end, n);
    }
  }

  /** The same for the text itself: what redacting writes for the match, and what was there. */
  lemma CutValue(lex: Lex, t: string, n: nat, sign: nat, value: nat)
    requires Sane(lex) && n <= |t| && ValueIsMark(lex, t) && Match(lex, t[..n]) == Some((sign, value))
    ensures value < n
    ensures var end := SkipWord(lex, t[..n], value);
            && t[..end] <= t[..n][..value] + MARK
            && (end < n || n == |t| ==> t[..end] == t[..n][..value] + MARK)
  {
    CutMatch(lex, t, n, sign, value);
    TakeInTwo(t, n, value, SkipWord(lex, t[..n], value));
  }

  lemma TakeInTwo(t: string, n: nat, value: nat, end: nat)
    requires value <= end <= n <= |t|
    ensures t[value..end] <= MARK ==> t[..end] <= t[..n][..value] + MARK
    ensures t[value..end] == MARK ==> t[..end] == t[..n][..value] + MARK
  {
    assert t[..end] == t[..value] + t[value..end];
    assert t[..n][..value] == t[..value];
  }

  lemma PrefixOfSum(t: string, n: nat, k: nat, again: string)
    requires k <= n <= |t| && t[k..][..n - k] <= again
    ensures t[..n] <= t[..k] + again
    ensures n == |t| && again == t[k..] ==> t[..k] + again == t
  {
    assert t[..n] == t[..k] + t[k..][..n - k];
  }

  /**
   * Redacting what a canonical text was cut to gives it back, with at most more behind
   * it: a mark that the cut went through is written out again.
   */
  lemma {:induction false} RedactExtendsCut(lex: Lex, t: string, n: nat)
    requires Sane(lex) && Canonical(lex, t) && n <= |t|
    ensures t[..n] <= Redact(lex, t[..n])
    ensures n == |t| ==> Redact(lex, t[..n]) == t
    decreases |t|
  {
    var c := t[..n];
    if c == "" {
      assert Redact(lex, c) == "";
      assert n == |t| ==> t == "";
    } else {
      var end := RestOfCut(lex, t, n);
      CanonicalRest(lex, t, end);
      RedactExtendsCut(lex, t[end..], n - end);
      TailOfCut(t, n, end);
      var rest := Redact(lex, c[end..]);
      var head := if Match(lex, c).Some? then c[..Match(lex, c).value.1] + MARK else [c[0]];
      assert Redact(lex, c) == head + rest;
      PrefixOfBoth(t, n, end, head, rest);
    }
  }

  lemma PrefixOfBoth(t: string, n: nat, end: nat, head: string, rest: string)
    requires end <= n <= |t| && t[..end] <= head && (end < n || n == |t| ==> t[..end] == head)
    requires t[end..][..n - end] <= rest && (n == |t| ==> rest == t[end..])
    ensures t[..n] <= head + rest && (n == |t| ==> head + rest == t)
  {
    PrefixOfSum(t, n, end, rest);
    if end == n {
      assert t[..n] <= head;
    }
  }

  /** Where the rest of the cut text starts, after one character or one match. */
  lemma RestOfCut(lex: Lex, t: string, n: nat) returns (end: nat)
    requires Sane(lex) && Canonical(lex, t) && 0 < n <= |t|
    ensures var c := t[..n];
            var m := Match(lex, c);
            var head := if m.Some? then c[..m.value.1] + MARK else [c[0]];
            && 0 < end <= n && Redact(lex, c) == head + Redact(lex, c[end..])
            && t[..end] <= head && (end < n || n == |t| ==> t[..end] == head)
  {
    var c := t[..n];
    assert t[0..] == t && ValueIsMark(lex, t[0..]);
    var m := Match(lex, c);
    if m.Some? {
      CutValue(lex, t, n, m.value.0, m.value.1);
      end := SkipWord(lex, c, m.value.1);
    } else {
      end := 1;
      assert [c[0]] == t[..1];
    }
  }

  // ---- two layers ------------------------------------------------------------------

  /** Every character that l2 takes for a letter, l1 takes for the same one. */
  predicate FoldsNoMore(l1: Lex, l2: Lex) {
    forall c | c in l2.fold :: c in l1.fold && l1.fold[c] == l2.fold[c]
  }

  predicate Agree(l1: Lex, l2: Lex) {
    Sane(l1) && Sane(l2) && l1.ws == l2.ws && FoldsNoMore(l1, l2)
  }

  lemma MatchInBoth(l1: Lex, l2: Lex, s: string, sign: nat, value: nat)
    requires Agree(l1, l2) && Matches(l2, s, sign, value)
    ensures Matches(l1, s, sign, value)
  {
    forall j | 0 <= j < Key(l2, s) ensures Fold(l1, s[j]) == Fold(l2, s[j]) {
      var c := Fold(l2, s[j]);
      assert c in "sippassword" || c in "auth_pass";
      assert Visible(c);
    }
    KeyCarries(l2, s, l1, s);
  }

  lemma CanonicalInBoth(l1: Lex, l2: Lex, t: string)
    requires Agree(l1, l2) && Canonical(l1, t)
    ensures Canonical(l2, t)
  {
    forall i: nat | i <= |t| ensures ValueIsMark(l2, t[i..]) {
      var s := t[i..];
      assert ValueIsMark(l1, s);
      var m := Match(l2, s);
      if m.Some? {
        MatchInBoth(l1, l2, s, m.value.0, m.value.1);
        MatchIs(l1, s, m.value.0, m.value.1);
        WordEnds(l2, s, m.value.1, SkipWord(l1, s, m.value.1));
      }
    }
  }

  /** Scrubbing a canonical text that was cut changes nothing. */
  lemma CutAgain(lex: Lex, r: string)
    requires Sane(lex) && Canonical(lex, r)
    ensures Cut(Redact(lex, Cut(r))) == Cut(r)
  {
    var n := if |r| > LIMIT then LIMIT else |r|;
    assert Cut(r) == r[..n];
    RedactExtendsCut(lex, r, n);
    assert |Redact(lex, r[..n])| >= n;
  }

  lemma NotEmptied(lex: Lex, text: string, secret: Option<string>)
    requires text != ""
    ensures var open := if secret.Some? then Redacted(text, secret.value) else text;
            Cut(Redact(lex, open)) != ""
  {
  }

  /**
   * What the bridge scrubbed, the client's event parser leaves as it is: for every text
   * and secret, through the cut, with two engines that share a white space class.
   */
  lemma ScrubbedOnce(l1: Lex, l2: Lex, detail: Option<string>, secret: Option<string>)
    requires Agree(l1, l2)
    ensures Scrubbed(l2, Scrubbed(l1, detail, secret), None) == Scrubbed(l1, detail, secret)
  {
    if detail.Some? && detail.value != "" {
      var open := if secret.Some? then Redacted(detail.value, secret.value) else detail.value;
      var r := Redact(l1, open);
      NoCredentialSurvives(l1, open);
      CanonicalInBoth(l1, l2, r);
      NotEmptied(l1, detail.value, secret);
      CutAgain(l2, r);
    }
  }

  // ---- and only with two such engines --------------------------------------------------

  lemma {:induction false} NoMatchNoChange(lex: Lex, s: string)
    requires forall i: nat | i <= |s| :: Match(lex, s[i..]).None?
    ensures Redact(lex, s) == s
    decreases |s|
  {
    if s != "" {
      assert s[0..] == s;
      forall i: nat | i <= |s[1..]| ensures Match(lex, s[1..][i..]).None? {
        assert s[1..][i..] == s[1 + i..];
      }
      NoMatchNoChange(lex, s[1..]);
    }
  }

  lemma PasswordIsKey(lex: Lex, s: string)
    requires Sane(lex) && "password" <= s
    ensures Key(lex, s) == 8
  {
    assert forall j | 0 <= j < 8 :: s[j] == "password"[j] && Visible(s[j]);
    assert Fold(lex, s[0]) == 'p';
  }

  /** Inside "password" no credential's name starts. */
  lemma NoKeyInside(lex: Lex, s: string, i: nat)
    requires Sane(lex) && "password" <= s && |s| == 11 && 0 < i <= |s|
    ensures Key(lex, s[i..]) == 0
  {
    var x := s[i..];
    if i <= 3 {
      assert x[0] == s[i] == "password"[i] && x[1] == s[i + 1] == "password"[i + 1];
      assert Fold(lex, x[0]) == x[0] && Fold(lex, x[1]) == x[1];
    }
  }

  /** Blank for the second engine only: the first one lets the value through. */
  lemma FirstLetsThrough(lex: Lex, w: char)
    requires Sane(lex) && w !in lex.ws && !IsSign(w)
    ensures var s := "password" + [w] + "=x"; Redact(lex, s) == s
  {
    var s := "password" + [w] + "=x";
    assert "password" <= s && |s| == 11 && s[8] == w;
    forall i: nat | i <= |s| ensures Match(lex, s[i..]).None? {
      if i == 0 {
        assert s[0..] == s;
        PasswordIsKey(lex, s);
      } else {
        NoKeyInside(lex, s, i);
      }
    }
    NoMatchNoChange(lex, s);
  }

  /** And the second one redacts it. */
  lemma SecondRedacts(lex: Lex, w: char)
    requires Sane(lex) && w in lex.ws
    ensures var s := "password" + [w] + "=x"; Redact(lex, s) == "password" + [w] + "=" + MARK
  {
    var s := "password" + [w] + "=x";
    assert "password" <= s && |s| == 11 && s[8] == w && s[9] == '=' && s[10] == 'x';
    PasswordIsKey(lex, s);
    MatchIs(lex, s, 9, 10);
    WordEnds(lex, s, 10, 11);
    assert s[11..] == "" && s[..10] == "password" + [w] + "=";
  }

  /** Blank for the first engine only: the second one takes it for part of the value. */
  lemma FirstKeepsBlank(lex: Lex, w: char)
    requires Sane(lex) && w in lex.ws
    ensures var s := "password=" + [w] + "x"; Redact(lex, s) == "password=" + [w] + MARK
  {
    var s := "password=" + [w] + "x";
    assert "password" <= s && |s| == 11 && s[8] == '=' && s[9] == w && s[10] == 'x';
    PasswordIsKey(lex, s);
    MatchIs(lex, s, 8, 10);
    WordEnds(lex, s, 10, 11);
    assert s[11..] == "" && s[..10] == "password=" + [w];
  }

  lemma SecondDropsBlank(lex: Lex, w: char)
    requires Sane(lex) && w !in lex.ws
    ensures Redact(lex, "password=" + [w] + MARK) == "password=" + MARK
  {
    var word := [w] + MARK;
    var s := "password=" + word;
    assert "password=" + [w] + MARK == s;
    assert "password" <= s && |s| == 20 && s[8] == '=' && s[9] == w;
    PasswordIsKey(lex, s);
    MatchIs(lex, s, 8, 9);
    MarkVisible();
    assert forall j | 9 <= j < 20 :: s[j] == word[j - 9];
    assert forall k | 1 <= k < 11 :: word[k] == MARK[k - 1];
    WordEnds(lex, s, 9, 20);
    assert s[20..] == "" && s[..9] == "password=";
  }

  /** Scrubbing twice is scrubbing once exactly when the two white space classes are the same. */
  lemma SharedClassNeeded(l1: Lex, l2: Lex)
    requires Sane(l1) && Sane(l2) && FoldsNoMore(l1, l2)
    ensures (forall detail: Option<string>, secret: Option<string> ::
               Scrubbed(l2, Scrubbed(l1, detail, secret), None) == Scrubbed(l1, detail, secret))
            <==> l1.ws == l2.ws
  {
    if l1.ws == l2.ws {
      forall detail: Option<string>, secret: Option<string>
        ensures Scrubbed(l2, Scrubbed(l1, detail, secret), None) == Scrubbed(l1, detail, secret)
      {
        ScrubbedOnce(l1, l2, detail, secret);
      }
    } else {
      var s := Distinguishing(l1, l2);
      assert Scrubbed(l2, Scrubbed(l1, Some(s), None), None) != Scrubbed(l1, Some(s), None);
    }
  }

  lemma Distinguishing(l1: Lex, l2: Lex) returns (s: string)
    requires Sane(l1) && Sane(l2) && l1.ws != l2.ws
    ensures s != "" && Redact(l1, s) != "" && |Redact(l1, s)| <= LIMIT
    ensures Cut(Redact(l2, Redact(l1, s))) != Redact(l1, s)
  {
    if w :| w in l2.ws && w !in l1.ws {
      s := "password" + [w] + "=x";
      FirstLetsThrough(l1, w);
      SecondRedacts(l2, w);
      assert |Redact(l2, s)| == 20 != |s|;
    } else {
      var w :| w in l1.ws && w !in l2.ws;
      s := "password=" + [w] + "x";
      FirstKeepsBlank(l1, w);
      SecondDropsBlank(l2, w);
      assert |Redact(l1, s)| == 20 && |Redact(l2, Redact(l1, s))| == 19;
    }
  }
}
