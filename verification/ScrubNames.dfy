/**
 * Redaction of credentials in the words of the pattern itself: which names, which signs
 * and which values, without the matching functions.
 */
module ScrubNames {
  import opened Wrappers
  import opened Redaction
  import opened Scrub

  /** `c` is the letter or underscore `l` in lower or upper case, or what the engine folds into it. */
  predicate Reads(lex: Lex, c: char, l: char) {
    || c == l
    || ('a' <= l <= 'z' && c as int == l as int - 32)
    || (c in lex.fold && lex.fold[c] == l)
  }

  predicate Spelled(lex: Lex, name: string, word: string) {
    |name| == |word| && forall j | 0 <= j < |word| :: Reads(lex, name[j], word[j])
  }

  predicate IsName(lex: Lex, name: string) {
    Spelled(lex, name, "sippassword") || Spelled(lex, name, "auth_pass") || Spelled(lex, name, "password")
  }

  predicate Blank(lex: Lex, s: string) {
    forall j | 0 <= j < |s| :: s[j] in lex.ws
  }

  /** `s` starts with a name of `k` characters; a sign and a value follow, with at most blanks between. */
  predicate Named(lex: Lex, s: string, k: nat, sign: nat, value: nat) {
    && k <= sign < value < |s| && IsName(lex, s[..k])
    && Blank(lex, s[k..sign]) && (s[sign] == ':' || s[sign] == '=') && Blank(lex, s[sign + 1..value])
    && s[value] !in lex.ws
  }

  // ---- the same matches ------------------------------------------------------------------

  lemma ReadsIs(lex: Lex, c: char, l: char)
    requires Sane(lex) && ('a' <= l <= 'z' || l == '_')
    ensures Reads(lex, c, l) <==> Fold(lex, c) == l
  {
  }

  lemma SpelledIs(lex: Lex, s: string, word: string)
    requires Sane(lex) && forall j | 0 <= j < |word| :: 'a' <= word[j] <= 'z' || word[j] == '_'
    ensures Spells(lex, s, word) <==> |word| <= |s| && Spelled(lex, s[..|word|], word)
  {
    forall j | 0 <= j < |word| && |word| <= |s| ensures Reads(lex, s[j], word[j]) <==> Fold(lex, s[j]) == word[j] {
      ReadsIs(lex, s[j], word[j]);
    }
  }

  lemma WordsAre()
    ensures |"sippassword"| == 11 && |"auth_pass"| == 9 && |"password"| == 8
    ensures forall word | word in {"sippassword", "auth_pass", "password"} ::
              forall j | 0 <= j < |word| :: 'a' <= word[j] <= 'z' || word[j] == '_'
  {
  }

  /** The name at the start of a text, by its length. */
  lemma KeyIs(lex: Lex, s: string, k: nat)
    requires Sane(lex)
    ensures k <= |s| && IsName(lex, s[..k]) <==> k == Key(lex, s) && k > 0
  {
    WordsAre();
    SpelledIs(lex, s, "sippassword");
    SpelledIs(lex, s, "auth_pass");
    SpelledIs(lex, s, "password");
    if |s| > 0 {
      ReadsIs(lex, s[0], 's');
      ReadsIs(lex, s[0], 'a');
      ReadsIs(lex, s[0], 'p');
    }
  }

  lemma NamedMatches(lex: Lex, s: string, k: nat, sign: nat, value: nat)
    requires Sane(lex) && Named(lex, s, k, sign, value)
    ensures Matches(lex, s, sign, value) && k == Key(lex, s) && Match(lex, s) == Some((sign, value))
  {
    KeyIs(lex, s, k);
    forall j | k <= j < sign ensures s[j] in lex.ws { assert s[k..sign][j - k] == s[j]; }
    forall j | sign < j < value ensures s[j] in lex.ws { assert s[sign + 1..value][j - sign - 1] == s[j]; }
    MatchIs(lex, s, sign, value);
  }

  lemma MatchIsNamed(lex: Lex, s: string)
    requires Sane(lex) && Match(lex, s).Some?
    ensures var (sign, value) := Match(lex, s).value; Named(lex, s, Key(lex, s), sign, value)
  {
    KeyIs(lex, s, Key(lex, s));
  }

  /** Nothing named starts at the start of `s`. */
  ghost predicate Plain(lex: Lex, s: string) {
    forall k: nat, sign: nat, value: nat :: !Named(lex, s, k, sign, value)
  }

  lemma PlainIs(lex: Lex, s: string)
    requires Sane(lex)
    ensures Plain(lex, s) <==> Match(lex, s).None?
  {
    if Match(lex, s).Some? {
      MatchIsNamed(lex, s);
    } else {
      forall k: nat, sign: nat, value: nat ensures !Named(lex, s, k, sign, value) {
        if Named(lex, s, k, sign, value) { NamedMatches(lex, s, k, sign, value); }
      }
    }
  }

  // ---- what redaction does --------------------------------------------------------------

  lemma Parts(name: string, before: string, sign: char, after: string, value: string, rest: string)
    ensures var head := name + before + [sign] + after;
            var s := head + value + rest;
            var k, p := |name|, |name| + |before|;
            && |head| == p + 1 + |after| && s[..k] == name && s[k..p] == before && s[p] == sign
            && s[p + 1..|head|] == after && s[..|head|] == head && s[|head| + |value|..] == rest
            && (forall j | 0 <= j < |value| :: s[|head| + j] == value[j])
            && (rest != "" ==> s[|head| + |value|] == rest[0])
  {
    var head := name + before + [sign] + after;
    var s := head + value + rest;
    var p := |name| + |before|;
    assert s == name + (before + ([sign] + (after + (value + rest))));
    assert s[..p] == name + before;
  }

  /** The same, of a text cut up by positions. */
  lemma RedactedNamed(lex: Lex, s: string, k: nat, sign: nat, value: nat, end: nat)
    requires Sane(lex) && Named(lex, s, k, sign, value) && value < end <= |s|
    requires (forall j | value <= j < end :: s[j] !in lex.ws) && (end < |s| ==> s[end] in lex.ws)
    ensures Redact(lex, s) == s[..value] + "[REDACTED]" + Redact(lex, s[end..])
  {
    NamedMatches(lex, s, k, sign, value);
    WordEnds(lex, s, value, end);
  }

  /**
   * A name in any case, blanks, ':' or '=', blanks, and a value: the value is replaced
   * by the mark, up to the next blank or the end, and the rest is redacted on its own.
   */
  lemma NamedIsRedacted(lex: Lex, name: string, before: string, sign: char, after: string,
                        value: string, rest: string)
    requires Sane(lex) && IsName(lex, name) && Blank(lex, before) && (sign == ':' || sign == '=') && Blank(lex, after)
    requires value != "" && (forall j | 0 <= j < |value| :: value[j] !in lex.ws) && (rest == "" || rest[0] in lex.ws)
    ensures Redact(lex, name + before + [sign] + after + value + rest)
            == name + before + [sign] + after + "[REDACTED]" + Redact(lex, rest)
  {
    var head := name + before + [sign] + after;
    var s := head + value + rest;
    Parts(name, before, sign, after, value, rest);
    NameIn(lex, s, name, before, sign, after, |head|, value[0]);
    forall j | |head| <= j < |head| + |value| ensures s[j] !in lex.ws {
      assert s[|head| + (j - |head|)] == value[j - |head|];
    }
    RedactedNamed(lex, s, |name|, |name| + |before|, |head|, |head| + |value|);
  }

  lemma NameIn(lex: Lex, s: string, name: string, before: string, sign: char, after: string, at: nat, first: char)
    requires IsName(lex, name) && Blank(lex, before) && (sign == ':' || sign == '=') && Blank(lex, after)
    requires var p := |name| + |before|;
             && at == p + 1 + |after| < |s| && s[..|name|] == name && s[|name|..p] == before && s[p] == sign
             && s[p + 1..at] == after && s[at + 0] == first && first !in lex.ws
    ensures Named(lex, s, |name|, |name| + |before|, at)
  {
  }

  lemma PlainFirst(lex: Lex, s: string)
    requires Sane(lex) && s != "" && Plain(lex, s)
    ensures Redact(lex, s) == [s[0]] + Redact(lex, s[1..])
  {
    PlainIs(lex, s);
  }

  lemma Shift(t: string, n: nat, rest: string)
    requires 0 < n <= |t|
    ensures t[1..][n - 1..] == t[n..]
    ensures [t[0]] + (t[1..][..n - 1] + rest) == t[..n] + rest
  {
    assert [t[0]] + t[1..][..n - 1] == t[..n];
  }

  lemma PlainTail(lex: Lex, t: string, n: nat)
    requires 0 < n <= |t| && forall i: nat | i < n :: Plain(lex, t[i..])
    ensures forall i: nat | i < n - 1 :: Plain(lex, t[1..][i..])
  {
    forall i: nat | i < n - 1 ensures Plain(lex, t[1..][i..]) {
      assert t[1..][i..] == t[i + 1..];
    }
  }

  /** The start of a text stays as it is as long as nothing named starts in it. */
  lemma {:induction false} PlainStays(lex: Lex, t: string, n: nat)
    requires Sane(lex) && n <= |t| && forall i: nat | i < n :: Plain(lex, t[i..])
    ensures Redact(lex, t) == t[..n] + Redact(lex, t[n..])
    decreases n
  {
    if n == 0 {
      assert t[0..] == t;
    } else {
      assert t[0..] == t;
      PlainFirst(lex, t);
      PlainTail(lex, t, n);
      PlainStays(lex, t[1..], n - 1);
      Shift(t, n, Redact(lex, t[n..]));
    }
  }

  /** A text in which no name and sign stand before a value comes back unchanged. */
  lemma NothingNamed(lex: Lex, s: string)
    requires Sane(lex) && forall i: nat | i < |s| :: Plain(lex, s[i..])
    ensures Redact(lex, s) == s
  {
    PlainStays(lex, s, |s|);
    assert s[..|s|] == s;
  }

  /** In a redacted text, whatever stands after a name and a sign is "[REDACTED]", and then a blank or the end. */
  lemma NamedIsMark(lex: Lex, text: string, i: nat, k: nat, sign: nat, value: nat)
    requires Sane(lex) && i <= |Redact(lex, text)| && Named(lex, Redact(lex, text)[i..], k, sign, value)
    ensures var s := Redact(lex, text)[i..];
            && value + 10 <= |s| && s[value..value + 10] == "[REDACTED]"
            && (value + 10 < |s| ==> s[value + 10] in lex.ws)
  {
    RedactedAt(lex, text, i);
    NamedMatches(lex, Redact(lex, text)[i..], k, sign, value);
  }

  /** No text and the empty text give nothing; any other is redacted and cut to 180 characters. */
  lemma ScrubbedIs(lex: Lex, detail: Option<string>, secret: Option<string>)
    ensures Scrubbed(lex, detail, secret).None? <==> detail.None? || detail.value == ""
    ensures detail.Some? && detail.value != "" ==>
              var known := if secret.None? then detail.value else Redacted(detail.value, secret.value);
              var t := Redact(lex, known);
              Scrubbed(lex, detail, secret) == Some(t[..if |t| <= 180 then |t| else 180])
  {
    if detail.Some? {
      var t := Redact(lex, if secret.None? then detail.value else Redacted(detail.value, secret.value));
      assert t[..|t|] == t;
    }
  }
}
