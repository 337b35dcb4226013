/**
 * omnix_parse_reg_text of cpp/src/omnix_events.c: the SIP code and reason in the
 * text of a registration event ("200 OK", "401 Unauthorized", or an errno text).
 */
module StatusText {
  import opened Wrappers
  import opened Text

  const REASON_SIZE: nat := 160
  const NO_CODE: nat := 999

  /** isspace in the C locale. */
  predicate IsSpace(c: char) {
    c == ' ' || ('\t' <= c <= '\r')
  }

  predicate IsDigit(c: char) {
    '0' <= c <= '9'
  }

  function SkipSpace(s: string, p: nat): (q: nat)
    requires p <= |s|
    ensures p <= q <= |s|
    ensures q < |s| ==> !IsSpace(s[q])
    ensures forall k | p <= k < q :: IsSpace(s[k])
    decreases |s| - p
  {
    if p < |s| && IsSpace(s[p]) then SkipSpace(s, p + 1) else p
  }

  function SkipDigits(s: string, p: nat): (q: nat)
    requires p <= |s|
    ensures p <= q <= |s|
    ensures q < |s| ==> !IsDigit(s[q])
    ensures forall k | p <= k < q :: IsDigit(s[k])
    decreases |s| - p
  {
    if p < |s| && IsDigit(s[p]) then SkipDigits(s, p + 1) else p
  }

  /** The number written by a run of digits. */
  function Value(digits: string): nat
    requires forall k | 0 <= k < |digits| :: IsDigit(digits[k])
  {
    if digits == "" then 0
    else
      assert IsDigit(digits[|digits| - 1]);
      10 * Value(digits[..|digits| - 1]) + (digits[|digits| - 1] - '0') as nat
  }

  /**
   * strtol at a character that is not white space: the value and where it stopped,
   * which is `p` when there is no number. The value is not clamped to a long: a
   * number too large for one is outside 1..999 either way.
   */
  function StrToL(s: string, p: nat): (r: (int, nat))
    requires p <= |s|
    ensures p <= r.1 <= |s|
  {
    var signed := p < |s| && (s[p] == '-' || s[p] == '+');
    var from := if signed then p + 1 else p;
    var end := SkipDigits(s, from);
    if end == from then (0, p)
    else
      var magnitude: int := Value(s[from..end]);
      (if signed && s[p] == '-' then 0 - magnitude else magnitude, end)
  }

  function Parse(txt: string): (r: (nat, string)) {
    if txt == "" then (0, "")
    else
      var p := SkipSpace(txt, 0);
      var (code, end) := StrToL(txt, p);
      if end != p && 0 < code < 1000 then (code, Copy(txt[SkipSpace(txt, end)..], REASON_SIZE))
      else (NO_CODE, Copy(txt, REASON_SIZE))
  }

  /** The parser as written: a moving pointer and two out-parameters. */
  method ParseRegText(txt: Option<string>) returns (sipCode: nat, reason: string)
    ensures (sipCode, reason) == Parse(if txt.Some? then txt.value else "")
  {
    sipCode, reason := 0, "";
    if txt.None? || txt.value == "" { return; }
    var s := txt.value;
    var p := 0;
    while p < |s| && IsSpace(s[p])
      invariant p <= |s|
      invariant SkipSpace(s, p) == SkipSpace(s, 0)
    {
      p := p + 1;
    }
    var (code, end) := StrToL(s, p);
    if end != p && 0 < code < 1000 {
      sipCode := code;
      p := end;
      while p < |s| && IsSpace(s[p])
        invariant p <= |s|
        invariant SkipSpace(s, p) == SkipSpace(s, end)
      {
        p := p + 1;
      }
      reason := Copy(s[p..], REASON_SIZE);
      return;
    }
    sipCode, reason := NO_CODE, Copy(s, REASON_SIZE);
  }

  // ---- round trip -----------------------------------------------------------------

  function Decimal(n: nat): (r: string)
    ensures r != "" && forall k | 0 <= k < |r| :: IsDigit(r[k])
  {
    if n < 10 then ['0' + n as char] else Decimal(n / 10) + ['0' + (n % 10) as char]
  }

  lemma {:induction false} ValueOfDecimal(n: nat)
    ensures Value(Decimal(n)) == n
  {
    if n >= 10 {
      ValueOfDecimal(n / 10);
      assert Decimal(n)[..|Decimal(n)| - 1] == Decimal(n / 10);
    } else {
      assert Decimal(n)[..0] == "";
    }
  }

  lemma {:induction false} DigitsStop(s: string, p: nat, q: nat)
    requires p <= q <= |s| && (forall k | p <= k < q :: IsDigit(s[k]))
    requires q < |s| ==> !IsDigit(s[q])
    ensures SkipDigits(s, p) == q
    decreases q - p
  {
    if p < q { DigitsStop(s, p + 1, q); }
  }

  /** What a status line carries after its code: the reason without leading white space. */
  function TrimLeft(s: string): string {
    s[SkipSpace(s, 0)..]
  }

  lemma {:induction false} SkipInTail(front: string, s: string, p: nat)
    requires p <= |s|
    ensures SkipSpace(front + s, |front| + p) == |front| + SkipSpace(s, p)
    decreases |s| - p
  {
    if p < |s| && IsSpace(s[p]) { SkipInTail(front, s, p + 1); }
  }

  lemma CodeIsRead(code: nat, rest: string)
    requires rest != "" && IsSpace(rest[0])
    ensures var txt := Decimal(code) + rest;
            SkipSpace(txt, 0) == 0 && StrToL(txt, 0) == (code, |Decimal(code)|)
  {
    var d := Decimal(code);
    DigitsStop(d + rest, 0, |d|);
    assert (d + rest)[0..|d|] == d;
    ValueOfDecimal(code);
  }

  lemma DropFront(front: string, s: string, k: nat)
    requires k <= |s|
    ensures (front + s)[|front| + k..] == s[k..]
  {
  }

  lemma TailIsTrimmed(front: string, reason: string)
    requires front != "" && front[|front| - 1] == ' '
    ensures var txt := front + reason; txt[SkipSpace(txt, |front| - 1)..] == TrimLeft(reason)
  {
    SkipInTail(front, reason, 0);
    DropFront(front, reason, SkipSpace(reason, 0));
  }

  lemma ParseNumber(txt: string, code: nat, end: nat)
    requires txt != "" && SkipSpace(txt, 0) == 0 && StrToL(txt, 0) == (code, end)
    requires 0 < end <= |txt|
    ensures Parse(txt) == if 0 < code < 1000 then (code, Copy(txt[SkipSpace(txt, end)..], REASON_SIZE))
                          else (NO_CODE, Copy(txt, REASON_SIZE))
  {
    assert end != 0;
  }

  /**
   * Every number and every reason: a code 1..999 comes back with the reason, without
   * leading white space and cut to 159; any other number is 999 and the whole text.
   */
  lemma StatusLine(code: nat, reason: string)
    ensures var txt := Decimal(code) + " " + reason;
            Parse(txt) == if 0 < code < 1000 then (code, Copy(TrimLeft(reason), REASON_SIZE))
                          else (NO_CODE, Copy(txt, REASON_SIZE))
  {
    var front := Decimal(code) + " ";
    CodeIsRead(code, " " + reason);
    assert Decimal(code) + (" " + reason) == front + reason;
    TailIsTrimmed(front, reason);
    ParseNumber(front + reason, code, |Decimal(code)|);
  }

  /** A text without a number, such as an errno text, is 999 and the text itself. */
  lemma NoNumber(txt: string)
    requires txt != "" && var p := SkipSpace(txt, 0);
             p < |txt| ==> !IsDigit(txt[p]) && txt[p] != '-' && txt[p] != '+'
    ensures Parse(txt) == (NO_CODE, Copy(txt, REASON_SIZE))
  {
  }

  /** So the reason itself comes back exactly when it does not start with white space. */
  lemma StatusRoundTrip(code: nat, reason: string)
    requires 0 < code < 1000
    ensures Parse(Decimal(code) + " " + reason) == (code, Copy(reason, REASON_SIZE))
            <==> reason == "" || !IsSpace(reason[0])
  {
    StatusLine(code, reason);
    var trimmed := Copy(TrimLeft(reason), REASON_SIZE);
    if reason != "" && IsSpace(reason[0]) {
      assert trimmed != "" ==> !IsSpace(trimmed[0]);
      assert Copy(reason, REASON_SIZE)[0] == reason[0];
    } else {
      assert TrimLeft(reason) == reason;
    }
  }

  /** Any text at all: the code is at most 999, and 0 only for the empty text. */
  lemma CodeRange(txt: string)
    ensures Parse(txt).0 <= NO_CODE && |Parse(txt).1| < REASON_SIZE
    ensures Parse(txt).0 == 0 <==> txt == ""
  {
  }
}
