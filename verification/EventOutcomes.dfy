/**
 * What each registration event and each notification leaves in the event loop, message
 * by message: the texts are written out here and no clause names a parsing step.
 */
module EventOutcomes {
  import opened Wrappers
  import opened Text
  import opened CallModel
  import opened EventModel
  import StatusText

  /** White space as isspace knows it: blank, tab, line feed, vertical tab, form feed, return. */
  const WHITE: string := " \t\n\U{0B}\U{0C}\r"

  const DIGITS: string := "0123456789"

  predicate AllWhite(s: string) {
    forall k | 0 <= k < |s| :: s[k] in WHITE
  }

  /** At most 159 characters fit the reason of a message. */
  function Cut(s: string): string {
    if |s| <= 159 then s else s[..159]
  }

  /** A status line: a number, a blank, more white space, and the rest of the text. */
  predicate Line(txt: string, code: nat, pad: string, rest: string) {
    && txt == StatusText.Decimal(code) + " " + (pad + rest)
    && AllWhite(pad) && (rest == "" || rest[0] !in WHITE)
  }

  /** Nothing but white space comes before a character that starts no number, or the end. */
  predicate Wordy(txt: string, pad: string, rest: string) {
    && txt == pad + rest && AllWhite(pad)
    && (rest == "" || (rest[0] !in WHITE && rest[0] !in DIGITS && rest[0] != '-' && rest[0] != '+'))
  }

  /**
   * The code and reason in the text of an event: those of a status line whose number is
   * 1 to 999; 999 and the text itself without such a number; 0 and nothing without text.
   */
  ghost predicate Carries(txt: string, code: nat, reason: string) {
    || (txt == "" && code == 0 && reason == "")
    || (1 <= code <= 999 && exists pad, rest :: Line(txt, code, pad, rest) && reason == Cut(rest))
    || (code == 999 && reason == Cut(txt)
        && ((txt != "" && exists pad, rest :: Wordy(txt, pad, rest))
            || exists n: nat, pad, rest :: (n == 0 || n > 999) && Line(txt, n, pad, rest)))
  }

  /** The numbers of a SIP response are written with their three digits. */
  lemma ThreeDigits(n: nat)
    requires 100 <= n <= 999
    ensures StatusText.Decimal(n) == [DIGITS[n / 100], DIGITS[n / 10 % 10], DIGITS[n % 10]]
  {
    DigitIs(n / 100);
    DigitIs(n / 10 % 10);
    DigitIs(n % 10);
    var tens := n / 10;
    assert tens / 10 == n / 100;
    assert StatusText.Decimal(n / 100) == [DIGITS[n / 100]];
    assert StatusText.Decimal(tens) == StatusText.Decimal(tens / 10) + [DIGITS[tens % 10]];
    assert StatusText.Decimal(n) == StatusText.Decimal(tens) + [DIGITS[n % 10]];
  }

  lemma DigitIs(d: nat)
    requires d < 10
    ensures '0' + d as char == DIGITS[d]
  {
    assert DIGITS == ['0', '1', '2', '3', '4', '5', '6', '7', '8', '9'];
  }

  lemma WhiteIs(c: char)
    ensures StatusText.IsSpace(c) <==> c in WHITE
    ensures StatusText.IsDigit(c) <==> c in DIGITS
  {
    assert WHITE == [' ', '\t', '\n', '\U{0B}', '\U{0C}', '\r'];
    assert DIGITS == ['0', '1', '2', '3', '4', '5', '6', '7', '8', '9'];
  }

  lemma {:induction false} SkipsWhite(pad: string, rest: string, p: nat)
    requires AllWhite(pad) && (rest == "" || rest[0] !in WHITE) && p <= |pad|
    ensures StatusText.SkipSpace(pad + rest, p) == |pad|
    decreases |pad| - p
  {
    if p < |pad| {
      WhiteIs(pad[p]);
      SkipsWhite(pad, rest, p + 1);
    } else if rest != "" {
      WhiteIs(rest[0]);
    }
  }

  lemma LineIs(txt: string, code: nat, pad: string, rest: string)
    requires Line(txt, code, pad, rest)
    ensures StatusText.Parse(txt) == if 1 <= code <= 999 then (code, Cut(rest)) else (999, Cut(txt))
  {
    StatusText.StatusLine(code, pad + rest);
    SkipsWhite(pad, rest, 0);
    assert (pad + rest)[|pad|..] == rest;
  }

  lemma WordyIs(txt: string, pad: string, rest: string)
    requires txt != "" && Wordy(txt, pad, rest)
    ensures StatusText.Parse(txt) == (999, Cut(txt))
  {
    SkipsWhite(pad, rest, 0);
    if rest != "" {
      WhiteIs(rest[0]);
      assert txt[|pad|] == rest[0];
    }
    StatusText.NoNumber(txt);
  }

  lemma CarriesIs(txt: string, code: nat, reason: string)
    requires Carries(txt, code, reason)
    ensures StatusText.Parse(txt) == (code, reason)
  {
    if txt == "" && code == 0 && reason == "" {
    } else if 1 <= code <= 999 && exists pad, rest :: Line(txt, code, pad, rest) && reason == Cut(rest) {
      var pad, rest :| Line(txt, code, pad, rest) && reason == Cut(rest);
      LineIs(txt, code, pad, rest);
    } else if txt != "" && exists pad, rest :: Wordy(txt, pad, rest) {
      var pad, rest :| Wordy(txt, pad, rest);
      WordyIs(txt, pad, rest);
    } else {
      var n: nat, pad, rest :| (n == 0 || n > 999) && Line(txt, n, pad, rest);
      LineIs(txt, n, pad, rest);
    }
  }

  // ---- registration events ---------------------------------------------------------------

  /** An event of a user agent that is not ours. */
  predicate Foreign(l: Loop, from: Option<nat>) {
    l.ua.Some? && from.Some? && from.value != l.ua.value
  }

  /** The loop after `state` was set and, unless shutting down, one message with it queued. */
  predicate Says(l: Loop, r: Loop, state: RegState, code: nat, reason: string) {
    && r.reg == state && !r.pending && r.applied == l.applied + 1
    && (if l.shutting then r.queue == l.queue && r.made == l.made
        else r.queue == l.queue + [Payload(l.made, RegMsg(state, code, reason))] && r.made == l.made + 1)
    && r.shutting == l.shutting && r.cancelled == l.cancelled && r.ua == l.ua && r.delivered == l.delivered
  }

  /** REGISTER_FAIL reports the code and reason of its text. */
  lemma FailTells(l: Loop, from: Option<nat>, txt: string, code: nat, reason: string)
    requires !Foreign(l, from) && Carries(txt, code, reason)
    ensures Says(l, OnRegEvent(l, from, EvRegisterFail, txt),
                 RegFailed, code, if reason == "" then "register failed" else reason)
  {
    CarriesIs(txt, code, reason);
    StatusText.CodeRange(txt);
  }

  /** REGISTER_OK does too; it means UNREGISTERED after an unregister, and REGISTERED otherwise. */
  lemma OkTells(l: Loop, from: Option<nat>, txt: string, code: nat, reason: string)
    requires !Foreign(l, from) && Carries(txt, code, reason)
    ensures Says(l, OnRegEvent(l, from, EvRegisterOk, txt),
                 if l.pending then Unregistered else Registered, code, if reason == "" then "OK" else reason)
  {
    CarriesIs(txt, code, reason);
    StatusText.CodeRange(txt);
  }

  /** REGISTERING is told once; UNREGISTERING always; neither has a code or a reason. */
  lemma ProgressTells(l: Loop, from: Option<nat>, txt: string)
    requires !Foreign(l, from)
    ensures l.reg == Registering ==> OnRegEvent(l, from, EvRegistering, txt) == l
    ensures l.reg != Registering ==> Says(l, OnRegEvent(l, from, EvRegistering, txt), Registering, 0, "")
    ensures Says(l, OnRegEvent(l, from, EvUnregistering, txt), Unregistered, 0, "")
  {
  }

  lemma ForeignIsIgnored(l: Loop, from: Option<nat>, ev: RegEvent, txt: string)
    requires Foreign(l, from)
    ensures OnRegEvent(l, from, ev, txt) == l
  {
  }

  // ---- notifications ------------------------------------------------------------------------

  /** Registering and a refused registration, as the application's own calls announce them. */
  lemma NotifyTells(l: Loop, note: Note)
    requires !l.shutting
    ensures Says(l, NotifyRegistering(l), Registering, 0, "")
    ensures Says(l, NotifyRejected(l), RegFailed, 0, "register rejected")
    ensures NotifyCall(l, note) == l.(queue := l.queue + [Payload(l.made, CallMsg(note))], made := l.made + 1)
  {
  }

  /** The loop hands over its oldest message and stops at SHUTDOWN; a stop is queued last. */
  lemma DeliverIs(l: Loop)
    requires l.queue != [] && !l.cancelled
    ensures var r := Deliver(l);
            && r.queue == l.queue[1..] && r.delivered == l.delivered + [l.queue[0]]
            && r.cancelled == (l.queue[0] == Shutdown) && r.shutting == (l.shutting || l.queue[0] == Shutdown)
            && r.reg == l.reg && r.pending == l.pending && r.ua == l.ua && r.made == l.made
            && r.applied == l.applied
    ensures RequestStop(l) == l.(ua := None, queue := l.queue + [Shutdown])
  {
  }
}
