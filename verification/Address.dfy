/**
 * The account address built by cpp/src/omnix_account.c: the host named by sip_server,
 * the user and domain of sip_user, and the address of record made of them.
 */
module Address {
  import opened Wrappers
  import opened Text
  import Redaction

  datatype Errno = EINVAL | ENOMEM | EPROTO

  /** The configured texts the address is made of; None is a null pointer. */
  datatype Config = Config(sipServer: Option<string>, sipUser: Option<string>,
                           displayName: Option<string>, sipPassword: Option<string>)

  const USER_MAX: nat := 128
  const HOST_MAX: nat := 256
  const AOR_MAX: nat := 512

  const OPENING: string := "<sip:"
  const CLOSING: string := ";transport=tls>"
  const LEAK: string := "auth_pass"

  predicate Given(text: Option<string>) {
    text.Some? && text.value != ""
  }

  // ---- the host in a server name ----------------------------------------------------

  function HostStart(s: string): (p: nat)
    ensures p <= |s|
  {
    var p := if At(s, 0, "sips:") then 5 else if At(s, 0, "sip:") then 4 else 0;
    if At(s, p, "//") then p + 2 else p
  }

  /** Where the host that starts at `p` ends; None for a bracket that does not close. */
  function HostEnd(s: string, p: nat): (r: Option<nat>)
    requires p <= |s|
    ensures r.Some? ==> p <= r.value <= |s|
  {
    if p < |s| && s[p] == '[' then
      var close := IndexFrom(s, p, ']');
      if close.None? then None else Some(close.value + 1)
    else
      var colon := IndexFrom(s, p, ':');
      Some(if colon.None? then |s| else colon.value)
  }

  function Host(server: Option<string>, size: nat): Result<string, Errno> {
    if !Given(server) then Failure(EINVAL)
    else
      var s := server.value;
      var p := HostStart(s);
      var end := HostEnd(s, p);
      if end.None? || end.value == p || end.value - p >= size then Failure(EINVAL)
      else Success(s[p..end.value])
  }

  // ---- user and domain --------------------------------------------------------------

  function UserDomain(config: Config): Result<(string, string), Errno> {
    if !Given(config.sipUser) then Failure(EINVAL)
    else
      var s := config.sipUser.value;
      var at := IndexFrom(s, 0, '@');
      if at.None? then
        if |s| >= USER_MAX then Failure(EINVAL)
        else
          var host := Host(config.sipServer, HOST_MAX);
          if host.Failure? then Failure(host.error) else Success((s, host.value))
      else
        var user, domain := s[..at.value], s[at.value + 1..];
        if 0 < |user| < USER_MAX && 0 < |domain| < HOST_MAX then Success((user, domain))
        else Failure(EINVAL)
  }

  // ---- the address ------------------------------------------------------------------

  function Printed(displayName: Option<string>, user: string, domain: string): string {
    (if Given(displayName) then "\"" + displayName.value + "\" " else "")
    + OPENING + user + "@" + domain + CLOSING
  }

  function Aor(config: Config): Result<string, Errno> {
    var parts := UserDomain(config);
    if parts.Failure? then Failure(parts.error)
    else
      var aor := Printed(config.displayName, parts.value.0, parts.value.1);
      if |aor| >= AOR_MAX then Failure(ENOMEM)
      else if Contains(aor, LEAK) then Failure(EPROTO)
      else if Given(config.sipPassword) && Contains(aor, config.sipPassword.value) then Failure(EPROTO)
      else Success(aor)
  }

  // ---- the C functions, which fill the caller's buffers ----------------------------

  /** A C string ends at its terminator and holds no other. */
  predicate Terminated(text: Option<string>) {
    text.Some? ==> '\0' !in text.value
  }

  /** `buf` holds the C string `text`. */
  predicate Reads(buf: array<char>, text: string)
    reads buf
  {
    |text| < buf.Length && buf[..|text|] == text && buf[|text|] == '\0'
  }

  /** memcpy and the terminator after it. */
  method Store(buf: array<char>, text: string)
    requires |text| < buf.Length
    modifies buf
    ensures Reads(buf, text)
  {
    Redaction.Put(buf, 0, text);
    buf[|text|] := '\0';
  }

  /** The pointer past the scheme and the slashes. */
  method SkipScheme(s: string) returns (p: nat)
    ensures p == HostStart(s)
  {
    p := 0;
    if At(s, p, "sips:") {
      p := p + 5;
    } else if At(s, p, "sip:") {
      p := p + 4;
    }
    if At(s, p, "//") {
      p := p + 2;
    }
  }

  method SipHostFromServer(server: Option<string>, host: array<char>) returns (err: Option<Errno>)
    modifies host
    ensures match Host(server, host.Length)
            case Success(name) => err == None && Reads(host, name)
            case Failure(e) => err == Some(e) && host[..] == old(host[..])
  {
    if !Given(server) || host.Length == 0 {
      return Some(EINVAL);
    }
    var s := server.value;
    var p := SkipScheme(s);
    var len: nat;
    if p < |s| && s[p] == '[' {
      var end := IndexFrom(s, p, ']');
      if end.None? {
        return Some(EINVAL);
      }
      len := end.value - p + 1;
    } else {
      var end := IndexFrom(s, p, ':');
      len := if end.Some? then end.value - p else |s| - p;
    }
    if len == 0 || len >= host.Length {
      return Some(EINVAL);
    }
    Store(host, s[p..p + len]);
    err := None;
  }

  method ParseUserDomain(config: Config, user: array<char>, domain: array<char>)
    returns (err: Option<Errno>)
    requires user != domain && user.Length == USER_MAX && domain.Length == HOST_MAX
    modifies user, domain
    ensures match UserDomain(config)
            case Success(parts) => err == None && Reads(user, parts.0) && Reads(domain, parts.1)
            case Failure(e) => err == Some(e)
  {
    if !Given(config.sipUser) {
      return Some(EINVAL);
    }
    var s := config.sipUser.value;
    var at := IndexFrom(s, 0, '@');
    if at.Some? {
      var ulen, dlen := at.value, |s| - at.value - 1;
      if ulen == 0 || ulen >= user.Length || dlen == 0 || dlen >= domain.Length {
        return Some(EINVAL);
      }
      Store(user, s[..ulen]);
      Store(domain, s[at.value + 1..]);
      return None;
    }
    if |s| >= user.Length {
      return Some(EINVAL);
    }
    Store(user, s);
    err := SipHostFromServer(config.sipServer, domain);
  }

  /** The text up to the terminator. */
  method CString(buf: array<char>, ghost text: string) returns (s: string)
    requires Reads(buf, text) && '\0' !in text
    ensures s == text
  {
    var n := 0;
    while buf[n] != '\0'
      invariant n <= |text|
      decreases |text| - n
    {
      assert n < |text| ==> buf[n] == text[n];
      n := n + 1;
    }
    s := buf[..n];
  }

  method BuildAor(config: Config, aor: array<char>) returns (err: Option<Errno>)
    requires aor.Length == AOR_MAX && Terminated(config.sipUser) && Terminated(config.sipServer)
    modifies aor
    ensures match Aor(config)
            case Success(text) => err == None && Reads(aor, text)
            case Failure(e) => err == Some(e)
  {
    var user, domain := new char[USER_MAX], new char[HOST_MAX];
    err := ParseUserDomain(config, user, domain);
    if err.Some? {
      return;
    }
    ghost var parts := UserDomain(config).value;
    var u := CString(user, parts.0);
    var d := CString(domain, parts.1);
    var text := Printed(config.displayName, u, d);
    if |text| >= aor.Length {
      return Some(ENOMEM);
    }
    Store(aor, text);
    if Contains(text, LEAK) || (Given(config.sipPassword) && Contains(text, config.sipPassword.value)) {
      return Some(EPROTO);
    }
    err := None;
  }

  // ---- the host is the host --------------------------------------------------------

  /** A host as sip_server may write it: a name, or an IPv6 reference in brackets. */
  predicate IsHost(host: string) {
    && host != ""
    && if host[0] == '[' then IndexFrom(host, 0, ']') == Some(|host| - 1) else ':' !in host
  }

  predicate IsPort(port: string) {
    port == "" || (|port| > 1 && port[0] == ':' && forall k | 0 < k < |port| :: '0' <= port[k] <= '9')
  }

  lemma {:induction false} IndexOf(s: string, from: nat, at: nat)
    requires from <= at < |s| && forall k | from <= k < at :: s[k] != s[at]
    ensures IndexFrom(s, from, s[at]) == Some(at)
    decreases at - from
  {
    if from < at { IndexOf(s, from + 1, at); }
  }

  lemma {:induction false} NoIndex(s: string, from: nat, c: char)
    requires from <= |s| && forall k | from <= k < |s| :: s[k] != c
    ensures IndexFrom(s, from, c) == None
    decreases |s| - from
  {
    if from < |s| { NoIndex(s, from + 1, c); }
  }

  lemma HostEnds(before: string, host: string, port: string)
    requires IsHost(host) && IsPort(port)
    ensures HostEnd(before + host + port, |before|) == Some(|before + host|)
  {
    var s, p, q := before + host + port, |before|, |before + host|;
    assert s[p..q] == host && s[q..] == port;
    assert forall k | p <= k < q :: s[k] == host[k - p];
    if host[0] == '[' {
      IndexOf(s, p, q - 1);
    } else if port == "" {
      NoIndex(s, p, ':');
    } else {
      IndexOf(s, p, q);
    }
  }

  lemma AtIsPrefix(s: string, p: nat, part: string)
    requires p <= |s|
    ensures At(s, p, part) <==> part <= s[p..]
  {
    if p + |part| <= |s| { assert s[p..][..|part|] == s[p..p + |part|]; }
  }

  lemma HostStarts(scheme: string, slashes: string, rest: string)
    requires scheme in {"", "sip:", "sips:"} && slashes in {"", "//"}
    requires slashes == "" ==> !("//" <= rest)
    requires scheme == "" && slashes == "" ==> !("sip:" <= rest) && !("sips:" <= rest)
    ensures HostStart(scheme + slashes + rest) == |scheme + slashes|
  {
    var s := scheme + slashes + rest;
    assert s[0..] == s && s[|scheme|..] == slashes + rest;
    assert slashes == "" ==> slashes + rest == rest;
    AtIsPrefix(s, 0, "sips:");
    AtIsPrefix(s, 0, "sip:");
    AtIsPrefix(s, |scheme|, "//");
    assert scheme <= s;
    if scheme == "" {
      assert s == slashes + rest;
      assert slashes == "//" ==> s[0] == '/';
    } else {
      assert s[3] == scheme[3];
    }
  }

  function Lower(c: char): char {
    if 'A' <= c <= 'Z' then (c as int - 'A' as int + 'a' as int) as char else c
  }

  /** Schemes are the same in upper and lower case (RFC 3986, section 3.1). */
  predicate Spells(scheme: string, lower: string) {
    |scheme| == |lower| && forall k | 0 <= k < |scheme| :: Lower(scheme[k]) == lower[k]
  }

  predicate IsScheme(scheme: string) {
    scheme == "" || Spells(scheme, "sip:") || Spells(scheme, "sips:")
  }

  /** What the code takes off: schemes in lower case. */
  predicate IsStripped(scheme: string) {
    scheme in {"", "sip:", "sips:"}
  }

  /** A name that a port makes look like a scheme: "sip:5060" names no scheme. */
  predicate LooksLikeScheme(scheme: string, slashes: string, host: string, port: string) {
    scheme == "" && slashes == "" && host in {"sip", "sips"} && port != ""
  }

  /** The other way round, a scheme that is not taken off looks like the name of a host. */
  predicate LooksLikeHost(scheme: string, host: string) {
    !IsStripped(scheme) && scheme != host + ":"
  }

  lemma SchemeOfName(name: string, host: string, port: string)
    requires name in {"sip", "sips"} && IsHost(host) && IsPort(port) && name + ":" <= host + port
    ensures host == name && port != ""
  {
    var s, k := host + port, |name|;
    assert s[..k + 1] == name + ":";
    assert s[k] == ':' && s[0] == 's';
    assert forall j | 0 <= j < |host| :: s[j] == host[j];
    assert forall j | |host| <= j < |s| :: s[j] == port[j - |host|];
    assert |host| == k;
    assert host == s[..k] == name;
  }

  lemma SlashesOfHost(host: string, port: string)
    requires IsHost(host) && IsPort(port) && "//" <= host + port
    ensures "//" <= host
  {
    var s := host + port;
    assert s[1] == "//"[1];
    assert forall j | |host| <= j < |s| :: s[j] == port[j - |host|];
    assert host == s[..|host|];
  }

  /** The port of such a name is then taken for the host. */
  lemma PortForHost(host: string, port: string)
    requires host in {"sip", "sips"} && IsPort(port) && port != ""
    ensures Host(Some(host + port), HOST_MAX) ==
            if |port| - 1 < HOST_MAX then Success(port[1..]) else Failure(EINVAL)
  {
    var s, digits := host + port, port[1..];
    var scheme := host + ":";
    assert s == scheme + "" + digits;
    assert scheme == if host == "sip" then "sip:" else "sips:";
    assert digits[0] == port[1] && "//"[0] == '/';
    HostStarts(scheme, "", digits);
    assert forall k | 0 <= k < |digits| :: digits[k] == port[k + 1];
    HostEnds(scheme, digits, "");
    assert s == scheme + digits + "";
    assert s[|scheme|..|scheme + digits|] == digits;
  }

  lemma HostOfParts(scheme: string, slashes: string, host: string, port: string)
    requires IsHost(host) && IsPort(port)
    requires HostStart(scheme + slashes + (host + port)) == |scheme + slashes|
    ensures Host(Some(scheme + slashes + host + port), HOST_MAX) ==
            if |host| < HOST_MAX then Success(host) else Failure(EINVAL)
  {
    var s := scheme + slashes + host + port;
    assert s == scheme + slashes + (host + port);
    HostEnds(scheme + slashes, host, port);
    assert s[|scheme + slashes|..|scheme + slashes + host|] == host;
  }

  lemma StrippedHost(scheme: string, slashes: string, host: string, port: string)
    requires IsStripped(scheme) && slashes in {"", "//"} && IsHost(host) && IsPort(port)
    requires slashes == "" ==> !("//" <= host)
    ensures Host(Some(scheme + slashes + host + port), HOST_MAX) ==
              (if |host| < HOST_MAX then Success(host) else Failure(EINVAL))
            <==> !LooksLikeScheme(scheme, slashes, host, port)
  {
    if LooksLikeScheme(scheme, slashes, host, port) {
      assert scheme + slashes + host + port == host + port;
      PortForHost(host, port);
    } else {
      if scheme == "" && slashes == "" {
        if "sip:" <= host + port { SchemeOfName("sip", host, port); }
        if "sips:" <= host + port { SchemeOfName("sips", host, port); }
      }
      if "//" <= host + port { SlashesOfHost(host, port); }
      HostStarts(scheme, slashes, host + port);
      HostOfParts(scheme, slashes, host, port);
    }
  }

  /** The characters of a scheme are letters up to its colon. */
  lemma SchemeIsName(scheme: string)
    requires IsScheme(scheme) && scheme != ""
    ensures var n := |scheme| - 1;
            && 2 < n < 5 && scheme[n] == ':' && scheme[0] != '[' && scheme[0] != '/'
            && forall k | 0 <= k < n :: scheme[k] != ':'
  {
    var n := |scheme| - 1;
    assert Lower(scheme[n]) == ':' && Lower(scheme[0]) == 's';
    assert Spells(scheme, "sip:") ==> n == 3 && Lower(scheme[1]) == 'i' && Lower(scheme[2]) == 'p';
    assert Spells(scheme, "sips:") ==>
        n == 4 && Lower(scheme[1]) == 'i' && Lower(scheme[2]) == 'p' && Lower(scheme[3]) == 's';
  }

  predicate OneColon(scheme: string) {
    scheme != "" && scheme[|scheme| - 1] == ':' && forall k | 0 <= k < |scheme| - 1 :: scheme[k] != ':'
  }

  lemma SameScheme(scheme: string, rest: string, other: string)
    requires OneColon(scheme) && OneColon(other)
    ensures other <= scheme + rest ==> scheme == other
  {
    var s := scheme + rest;
    if other <= s {
      assert forall k | 0 <= k < |scheme| :: s[k] == scheme[k];
      assert forall k | 0 <= k < |other| :: s[k] == other[k];
      assert s[|other| - 1] == ':' && s[|scheme| - 1] == ':';
      assert |scheme| == |other|;
      assert scheme == s[..|scheme|] == other;
    }
  }

  /** Nothing is taken off a text that starts with a scheme not in lower case. */
  lemma NotStripped(scheme: string, rest: string)
    requires IsScheme(scheme) && !IsStripped(scheme)
    ensures HostStart(scheme + rest) == 0
  {
    var s := scheme + rest;
    SchemeIsName(scheme);
    SameScheme(scheme, rest, "sips:");
    SameScheme(scheme, rest, "sip:");
    assert s[0..] == s && s[0] == scheme[0];
    AtIsPrefix(s, 0, "sips:");
    AtIsPrefix(s, 0, "sip:");
    AtIsPrefix(s, 0, "//");
    assert "//"[0] == '/';
  }

  /** Such a scheme gives its own name as the host, whatever follows. */
  lemma SchemeForHost(scheme: string, rest: string)
    requires IsScheme(scheme) && !IsStripped(scheme)
    ensures Host(Some(scheme + rest), HOST_MAX) == Success(scheme[..|scheme| - 1])
  {
    var s, n := scheme + rest, |scheme| - 1;
    SchemeIsName(scheme);
    NotStripped(scheme, rest);
    assert forall k | 0 <= k <= n :: s[k] == scheme[k];
    IndexOf(s, 0, n);
    assert s[0..n] == scheme[..n];
  }

  lemma UnstrippedHost(scheme: string, slashes: string, host: string, port: string)
    requires IsScheme(scheme) && !IsStripped(scheme)
    ensures Host(Some(scheme + slashes + host + port), HOST_MAX) ==
              (if |host| < HOST_MAX then Success(host) else Failure(EINVAL))
            <==> scheme == host + ":"
  {
    SchemeIsName(scheme);
    SchemeForHost(scheme, slashes + host + port);
    assert scheme + slashes + host + port == scheme + (slashes + host + port);
    NameOfScheme(scheme, host);
  }

  lemma NameOfScheme(scheme: string, host: string)
    requires scheme != "" && scheme[|scheme| - 1] == ':'
    ensures scheme[..|scheme| - 1] == host <==> scheme == host + ":"
  {
    assert scheme == scheme[..|scheme| - 1] + ":";
    assert (host + ":")[..|host|] == host;
  }

  /**
   * For sip_server as a scheme in any spelling, slashes, a host and a port, all but the
   * host optional: the host comes out, or EINVAL when it is too long, in all cases but two.
   * A bare host called "sip" or "sips" with a port is taken for a scheme, and a scheme not
   * in lower case for the host, which is right only when the host has that very name.
   */
  lemma HostIsExtracted(scheme: string, slashes: string, host: string, port: string)
    requires IsScheme(scheme) && slashes in {"", "//"} && IsHost(host) && IsPort(port)
    requires slashes == "" ==> !("//" <= host)
    ensures Host(Some(scheme + slashes + host + port), HOST_MAX) ==
              (if |host| < HOST_MAX then Success(host) else Failure(EINVAL))
            <==> !LooksLikeScheme(scheme, slashes, host, port) && !LooksLikeHost(scheme, host)
  {
    if IsStripped(scheme) {
      StrippedHost(scheme, slashes, host, port);
    } else {
      UnstrippedHost(scheme, slashes, host, port);
    }
  }

  // ---- user and domain -------------------------------------------------------------

  /** With an '@' the two parts give sip_user back; EINVAL exactly for parts out of bounds. */
  lemma UserDomainRoundTrip(config: Config, user: string, domain: string)
    requires '@' !in user && config.sipUser == Some(user + "@" + domain)
    ensures UserDomain(config) ==
            if 0 < |user| < USER_MAX && 0 < |domain| < HOST_MAX then Success((user, domain))
            else Failure(EINVAL)
  {
    var s := user + "@" + domain;
    IndexOf(s, 0, |user|);
    assert s[..|user|] == user && s[|user| + 1..] == domain;
  }

  /** Whatever is accepted: nothing of sip_user is lost, and the user has no '@'. */
  lemma UserDomainKeeps(config: Config)
    requires UserDomain(config).Success?
    ensures var (user, domain) := UserDomain(config).value;
            && 0 < |user| < USER_MAX && 0 < |domain| < HOST_MAX && '@' !in user
            && if '@' in config.sipUser.value then user + "@" + domain == config.sipUser.value
               else user == config.sipUser.value && Host(config.sipServer, HOST_MAX) == Success(domain)
  {
    var s := config.sipUser.value;
    var at := IndexFrom(s, 0, '@');
    if at.Some? {
      assert s[0..at.value] == s[..at.value];
      assert s[..at.value] + "@" + s[at.value + 1..] == s;
    } else {
      assert s[0..] == s;
    }
  }

  // ---- reading the address back ----------------------------------------------------

  /** Where a quoted string that goes on at `p` is closed; a backslash quotes what follows it. */
  function CloseQuote(s: string, p: nat): (r: Option<nat>)
    ensures r.Some? ==> p <= r.value < |s| && s[r.value] == '"'
    decreases |s| - p
  {
    if p >= |s| then None
    else if s[p] == '\\' then CloseQuote(s, p + 2)
    else if s[p] == '"' then Some(p)
    else CloseQuote(s, p + 1)
  }

  /** Where the user starts: after a quoted display name (RFC 3261, section 25.1), if there is one. */
  function UserStart(aor: string): Option<nat> {
    if At(aor, 0, "\"") then
      var quote := CloseQuote(aor, 1);
      if quote.Some? && At(aor, quote.value, "\" " + OPENING)
      then Some(quote.value + 2 + |OPENING|) else None
    else if At(aor, 0, OPENING) then Some(|OPENING|)
    else None
  }

  function ReadBack(aor: string): Option<(string, string)> {
    var start := UserStart(aor);
    if start.None? then None
    else
      var at := IndexFrom(aor, start.value, '@');
      var end := |aor| - |CLOSING|;
      if at.Some? && at.value < end && At(aor, end, CLOSING)
      then Some((aor[start.value..at.value], aor[at.value + 1..end])) else None
  }

  function Head(displayName: Option<string>): string {
    if Given(displayName) then "\"" + displayName.value + ("\" " + OPENING) else OPENING
  }

  lemma PrintedIs(displayName: Option<string>, user: string, domain: string)
    ensures Printed(displayName, user, domain) ==
            Head(displayName) + user + "@" + domain + CLOSING
    ensures Printed(displayName, user, domain) ==
            Head(displayName) + (user + "@" + domain + CLOSING)
  {
    assert "" + OPENING == OPENING;
    if Given(displayName) {
      var name := displayName.value;
      assert "\"" + name + "\" " + OPENING == "\"" + name + ("\" " + OPENING);
    }
  }

  /** The first '@' after the user's start splits the two, the closing is where it was put. */
  lemma SplitsAt(head: string, user: string, domain: string)
    requires '@' !in user
    ensures var s := head + user + "@" + domain + CLOSING;
            && IndexFrom(s, |head|, '@') == Some(|head + user|)
            && At(s, |s| - |CLOSING|, CLOSING)
            && s[|head|..|head + user|] == user
            && s[|head + user| + 1..|s| - |CLOSING|] == domain
  {
    var s := head + user + "@" + domain + CLOSING;
    assert forall k | |head| <= k < |head + user| :: s[k] == user[k - |head|];
    IndexOf(s, |head|, |head + user|);
  }

  lemma PlainStart(rest: string)
    ensures UserStart(OPENING + rest) == Some(|OPENING|)
  {
    var s := OPENING + rest;
    assert s[0..|OPENING|] == OPENING;
    assert OPENING[0] == '<' && s[0] == OPENING[0];
    assert s[0..1] == "<";
  }

  /** A text that can stand between quotes: every quote is escaped, and the last character escapes nothing. */
  predicate Closed(name: string) {
    name == "" ||
    if name[0] == '\\' then |name| > 1 && Closed(name[2..]) else name[0] != '"' && Closed(name[1..])
  }

  /** A quote closes the string exactly if the text before it can stand between quotes. */
  lemma {:induction false} ClosesAt(s: string, p: nat, q: nat)
    requires p <= q < |s| && s[q] == '"'
    ensures CloseQuote(s, p) == Some(q) <==> Closed(s[p..q])
    decreases q - p
  {
    if p < q {
      assert s[p..q][0] == s[p] && s[p..q][1..] == s[p + 1..q];
      if s[p] == '\\' {
        if p + 1 < q {
          assert s[p..q][2..] == s[p + 2..q];
          ClosesAt(s, p + 2, q);
        }
      } else if s[p] != '"' {
        ClosesAt(s, p + 1, q);
      }
    }
  }

  /** In a text that starts with a quote and has one at `q`, then space and the opening. */
  lemma StartAfter(s: string, q: nat)
    requires 0 < q < |s| && At(s, 0, "\"") && s[q] == '"' && At(s, q, "\" " + OPENING)
    ensures UserStart(s) == Some(q + 2 + |OPENING|) <==> Closed(s[1..q])
  {
    ClosesAt(s, 1, q);
  }

  lemma QuotedParts(name: string, after: string, rest: string)
    requires after != ""
    ensures var s := "\"" + name + after + rest; var q := |name| + 1;
            At(s, 0, "\"") && s[1..q] == name && At(s, q, after) && s[q] == after[0]
  {
    var s := "\"" + name + after + rest;
    assert s[0..1] == "\"";
  }

  /** The user starts after the name exactly if the name can stand between quotes. */
  lemma QuotedStart(name: string, rest: string)
    ensures UserStart("\"" + name + ("\" " + OPENING) + rest) == Some(|name| + 3 + |OPENING|) <==> Closed(name)
  {
    var after := "\" " + OPENING;
    QuotedParts(name, after, rest);
    StartAfter("\"" + name + after + rest, |name| + 1);
  }

  /** A display name is printed as it was meant to be read. */
  predicate NameCloses(displayName: Option<string>) {
    Given(displayName) ==> Closed(displayName.value)
  }

  lemma UserStarts(displayName: Option<string>, rest: string)
    ensures UserStart(Head(displayName) + rest) == Some(|Head(displayName)|) <==> NameCloses(displayName)
  {
    if Given(displayName) {
      QuotedStart(displayName.value, rest);
    } else {
      PlainStart(rest);
    }
  }

  /** Reading back gives the two parts exactly when it finds where the user starts. */
  lemma ReadBackFromStart(head: string, user: string, domain: string)
    requires '@' !in user
    ensures var s := head + user + "@" + domain + CLOSING;
            ReadBack(s) == Some((user, domain)) <==> UserStart(s) == Some(|head|)
  {
    var s := head + user + "@" + domain + CLOSING;
    SplitsAt(head, user, domain);
  }

  /**
   * User and domain can be read back from the address, by the rules for quoted strings,
   * exactly when every quote in the display name is escaped and its last character escapes
   * nothing: the code puts the name between quotes as it is.
   */
  lemma AddressReadsBack(displayName: Option<string>, user: string, domain: string)
    requires '@' !in user
    ensures ReadBack(Printed(displayName, user, domain)) == Some((user, domain)) <==> NameCloses(displayName)
  {
    PrintedIs(displayName, user, domain);
    ReadBackFromStart(Head(displayName), user, domain);
    UserStarts(displayName, user + "@" + domain + CLOSING);
  }

  /** A name that ends in a backslash escapes the closing quote. */
  lemma {:induction false} BackslashAtEnd(name: string)
    requires Closed(name)
    ensures !Closed(name + "\\")
    decreases |name|
  {
    var longer := name + "\\";
    if name != "" {
      var k := if name[0] == '\\' then 2 else 1;
      assert longer[k..] == name[k..] + "\\";
      BackslashAtEnd(name[k..]);
    }
  }

  /** A quote that is escaped is part of the name, one that is not ends it. */
  lemma {:induction false} QuoteInName(before: string, after: string)
    requires Closed(before)
    ensures Closed(before + "\\\"" + after) <==> Closed(after)
    ensures !Closed(before + "\"" + after)
    decreases |before|
  {
    var escaped, bare := before + "\\\"" + after, before + "\"" + after;
    if before == "" {
      assert escaped[2..] == after;
    } else {
      var k := if before[0] == '\\' then 2 else 1;
      assert escaped[k..] == before[k..] + "\\\"" + after;
      assert bare[k..] == before[k..] + "\"" + after;
      QuoteInName(before[k..], after);
    }
  }

  // ---- the stack's own reader ---------------------------------------------------------

  /** The characters that end an unquoted name in the pattern of the stack's address decoder. */
  predicate Stops(c: char) {
    c in {' ', '\t', '\r', '\n', '<'}
  }

  /**
   * How far the name part of that pattern reaches: quotes switch between quoted and not,
   * a backslash quotes what follows it, and unquoted it stops before white space and '<'.
   */
  function Reach(t: string, quoted: bool, escaped: bool): (n: nat)
    ensures n <= |t|
    decreases |t|
  {
    if t == "" then 0
    else if escaped then 1 + Reach(t[1..], quoted, false)
    else if t[0] == '\\' then 1 + Reach(t[1..], quoted, true)
    else if t[0] == '"' then 1 + Reach(t[1..], !quoted, false)
    else if quoted || !Stops(t[0]) then 1 + Reach(t[1..], quoted, false)
    else 0
  }

  /** The rest of a name that the pattern reads to its closing quote and no further. */
  predicate Passes(name: string, quoted: bool) {
    if name == "" then quoted
    else if name[0] == '\\' then (if |name| == 1 then !quoted else Passes(name[2..], quoted))
    else if name[0] == '"' then Passes(name[1..], !quoted)
    else (quoted || !Stops(name[0])) && Passes(name[1..], quoted)
  }

  lemma {:induction false} ReachOfName(name: string, rest: string, quoted: bool)
    ensures Reach(name + "\" " + rest, quoted, false) == |name| + 1 <==> Passes(name, quoted)
    decreases |name|
  {
    var t := name + "\" " + rest;
    if name == "" {
      assert t[0] == '"' && t[1..] == " " + rest;
      assert t[1..][0] == ' ';
    } else {
      assert t[0] == name[0] && t[1..] == name[1..] + "\" " + rest;
      if name[0] != '\\' {
        ReachOfName(name[1..], rest, if name[0] == '"' then !quoted else quoted);
      } else if |name| > 1 {
        assert t[1..][1..] == name[2..] + "\" " + rest;
        ReachOfName(name[2..], rest, quoted);
      } else {
        assert t[1..][1..] == " " + rest;
        assert t[1..][1..][0] == ' ';
      }
    }
  }

  lemma {:induction false} ClosedPasses(name: string)
    requires Closed(name)
    ensures Passes(name, true)
    decreases |name|
  {
    if name != "" { ClosedPasses(name[if name[0] == '\\' then 2 else 1..]); }
  }

  /**
   * The stack's decoder reaches the end of the printed name, and so the space and the '<'
   * after it, exactly for the names that pass; all that can stand between quotes do, and
   * some others, such as one with a second pair of quotes around a word.
   */
  lemma StackReadsName(name: string, rest: string)
    ensures Reach("\"" + name + "\" " + rest, false, false) == |name| + 2 <==> Passes(name, true)
    ensures Closed(name) ==> Passes(name, true)
  {
    var t := "\"" + name + "\" " + rest;
    assert t[0] == '"' && t[1..] == name + "\" " + rest;
    ReachOfName(name, rest, true);
    if Closed(name) { ClosedPasses(name); }
  }

  /** The 512 bytes hold every accepted user and domain exactly up to a 105-byte name. */
  lemma AddressFits(displayName: Option<string>)
    ensures (forall user: string, domain: string | |user| < USER_MAX && |domain| < HOST_MAX ::
               |Printed(displayName, user, domain)| < AOR_MAX)
            <==> (Given(displayName) ==> |displayName.value| <= 105)
  {
    if Given(displayName) && |displayName.value| > 105 {
      var user, domain := seq(USER_MAX - 1, _ => 'u'), seq(HOST_MAX - 1, _ => 'd');
      assert |Printed(displayName, user, domain)| >= AOR_MAX;
    }
  }

  /**
   * An accepted configuration gives an address that fits its buffer, shows neither
   * "auth_pass" nor the password, and names the configured user and domain.
   */
  lemma AddressIsSound(config: Config)
    requires Aor(config).Success?
    ensures var aor := Aor(config).value;
            && |aor| < AOR_MAX && !Contains(aor, LEAK)
            && (Given(config.sipPassword) ==> !Contains(aor, config.sipPassword.value))
            && UserDomain(config).Success?
            && (ReadBack(aor) == Some(UserDomain(config).value) <==> NameCloses(config.displayName))
  {
    UserDomainKeeps(config);
    var parts := UserDomain(config).value;
    AddressReadsBack(config.displayName, parts.0, parts.1);
  }
}
