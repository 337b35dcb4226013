/**
 * The configuration texts of cpp/src/omnix_account.c and of the codec layers above it,
 * written out: bounds, separators, fixed strings and error codes as literals.
 */
module ConfigOutcomes {
  import opened Wrappers
  import opened Text
  import Address
  import opened CodecFilter
  import opened CodecLayers

  // ---- the address -------------------------------------------------------------------

  /** Without a server name, or without a host in it, there is EINVAL. */
  lemma NoHost(scheme: string, slashes: string, rest: string, size: nat)
    requires scheme in {"", "sip:", "sips:"} && slashes in {"", "//"}
    requires rest == "" || rest[0] == ':' || (rest[0] == '[' && ']' !in rest)
    ensures Address.Host(None, size) == Failure(Address.EINVAL)
    ensures Address.Host(Some(scheme + slashes + rest), size) == Failure(Address.EINVAL)
  {
    var s, p := scheme + slashes + rest, |scheme + slashes|;
    if rest != "" { assert "//"[0] == '/' && "sip:"[0] == 's' && "sips:"[0] == 's'; }
    Address.HostStarts(scheme, slashes, rest);
    assert s[p..] == rest;
    if rest != "" { assert s[p] == rest[0]; }
  }

  /**
   * sip_user with an '@' is a user of 1 to 127 characters and a domain of 1 to 255;
   * without one it is a user of 1 to 127, and the domain comes from sip_server.
   */
  lemma UserDomainIs(config: Address.Config, user: string, domain: string)
    requires '@' !in user
    ensures config.sipUser == None || config.sipUser == Some("") ==>
              Address.UserDomain(config) == Failure(Address.EINVAL)
    ensures config.sipUser == Some(user + "@" + domain) ==>
              Address.UserDomain(config) == if 1 <= |user| <= 127 && 1 <= |domain| <= 255 then Success((user, domain))
                                            else Failure(Address.EINVAL)
    ensures config.sipUser == Some(user) && user != "" ==>
              Address.UserDomain(config) ==
              var host := Address.Host(config.sipServer, 256);
              if |user| > 127 || host.Failure? then Failure(Address.EINVAL) else Success((user, host.value))
  {
    if config.sipUser == Some(user + "@" + domain) { Address.UserDomainRoundTrip(config, user, domain); }
    if config.sipUser == Some(user) { Address.NoIndex(user, 0, '@'); }
  }

  /** The address, in full: a quoted name if there is one, the two parts, and the transport. */
  function Written(name: Option<string>, user: string, domain: string): string {
    if name == None || name == Some("") then "<sip:" + user + "@" + domain + ";transport=tls>"
    else "\"" + name.value + "\" <sip:" + user + "@" + domain + ";transport=tls>"
  }

  /** ENOMEM from 512 characters on, EPROTO for "auth_pass" or the password in it, else the address. */
  lemma AddressIs(config: Address.Config, user: string, domain: string)
    requires Address.UserDomain(config) == Success((user, domain))
    ensures var aor := Written(config.displayName, user, domain);
            Address.Aor(config) ==
            if |aor| >= 512 then Failure(Address.ENOMEM)
            else if Contains(aor, "auth_pass") then Failure(Address.EPROTO)
            else if config.sipPassword.Some? && config.sipPassword.value != ""
                    && Contains(aor, config.sipPassword.value) then Failure(Address.EPROTO)
            else Success(aor)
  {
    var tail := user + "@" + domain + ";transport=tls>";
    assert "" + "<sip:" == "<sip:";
    if config.displayName.Some? {
      var name := config.displayName.value;
      assert "\"" + name + "\" " + "<sip:" == "\"" + name + "\" <sip:";
    }
    assert Address.Printed(config.displayName, user, domain) == Written(config.displayName, user, domain);
  }

  /** Without both parts there is no address, and the error is theirs. */
  lemma NoAddress(config: Address.Config)
    requires Address.UserDomain(config).Failure?
    ensures Address.Aor(config) == Failure(Address.EINVAL)
  {
  }

  // ---- the codec filter -------------------------------------------------------------------

  const SEPARATORS: string := " \t,"

  predicate Separating(s: string) {
    forall k | 0 <= k < |s| :: s[k] in SEPARATORS
  }

  /** 1 to 63 characters without a separator. */
  predicate Word(t: string) {
    1 <= |t| <= 63 && forall k | 0 <= k < |t| :: t[k] !in SEPARATORS
  }

  lemma SeparatorIs(c: char)
    ensures IsSeparator(c) <==> c in SEPARATORS
  {
    assert SEPARATORS == [' ', '\t', ','];
  }

  lemma AllSeparate(s: string, n: nat)
    requires n <= |s| && Separating(s[..n])
    ensures forall k | 0 <= k < n :: IsSeparator(s[k])
  {
    forall k | 0 <= k < n ensures IsSeparator(s[k]) {
      assert s[..n][k] == s[k];
      SeparatorIs(s[k]);
    }
  }

  lemma GapIs(gap: string, rest: string)
    requires Separating(gap)
    ensures Tokens(gap + rest, 0) == Tokens(rest, 0)
  {
    assert (gap + rest)[..|gap|] == gap;
    AllSeparate(gap + rest, |gap|);
    TokensSkip(gap + rest, 0, |gap|);
    TokensInTail(gap, rest, 0);
  }

  /** How the tokenizer reads: separators are dropped, and a word ends at a separator or after 63 characters. */
  lemma TokensAre(gap: string, word: string, rest: string)
    requires Separating(gap) && Word(word) && (rest == "" || |word| == 63 || rest[0] in SEPARATORS)
    ensures Tokens(gap, 0) == []
    ensures Tokens(gap + word + rest, 0) == [word] + Tokens(rest, 0)
  {
    GapIs(gap, "");
    assert gap + "" == gap;
    GapIs(gap, word + rest);
    assert gap + word + rest == gap + (word + rest);
    WordFirst(word, rest);
  }

  lemma WordFirst(word: string, rest: string)
    requires Word(word) && (rest == "" || |word| == 63 || rest[0] in SEPARATORS)
    ensures Tokens(word + rest, 0) == [word] + Tokens(rest, 0)
  {
    var s := word + rest;
    forall k | 0 <= k < |word| ensures !IsSeparator(s[k]) { SeparatorIs(word[k]); }
    if rest != "" { SeparatorIs(rest[0]); }
    WordEnds(s, 0, |word|, 63);
    assert s[0..|word|] == word;
    TokensInTail(word, rest, 0);
  }

  lemma {:induction false} WordEnds(s: string, p: nat, e: nat, room: nat)
    requires p <= e <= |s| && e - p <= room && forall k | p <= k < e :: !IsSeparator(s[k])
    requires e == |s| || e == p + room || IsSeparator(s[e])
    ensures TokenEnd(s, p, room) == e
    decreases e - p
  {
    if p < e { WordEnds(s, p + 1, e, room - 1); }
  }

  /** What is kept of a list, and how it is joined, list by list. */
  lemma KeptAre(a: seq<string>, b: seq<string>, t: string, known: Table)
    ensures Kept([], known) == [] && Kept([t], known) == if known(t) then [t] else []
    ensures Kept(a + b, known) == Kept(a, known) + Kept(b, known)
    ensures Join([t]) == t && (a != [] && b != [] ==> Join(a + b) == Join(a) + "," + Join(b))
  {
    KeptAppend(a, b, known);
    if a != [] && b != [] { JoinAppend(a, b); }
    assert [t][..0] == [];
  }

  /** The account is given the kept tokens of its text, or of the three defaults; 256 characters are too many. */
  lemma FilteredIs(cfg: Option<string>, known: Table)
    ensures var src := if cfg == None || cfg == Some("") then "opus,pcmu,pcma" else cfg.value;
            var kept := Kept(Tokens(src, 0), known);
            && (Filtered(cfg, known) == None <==> |src| > 255 || kept == [] || |Join(kept)| > 255)
            && (Filtered(cfg, known).Some? ==> Filtered(cfg, known).value == Join(kept))
  {
  }

  /** A run without separators is cut every 63 characters. */
  lemma {:induction false} CommasAre(n: nat)
    ensures Commas(n) == if n == 0 then 0 else (n - 1) / 63
    decreases n
  {
    if n >= 64 { CommasAre(n - 63); }
  }

  // ---- the layers above ----------------------------------------------------------------------

  /** The three supported names, in the order of the default. */
  lemma CodecsAre(v: string)
    ensures IsCodec(v) <==> v in {"opus", "pcmu", "pcma"}
    ensures FALLBACK == ["opus", "pcmu", "pcma"] && Normalized(["opus", "pcmu", "pcma"]) == ["opus", "pcmu", "pcma"]
    ensures ReadCodecs(None) == ["opus", "pcmu", "pcma"] == ReadCodecs(Some(""))
    ensures CodecsCsv([]) == "opus,pcmu,pcma"
  {
    var all := ["opus", "pcmu", "pcma"];
    assert all[..2] == ["opus", "pcmu"] && all[..2][..1] == ["opus"] && all[..1][..0] == [];
    assert OPUS[0] == 'o' && PCMU[3] == 'u' && PCMA[3] == 'a';
    assert Normalized(["opus"]) == ["opus"];
    assert Normalized(["opus", "pcmu"]) == ["opus", "pcmu"];
  }

  /** Trimming takes blanks and tabs off both ends, and nothing else. */
  lemma {:induction false} TrimIs(before: string, text: string, after: string)
    requires forall k | 0 <= k < |before| :: before[k] in " \t"
    requires forall k | 0 <= k < |after| :: after[k] in " \t"
    requires text != "" ==> text[0] !in " \t" && text[|text| - 1] !in " \t"
    ensures Trim(before + text + after) == text
    decreases |before| + |after|
  {
    var s := before + text + after;
    assert " \t" == [' ', '\t'];
    if before != "" {
      assert s[0] == before[0] && s[1..] == before[1..] + text + after;
      TrimIs(before[1..], text, after);
    } else if after != "" {
      if text == "" {
        assert s == after && s[1..] == "" + "" + after[1..];
        TrimIs("", "", after[1..]);
      } else {
        var n := |after| - 1;
        assert s[0] == text[0] && s[|s| - 1] == after[n] && s[..|s| - 1] == before + text + after[..n];
        TrimIs(before, text, after[..n]);
      }
    } else {
      assert s == text;
    }
  }
}
