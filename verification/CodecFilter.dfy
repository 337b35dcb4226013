/** omnix_account_apply_codecs of cpp/src/omnix_account.c. */
module CodecFilter {
  import opened Wrappers
  import opened Text

  const CFG_MAX: nat := 256
  const TOKEN_MAX: nat := 64
  const DEFAULT_CODECS: string := "opus,pcmu,pcma"

  /** Which tokens name a registered codec: the "name/srate/ch" split and aucodec_find. */
  type Table = string -> bool

  predicate IsBlank(c: char) {
    c == ' ' || c == '\t'
  }

  predicate IsSeparator(c: char) {
    IsBlank(c) || c == ','
  }

  /** The first index at or after `p` that is not a separator. */
  function SkipSeparators(s: string, p: nat): (q: nat)
    requires p <= |s|
    ensures p <= q <= |s| && (q < |s| ==> !IsSeparator(s[q]))
    decreases |s| - p
  {
    if p < |s| && IsSeparator(s[p]) then SkipSeparators(s, p + 1) else p
  }

  /** Where a token that starts at `p` ends: at a separator, or after `room` characters. */
  function TokenEnd(s: string, p: nat, room: nat): (q: nat)
    requires p <= |s|
    ensures p <= q <= |s| && q - p <= room
    ensures 0 < room && p < |s| && !IsSeparator(s[p]) ==> p < q
    ensures forall k | p <= k < q :: !IsSeparator(s[k])
    decreases |s| - p
  {
    if p < |s| && !IsSeparator(s[p]) && 0 < room then TokenEnd(s, p + 1, room - 1) else p
  }

  /** The tokens from index `p` on. */
  function Tokens(s: string, p: nat): seq<string>
    requires p <= |s|
    decreases |s| - p
  {
    var q := SkipSeparators(s, p);
    if q == |s| then []
    else
      var e := TokenEnd(s, q, TOKEN_MAX - 1);
      [s[q..e]] + Tokens(s, e)
  }

  function Kept(tokens: seq<string>, known: Table): seq<string> {
    if tokens == [] then []
    else
      var before := Kept(tokens[..|tokens| - 1], known);
      var last := tokens[|tokens| - 1];
      if known(last) then before + [last] else before
  }

  function Source(cfg: Option<string>): string {
    if cfg.Some? && cfg.value != "" then cfg.value else DEFAULT_CODECS
  }

  /** What the account is given: None is OMNIX_ERR_INVALID_CONFIG. */
  function Filtered(cfg: Option<string>, known: Table): Option<string> {
    var src := Source(cfg);
    var kept := Kept(Tokens(src, 0), known);
    if |src| >= CFG_MAX || kept == [] || |Join(kept)| >= CFG_MAX then None else Some(Join(kept))
  }

  // ---- facts about joining ---------------------------------------------------------

  lemma {:induction false} JoinAppend(a: seq<string>, b: seq<string>)
    requires a != [] && b != []
    ensures Join(a + b) == Join(a) + "," + Join(b)
    decreases |b|
  {
    assert (a + b)[..|a + b| - 1] == a + b[..|b| - 1];
    if |b| > 1 {
      JoinAppend(a, b[..|b| - 1]);
    } else {
      assert a + b[..0] == a;
    }
  }

  lemma JoinGrows(a: seq<string>, b: seq<string>)
    ensures |Join(a)| <= |Join(a + b)|
  {
    if b == [] {
      assert a + b == a;
    } else if a != [] {
      JoinAppend(a, b);
    }
  }

  lemma {:induction false} KeptAppend(a: seq<string>, b: seq<string>, known: Table)
    ensures Kept(a + b, known) == Kept(a, known) + Kept(b, known)
    decreases |b|
  {
    if b == [] {
      assert a + b == a;
    } else {
      KeptAppend(a, b[..|b| - 1], known);
      assert (a + b)[..|a + b| - 1] == a + b[..|b| - 1];
    }
  }

  // ---- the filter as written -----------------------------------------------------------

  /** Blanks and commas behind a token are skipped again at the top of the loop. */
  lemma {:induction false} TokensSkip(s: string, p: nat, q: nat)
    requires p <= q <= |s| && forall k | p <= k < q :: IsSeparator(s[k])
    ensures Tokens(s, p) == Tokens(s, q)
    decreases q - p
  {
    if p < q { TokensSkip(s, p + 1, q); }
  }

  /** The inner loops: skip separators, read one token, skip what follows it. */
  method NextToken(s: string, from: nat) returns (token: string, p: nat)
    requires from <= |s|
    ensures from <= p <= |s|
    ensures token == "" ==> p == |s| && Tokens(s, from) == []
    ensures token != "" ==> from < p && Tokens(s, from) == [token] + Tokens(s, p)
  {
    p := from;
    while p < |s| && IsSeparator(s[p])
      invariant from <= p <= |s| && SkipSeparators(s, p) == SkipSeparators(s, from)
    {
      p := p + 1;
    }
    if p == |s| { return "", p; }
    var start, ti := p, 0;
    while p < |s| && !IsSeparator(s[p]) && ti + 1 < TOKEN_MAX
      invariant start <= p <= |s| && ti == p - start < TOKEN_MAX
      invariant TokenEnd(s, start, TOKEN_MAX - 1) == TokenEnd(s, p, TOKEN_MAX - 1 - ti)
    {
      p, ti := p + 1, ti + 1;
    }
    token := s[start..p];
    ghost var after := p;
    while p < |s| && IsBlank(s[p])
      invariant after <= p <= |s| && forall k | after <= k < p :: IsSeparator(s[k])
    {
      p := p + 1;
    }
    if p < |s| && s[p] == ',' {
      p := p + 1;
    }
    TokensSkip(s, after, p);
  }

  /** The guarded append to `filtered`; None when the buffer would overflow. */
  function Add(filtered: string, kept: nat, token: string): Option<string> {
    if kept > 0 && |filtered| + 1 >= CFG_MAX then None
    else
      var sep := if kept > 0 then "," else "";
      if |filtered| + |sep| + |token| >= CFG_MAX then None else Some(filtered + sep + token)
  }

  lemma AddJoins(kept: seq<string>, token: string)
    requires token != "" && |Join(kept)| < CFG_MAX
    ensures Add(Join(kept), |kept|, token) ==
            if |Join(kept + [token])| < CFG_MAX then Some(Join(kept + [token])) else None
  {
    assert (kept + [token])[..|kept|] == kept;
    if kept == [] { assert Join(kept + [token]) == token == "" + "" + token; }
  }

  lemma OneMore(seen: seq<string>, token: string, rest: seq<string>, known: Table)
    ensures seen + ([token] + rest) == (seen + [token]) + rest
    ensures Kept(seen + [token], known) == if known(token) then Kept(seen, known) + [token] else Kept(seen, known)
    ensures |Join(Kept(seen + [token], known))| <= |Join(Kept(seen + ([token] + rest), known))|
  {
    assert seen + ([token] + rest) == (seen + [token]) + rest;
    assert (seen + [token])[..|seen|] == seen;
    KeptAppend(seen + [token], rest, known);
    JoinGrows(Kept(seen + [token], known), Kept(rest, known));
  }

  /** Some token is not registered. */
  predicate Skips(tokens: seq<string>, known: Table) {
    tokens != [] && (Skips(tokens[..|tokens| - 1], known) || !known(tokens[|tokens| - 1]))
  }

  lemma {:induction false} SkipsMeans(tokens: seq<string>, known: Table)
    ensures Skips(tokens, known) <==> exists t :: t in tokens && !known(t)
    decreases |tokens|
  {
    if tokens != [] {
      var front, last := tokens[..|tokens| - 1], tokens[|tokens| - 1];
      SkipsMeans(front, known);
      assert tokens == front + [last];
    }
  }

  lemma SkipsSnoc(seen: seq<string>, token: string, known: Table)
    ensures Skips(seen + [token], known) == (Skips(seen, known) || !known(token))
  {
    assert (seen + [token])[..|seen|] == seen;
  }

  method ApplyCodecs(cfg: Option<string>, known: Table) returns (r: Option<string>, warned: bool)
    ensures r == Filtered(cfg, known)
    ensures r.Some? ==> (warned <==> exists t :: t in Tokens(Source(cfg), 0) && !known(t))
  {
    warned := false;
    var s := Source(cfg);
    if |s| >= CFG_MAX { return None, warned; }
    ghost var all, seen: seq<string> := Tokens(s, 0), [];
    var filtered, kept, p := "", 0, 0;
    while p < |s|
      invariant p <= |s| && all == seen + Tokens(s, p)
      invariant filtered == Join(Kept(seen, known)) && |filtered| < CFG_MAX && kept == |Kept(seen, known)|
      invariant warned == Skips(seen, known)
      decreases |s| - p
    {
      var token;
      token, p := NextToken(s, p);
      if token == "" { break; }
      OneMore(seen, token, Tokens(s, p), known);
      AddJoins(Kept(seen, known), token);
      SkipsSnoc(seen, token, known);
      seen := seen + [token];
      if !known(token) {
        warned := true;
        continue;
      }
      var longer := Add(filtered, kept, token);
      if longer.None? { return None, warned; }
      filtered, kept := longer.value, kept + 1;
    }
    assert Tokens(s, p) == [] && all == seen;
    SkipsMeans(all, known);
    if kept == 0 { return None, warned; }
    r := Some(filtered);
  }

  // ---- what the tokens are ---------------------------------------------------------------

  predicate IsToken(t: string) {
    t != "" && |t| < TOKEN_MAX && forall k | 0 <= k < |t| :: !IsSeparator(t[k])
  }

  lemma {:induction false} TokensAreTokens(s: string, p: nat)
    requires p <= |s|
    ensures forall i | 0 <= i < |Tokens(s, p)| :: IsToken(Tokens(s, p)[i])
    decreases |s| - p
  {
    var q := SkipSeparators(s, p);
    if q < |s| {
      TokensAreTokens(s, TokenEnd(s, q, TOKEN_MAX - 1));
    }
  }

  lemma {:induction false} KeptAreKept(tokens: seq<string>, known: Table)
    ensures forall i | 0 <= i < |Kept(tokens, known)| ::
              Kept(tokens, known)[i] in tokens && known(Kept(tokens, known)[i])
    decreases |tokens|
  {
    if tokens != [] { KeptAreKept(tokens[..|tokens| - 1], known); }
  }

  lemma {:induction false} KeepAll(tokens: seq<string>, known: Table)
    requires forall i | 0 <= i < |tokens| :: known(tokens[i])
    ensures Kept(tokens, known) == tokens
    decreases |tokens|
  {
    if tokens != [] { KeepAll(tokens[..|tokens| - 1], known); }
  }

  lemma {:induction false} EndOfToken(s: string, p: nat, e: nat, room: nat)
    requires p <= e <= |s| && e - p <= room && (forall k | p <= k < e :: !IsSeparator(s[k]))
    requires e == |s| || IsSeparator(s[e])
    ensures TokenEnd(s, p, room) == e
    decreases e - p
  {
    if p < e { EndOfToken(s, p + 1, e, room - 1); }
  }

  lemma {:induction false} SkipInTail(front: string, s: string, p: nat)
    requires p <= |s|
    ensures SkipSeparators(front + s, |front| + p) == |front| + SkipSeparators(s, p)
    decreases |s| - p
  {
    if p < |s| && IsSeparator(s[p]) { SkipInTail(front, s, p + 1); }
  }

  lemma {:induction false} EndInTail(front: string, s: string, p: nat, room: nat)
    requires p <= |s|
    ensures TokenEnd(front + s, |front| + p, room) == |front| + TokenEnd(s, p, room)
    decreases |s| - p
  {
    if p < |s| && !IsSeparator(s[p]) && 0 < room { EndInTail(front, s, p + 1, room - 1); }
  }

  lemma SliceInTail(front: string, s: string, a: nat, b: nat)
    requires a <= b <= |s|
    ensures (front + s)[|front| + a..|front| + b] == s[a..b]
  {
    var t := front + s;
    assert forall i | 0 <= i < b - a :: t[|front| + a..|front| + b][i] == t[|front| + a + i] == s[a + i] == s[a..b][i];
  }

  lemma {:induction false} TokensInTail(front: string, s: string, p: nat)
    requires p <= |s|
    ensures Tokens(front + s, |front| + p) == Tokens(s, p)
    decreases |s| - p
  {
    SkipInTail(front, s, p);
    var q := SkipSeparators(s, p);
    if q < |s| {
      EndInTail(front, s, q, TOKEN_MAX - 1);
      var e := TokenEnd(s, q, TOKEN_MAX - 1);
      TokensInTail(front, s, e);
      SliceInTail(front, s, q, e);
    }
  }

  lemma OneToken(t: string, rest: string)
    requires IsToken(t) && (rest == "" || rest[0] == ',')
    ensures Tokens(t + rest, 0) == [t] + Tokens(rest, 0)
  {
    var s := t + rest;
    EndOfToken(s, 0, |t|, TOKEN_MAX - 1);
    assert s[0..|t|] == t;
    TokensInTail(t, rest, 0);
  }

  /** Reading a comma-joined list of tokens gives the list back. */
  lemma {:induction false} TokensOfJoin(tokens: seq<string>)
    requires forall i | 0 <= i < |tokens| :: IsToken(tokens[i])
    ensures Tokens(Join(tokens), 0) == tokens
    decreases |tokens|
  {
    if |tokens| == 1 {
      OneToken(tokens[0], "");
      assert tokens[0] + "" == tokens[0];
    } else if |tokens| > 1 {
      var t, rest := tokens[0], tokens[1..];
      JoinAppend([t], rest);
      assert [t] + rest == tokens;
      assert Join([t]) + "," + Join(rest) == t + ("," + Join(rest));
      OneToken(t, "," + Join(rest));
      TokensSkip("," + Join(rest), 0, 1);
      TokensInTail(",", Join(rest), 0);
      TokensOfJoin(rest);
    }
  }

  /** A successful result, fed back with the same table, comes back unchanged and skips nothing. */
  lemma FilterIsIdempotent(cfg: Option<string>, known: Table)
    requires Filtered(cfg, known).Some?
    ensures var out := Filtered(cfg, known).value;
            && Filtered(Some(out), known) == Some(out)
            && forall t | t in Tokens(Source(Some(out)), 0) :: known(t)
  {
    var tokens := Tokens(Source(cfg), 0);
    var kept := Kept(tokens, known);
    TokensAreTokens(Source(cfg), 0);
    KeptAreKept(tokens, known);
    TokensOfJoin(kept);
    KeepAll(kept, known);
    assert Tokens("", 0) == [];
  }

  // ---- when the buffer cannot overflow --------------------------------------------------------

  predicate Clear(s: string, p: nat, q: nat)
    requires p <= q <= |s|
  {
    forall k | p <= k < q :: !IsSeparator(s[k])
  }

  /** No run of separator-free characters is longer than a token may be. */
  predicate ShortRuns(s: string) {
    forall p: nat, q: nat | q == p + TOKEN_MAX && q <= |s| :: !Clear(s, p, q)
  }

  lemma JoinCons(t: string, rest: seq<string>)
    ensures |Join([t] + rest)| == |t| + if rest == [] then 0 else 1 + |Join(rest)|
    ensures rest == [] ==> Join([t] + rest) == t
  {
    if rest == [] {
      assert [t] + rest == [t];
    } else {
      JoinAppend([t], rest);
    }
  }

  lemma {:induction false} TokensFit(s: string, p: nat)
    requires p <= |s| && ShortRuns(s)
    ensures |Join(Tokens(s, p))| <= |s| - p
    decreases |s| - p
  {
    var q := SkipSeparators(s, p);
    if q < |s| {
      var e := TokenEnd(s, q, TOKEN_MAX - 1);
      EndsAtSeparator(s, q, e);
      JoinCons(s[q..e], Tokens(s, e));
      assert Tokens(s, p) == [s[q..e]] + Tokens(s, e);
      if e < |s| {
        TokensSkip(s, e, e + 1);
        TokensFit(s, e + 1);
      } else {
        assert Tokens(s, e) == [];
      }
    }
  }

  lemma EndsAtSeparator(s: string, q: nat, e: nat)
    requires q < |s| && ShortRuns(s) && !IsSeparator(s[q]) && e == TokenEnd(s, q, TOKEN_MAX - 1)
    ensures e == |s| || IsSeparator(s[e])
  {
    StopsForRoom(s, q, TOKEN_MAX - 1);
    assert e < |s| && !IsSeparator(s[e]) ==> e == q + TOKEN_MAX - 1 && Clear(s, q, q + TOKEN_MAX);
  }

  lemma {:induction false} StopsForRoom(s: string, p: nat, room: nat)
    requires p <= |s|
    ensures var e := TokenEnd(s, p, room); e < |s| && !IsSeparator(s[e]) ==> e == p + room
    decreases |s| - p
  {
    if p < |s| && !IsSeparator(s[p]) && 0 < room { StopsForRoom(s, p + 1, room - 1); }
  }

  lemma {:induction false} KeptIsShorter(tokens: seq<string>, known: Table)
    ensures |Join(Kept(tokens, known))| <= |Join(tokens)|
    ensures tokens == [] ==> Kept(tokens, known) == []
    decreases |tokens|
  {
    if tokens != [] {
      var front := tokens[..|tokens| - 1];
      KeptIsShorter(front, known);
      JoinSnoc(Kept(front, known), tokens[|tokens| - 1]);
    }
  }

  lemma JoinSnoc(a: seq<string>, t: string)
    ensures Join(a + [t]) == if a == [] then t else Join(a) + "," + t
  {
    assert (a + [t])[..|a|] == a;
    if a == [] { assert a + [t] == [t]; }
  }

  /**
   * With short runs neither overflow branch is reachable: the filter fails only for an
   * over-long configuration or when no token is registered, and its output is no longer
   * than the input.
   */
  lemma ShortRunsNeverOverflow(cfg: Option<string>, known: Table)
    requires ShortRuns(Source(cfg))
    ensures var src := Source(cfg); var kept := Kept(Tokens(src, 0), known);
            && |Join(kept)| <= |src|
            && (Filtered(cfg, known) == None <==> |src| >= CFG_MAX || kept == [])
  {
    TokensFit(Source(cfg), 0);
    KeptIsShorter(Tokens(Source(cfg), 0), known);
  }

  /** How many commas go between the tokens that a run of `n` characters is split into. */
  function Commas(n: nat): nat {
    if n < TOKEN_MAX then 0 else 1 + Commas(n - (TOKEN_MAX - 1))
  }

  /** Where the run of separator-free characters at `p` ends. */
  function RunEnd(s: string, p: nat): (e: nat)
    requires p <= |s|
    ensures p <= e <= |s| && (e < |s| ==> IsSeparator(s[e])) && Clear(s, p, e)
    ensures p < |s| && !IsSeparator(s[p]) ==> p < e
    decreases |s| - p
  {
    if p < |s| && !IsSeparator(s[p]) then RunEnd(s, p + 1) else p
  }

  /** The lengths of the separator-free runs from `p` on. */
  function Runs(s: string, p: nat): seq<nat>
    requires p <= |s|
    decreases |s| - p
  {
    var q := SkipSeparators(s, p);
    if q == |s| then [] else [RunEnd(s, q) - q] + Runs(s, RunEnd(s, q))
  }

  /** What the runs take when their tokens are joined: themselves, and the commas in and between them. */
  function JoinedLength(runs: seq<nat>): nat {
    if runs == [] then 0
    else runs[0] + Commas(runs[0]) + if |runs| == 1 then 0 else 1 + JoinedLength(runs[1..])
  }

  lemma TokenInRun(s: string, p: nat, e: nat)
    requires p < e <= |s| && Clear(s, p, e) && (e < |s| ==> IsSeparator(s[e]))
    ensures SkipSeparators(s, p) == p
    ensures TokenEnd(s, p, TOKEN_MAX - 1) == if e - p < TOKEN_MAX then e else p + TOKEN_MAX - 1
  {
    var t := TokenEnd(s, p, TOKEN_MAX - 1);
    StopsForRoom(s, p, TOKEN_MAX - 1);
    assert e < |s| ==> !(p <= e < t);
    assert t < e ==> !IsSeparator(s[t]);
  }

  /** A run, joined with what follows it. */
  lemma {:induction false} RunLength(s: string, p: nat, e: nat)
    requires p < e <= |s| && Clear(s, p, e) && (e < |s| ==> IsSeparator(s[e]))
    ensures Tokens(s, p) != []
    ensures |Join(Tokens(s, p))| ==
            e - p + Commas(e - p) + if Tokens(s, e) == [] then 0 else 1 + |Join(Tokens(s, e))|
    decreases e - p
  {
    TokenInRun(s, p, e);
    var t := TokenEnd(s, p, TOKEN_MAX - 1);
    JoinCons(s[p..t], Tokens(s, t));
    if t < e { RunLength(s, t, e); }
  }

  /** The length of all tokens joined can be read off the runs. */
  lemma {:induction false} JoinedLengthIs(s: string, p: nat)
    requires p <= |s|
    ensures Tokens(s, p) == [] <==> Runs(s, p) == []
    ensures |Join(Tokens(s, p))| == JoinedLength(Runs(s, p))
    decreases |s| - p
  {
    var q := SkipSeparators(s, p);
    if q < |s| {
      var e := RunEnd(s, q);
      JoinedLengthIs(s, e);
      RunLength(s, q, e);
      TokensSkipTo(s, p, q);
      assert Runs(s, p) == [e - q] + Runs(s, e);
      JoinedRun(e - q, Runs(s, e));
    }
  }

  lemma JoinedRun(n: nat, rest: seq<nat>)
    ensures JoinedLength([n] + rest) == n + Commas(n) + if rest == [] then 0 else 1 + JoinedLength(rest)
  {
    assert ([n] + rest)[1..] == rest;
  }

  lemma TokensSkipTo(s: string, p: nat, q: nat)
    requires p <= |s| && q == SkipSeparators(s, p)
    ensures Tokens(s, p) == Tokens(s, q)
  {
    assert SkipSeparators(s, q) == q;
  }

  const ALL: Table := t => true

  lemma OverflowNeeds(cfg: Option<string>, known: Table)
    requires |Source(cfg)| < CFG_MAX && Kept(Tokens(Source(cfg), 0), known) != [] && Filtered(cfg, known) == None
    ensures |Join(Tokens(Source(cfg), 0))| >= CFG_MAX
  {
    KeptIsShorter(Tokens(Source(cfg), 0), known);
  }

  lemma OverflowHappens(cfg: Option<string>)
    requires |Join(Tokens(Source(cfg), 0))| >= CFG_MAX
    ensures Kept(Tokens(Source(cfg), 0), ALL) != [] && Filtered(cfg, ALL) == None
  {
    KeepAll(Tokens(Source(cfg), 0), ALL);
  }

  /**
   * The configurations whose filtering can overflow its buffer, for some table of which a
   * token is registered, are exactly those whose runs take 256 characters or more; and
   * with every token registered they do.
   */
  lemma OverflowsExactly(cfg: Option<string>)
    requires |Source(cfg)| < CFG_MAX
    ensures (exists known: Table :: Kept(Tokens(Source(cfg), 0), known) != [] && Filtered(cfg, known) == None)
            <==> JoinedLength(Runs(Source(cfg), 0)) >= CFG_MAX
  {
    JoinedLengthIs(Source(cfg), 0);
    if known: Table :| Kept(Tokens(Source(cfg), 0), known) != [] && Filtered(cfg, known) == None {
      OverflowNeeds(cfg, known);
    }
    if |Join(Tokens(Source(cfg), 0))| >= CFG_MAX { OverflowHappens(cfg); }
  }
}
