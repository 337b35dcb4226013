/**
 * A codec preference on its way through the layers: normalizeCodecs in TypeScript,
 * readCodecs in the Kotlin bridge, the CSV of the Kotlin SDK, the C tokenizer.
 */
module CodecLayers {
  import opened Wrappers
  import opened Text
  import opened CodecFilter

  const OPUS: string := "opus"
  const PCMU: string := "pcmu"
  const PCMA: string := "pcma"
  const FALLBACK: seq<string> := [OPUS, PCMU, PCMA]

  predicate IsCodec(v: string) {
    v == OPUS || v == PCMU || v == PCMA
  }

  // ---- TypeScript -------------------------------------------------------------------

  /** The supported codecs of `source`, each at its first place. */
  function Normalized(source: seq<string>): seq<string> {
    if source == [] then []
    else
      var before := Normalized(source[..|source| - 1]);
      var last := source[|source| - 1];
      if IsCodec(last) && last !in before then before + [last] else before
  }

  /** normalizeCodecs: None stands for the thrown INVALID_CONFIGURATION. */
  method NormalizeCodecs(codecs: Option<seq<string>>) returns (r: Option<seq<string>>)
    ensures var out := Normalized(if codecs.Some? then codecs.value else FALLBACK);
            r == if out == [] then None else Some(out)
  {
    var source := if codecs.Some? then codecs.value else FALLBACK;
    var out: seq<string> := [];
    for i := 0 to |source|
      invariant out == Normalized(source[..i])
    {
      assert source[..i + 1][..i] == source[..i];
      if IsCodec(source[i]) && source[i] !in out {
        out := out + [source[i]];
      }
    }
    assert source[..|source|] == source;
    r := if |out| == 0 then None else Some(out);
  }

  predicate NoDup(list: seq<string>) {
    forall i, j | 0 <= i < j < |list| :: list[i] != list[j]
  }

  /** The place of `v` in `list`, |list| if it is not there. */
  function Place(list: seq<string>, v: string): (k: nat)
    ensures k <= |list| && (k < |list| ==> list[k] == v) && forall j | 0 <= j < k :: list[j] != v
  {
    if list == [] then 0 else if list[0] == v then 0 else Place(list[1..], v) + 1
  }

  /** Normalizing keeps exactly the supported codecs, once each, in the order they first appear. */
  lemma {:induction false} NormalizedMeans(source: seq<string>)
    ensures NoDup(Normalized(source))
    ensures forall v :: v in Normalized(source) <==> v in source && IsCodec(v)
    ensures forall i, j | 0 <= i < j < |Normalized(source)| ::
              Place(source, Normalized(source)[i]) < Place(source, Normalized(source)[j])
    decreases |source|
  {
    if source != [] {
      var front, last := source[..|source| - 1], source[|source| - 1];
      NormalizedMeans(front);
      var before, out := Normalized(front), Normalized(source);
      assert source == front + [last];
      forall v ensures v in front ==> Place(source, v) == Place(front, v)
               ensures v !in front ==> Place(source, v) >= |front|
      {
        PlaceInFront(front, last, v);
      }
    }
  }

  lemma PlaceInFront(front: seq<string>, last: string, v: string)
    ensures v in front ==> Place(front + [last], v) == Place(front, v) < |front|
    ensures v !in front ==> Place(front + [last], v) >= |front|
  {
    var k := Place(front + [last], v);
    assert forall j | 0 <= j < |front| :: (front + [last])[j] == front[j];
  }

  // ---- Kotlin -----------------------------------------------------------------------

  /** raw.split(','). */
  function SplitCommas(raw: string): (r: seq<string>)
    ensures r != []
  {
    if raw == "" then [""]
    else
      var rest := SplitCommas(raw[1..]);
      if raw[0] == ',' then [""] + rest else [[raw[0]] + rest[0]] + rest[1..]
  }

  /** String.trim, for the blanks that can surround a codec name. */
  function Trim(s: string): string {
    if s == "" then ""
    else if IsBlank(s[0]) then Trim(s[1..])
    else if IsBlank(s[|s| - 1]) then Trim(s[..|s| - 1])
    else s
  }

  /** mapNotNull over the split tokens: unknown names drop out, duplicates stay. */
  function Entries(names: seq<string>): seq<string> {
    if names == [] then []
    else
      var before := Entries(names[..|names| - 1]);
      var name := Trim(names[|names| - 1]);
      if IsCodec(name) then before + [name] else before
  }

  /** readCodecs of the bridge; a missing or empty entry means the fallback. */
  function ReadCodecs(raw: Option<string>): seq<string> {
    if raw.None? || raw.value == "" then FALLBACK
    else
      var parsed := Entries(SplitCommas(raw.value));
      if parsed == [] then FALLBACK else parsed
  }

  /** joinToString(",").ifBlank { ... } in the Kotlin SDK. */
  function CodecsCsv(codecs: seq<string>): string {
    var csv := Join(codecs);
    if Trim(csv) == "" then DEFAULT_CODECS else csv
  }

  // ---- the way through ------------------------------------------------------------------

  predicate CodecList(list: seq<string>) {
    forall i | 0 <= i < |list| :: IsCodec(list[i])
  }

  lemma {:induction false} SplitName(name: string, rest: string)
    requires ',' !in name && (rest == "" || rest[0] == ',')
    ensures SplitCommas(name + rest) == [name] + (if rest == "" then [] else SplitCommas(rest[1..]))
    decreases |name|
  {
    if name == "" {
      assert name + rest == rest;
    } else {
      assert (name + rest)[1..] == name[1..] + rest;
      SplitName(name[1..], rest);
      var more := if rest == "" then [] else SplitCommas(rest[1..]);
      assert ([name[1..]] + more)[1..] == more && [name[0]] + name[1..] == name;
    }
  }

  lemma {:induction false} SplitOfJoin(list: seq<string>)
    requires list != [] && CodecList(list)
    ensures SplitCommas(Join(list)) == list
    decreases |list|
  {
    var t, rest := list[0], list[1..];
    if rest == [] {
      SplitName(t, "");
      assert t + "" == Join(list);
    } else {
      JoinAppend([t], rest);
      assert [t] + rest == list;
      assert Join(list) == t + ("," + Join(rest));
      SplitName(t, "," + Join(rest));
      assert ("," + Join(rest))[1..] == Join(rest);
      SplitOfJoin(rest);
    }
  }

  lemma JoinFirst(c: char, pieces: seq<string>)
    requires pieces != []
    ensures Join([[c] + pieces[0]] + pieces[1..]) == [c] + Join(pieces)
  {
    var rest := pieces[1..];
    assert pieces == [pieces[0]] + rest;
    if rest != [] {
      JoinAppend([pieces[0]], rest);
      JoinAppend([[c] + pieces[0]], rest);
    }
  }

  /** Splitting loses nothing: the pieces joined are the text. */
  lemma {:induction false} JoinOfSplit(raw: string)
    ensures Join(SplitCommas(raw)) == raw
    ensures forall i | 0 <= i < |SplitCommas(raw)| :: ',' !in SplitCommas(raw)[i]
    decreases |raw|
  {
    if raw != "" {
      var rest := SplitCommas(raw[1..]);
      JoinOfSplit(raw[1..]);
      assert raw == [raw[0]] + raw[1..];
      if raw[0] == ',' {
        JoinAppend([""], rest);
      } else {
        JoinFirst(raw[0], rest);
      }
    }
  }

  /** The entries are the supported names among the trimmed pieces, as often as they occur there. */
  lemma {:induction false} EntriesMean(names: seq<string>)
    ensures CodecList(Entries(names))
    ensures forall v :: v in Entries(names) <==> IsCodec(v) && exists i | 0 <= i < |names| :: Trim(names[i]) == v
    decreases |names|
  {
    if names != [] {
      var front, last := names[..|names| - 1], names[|names| - 1];
      EntriesMean(front);
      forall v ensures v in Entries(names) <==> IsCodec(v) && exists i | 0 <= i < |names| :: Trim(names[i]) == v {
        if i :| 0 <= i < |names| && Trim(names[i]) == v {
          assert i < |front| ==> Trim(front[i]) == v;
        }
        if v in Entries(front) {
          var i :| 0 <= i < |front| && Trim(front[i]) == v;
          assert Trim(names[i]) == v;
        }
        assert Trim(names[|names| - 1]) == Trim(last);
      }
    }
  }

  /** readCodecs never gives an empty list, and only supported codecs. */
  lemma ReadCodecsMeans(raw: Option<string>)
    ensures ReadCodecs(raw) != [] && CodecList(ReadCodecs(raw))
    ensures (raw.None? || forall i | 0 <= i < |SplitCommas(raw.value)| :: !IsCodec(Trim(SplitCommas(raw.value)[i])))
            ==> ReadCodecs(raw) == FALLBACK
  {
    if raw.Some? {
      var names := SplitCommas(raw.value);
      EntriesMean(names);
      var parsed := Entries(names);
      if parsed != [] { assert parsed[0] in parsed; }
    }
  }

  lemma {:induction false} EntriesOfCodecs(list: seq<string>)
    requires CodecList(list)
    ensures Entries(list) == list
    decreases |list|
  {
    if list != [] {
      EntriesOfCodecs(list[..|list| - 1]);
      assert Trim(list[|list| - 1]) == list[|list| - 1];
    }
  }

  /** A joined codec list starts with a letter. */
  lemma JoinedIsNotBlank(list: seq<string>)
    requires list != [] && CodecList(list)
    ensures Trim(Join(list)) != "" && Join(list) != ""
  {
    var csv := Join(list);
    assert csv[0] == list[0][0] by {
      if |list| > 1 {
        assert [list[0]] + list[1..] == list;
        JoinAppend([list[0]], list[1..]);
      }
    }
    TrimStart(csv);
  }

  lemma {:induction false} TrimStart(s: string)
    requires s != "" && !IsBlank(s[0])
    ensures Trim(s) != ""
    decreases |s|
  {
    if IsBlank(s[|s| - 1]) { TrimStart(s[..|s| - 1]); }
  }

  lemma {:induction false} CodecsJoinShort(list: seq<string>)
    requires CodecList(list)
    ensures |Join(list)| <= 5 * |list|
    decreases |list|
  {
    if |list| > 1 { CodecsJoinShort(list[..|list| - 1]); }
  }

  function Elements(list: seq<string>): set<string> {
    set v | v in list
  }

  /** Three names leave room for at most three entries. */
  lemma AtMostThree(list: seq<string>)
    requires CodecList(list) && NoDup(list)
    ensures |list| <= 3
  {
    var all := {OPUS, PCMU, PCMA};
    SetOfNoDup(list);
    SubsetSize(Elements(list), all);
  }

  lemma {:induction false} SetOfNoDup(list: seq<string>)
    requires NoDup(list)
    ensures |Elements(list)| == |list|
    decreases |list|
  {
    if list != [] {
      var front, last := list[..|list| - 1], list[|list| - 1];
      SetOfNoDup(front);
      assert Elements(list) == Elements(front) + {last};
    }
  }

  lemma {:induction false} SubsetSize(a: set<string>, b: set<string>)
    requires a <= b
    ensures |a| <= |b|
    decreases |a|
  {
    if a != {} {
      var x :| x in a;
      SubsetSize(a - {x}, b - {x});
    }
  }

  /** What the bridge and the SDK make of the joined list is the joined list again. */
  lemma BridgeKeepsList(list: seq<string>)
    requires list != [] && CodecList(list)
    ensures ReadCodecs(Some(Join(list))) == list && CodecsCsv(list) == Join(list)
  {
    SplitOfJoin(list);
    EntriesOfCodecs(list);
    JoinedIsNotBlank(list);
  }

  /** The account keeps some codec exactly when the application named one that is registered. */
  lemma KeptOfSource(source: seq<string>, known: Table)
    ensures Kept(Normalized(source), known) == [] <==>
            forall v | v in source && IsCodec(v) :: !known(v)
  {
    NormalizedMeans(source);
    KeptEmpty(Normalized(source), known);
  }

  lemma CodecIsToken(v: string)
    requires IsCodec(v)
    ensures IsToken(v)
  {
    assert v == OPUS ==> v == "opus";
  }

  lemma NormalizedIsCodecs(source: seq<string>)
    ensures CodecList(Normalized(source)) && NoDup(Normalized(source))
  {
    NormalizedMeans(source);
    var list := Normalized(source);
    forall i | 0 <= i < |list| ensures IsCodec(list[i]) {
      assert list[i] in list;
    }
  }

  /** The C tokenizer reads a joined codec list back. */
  lemma TokenizerReadsList(list: seq<string>)
    requires CodecList(list)
    ensures Tokens(Join(list), 0) == list
  {
    forall i | 0 <= i < |list| ensures IsToken(list[i]) {
      CodecIsToken(list[i]);
    }
    TokensOfJoin(list);
  }

  /** The list the C tokenizer reads is the list the application's preference stands for. */
  lemma ListArrives(source: seq<string>)
    requires Normalized(source) != []
    ensures var list := Normalized(source);
            var csv := CodecsCsv(ReadCodecs(Some(Join(list))));
            csv == Join(list) && csv != "" && |csv| <= 15 && Tokens(csv, 0) == list
  {
    var list := Normalized(source);
    NormalizedIsCodecs(source);
    AtMostThree(list);
    CodecsJoinShort(list);
    BridgeKeepsList(list);
    JoinedIsNotBlank(list);
    TokenizerReadsList(list);
  }

  /**
   * For every list the application gives: what TypeScript normalizes and joins, the
   * Kotlin bridge splits and the SDK rejoins is read back by the C tokenizer as the same
   * list. So the account gets that list without the unregistered codecs, in order, and
   * C reports "no usable codecs" exactly when none of it is registered.
   */
  lemma PreferenceSurvives(source: seq<string>, known: Table)
    requires Normalized(source) != []
    ensures var list := Normalized(source);
            var csv := CodecsCsv(ReadCodecs(Some(Join(list))));
            && Tokens(Source(Some(csv)), 0) == list
            && Filtered(Some(csv), known) ==
               (if Kept(list, known) == [] then None else Some(Join(Kept(list, known))))
            && (Kept(list, known) == [] <==> forall v | v in source && IsCodec(v) :: !known(v))
  {
    var list := Normalized(source);
    ListArrives(source);
    KeptOfSource(source, known);
    KeptIsShorter(list, known);
  }

  lemma {:induction false} KeptEmpty(tokens: seq<string>, known: Table)
    ensures Kept(tokens, known) == [] <==> forall v | v in tokens :: !known(v)
    decreases |tokens|
  {
    if tokens != [] {
      var front, last := tokens[..|tokens| - 1], tokens[|tokens| - 1];
      KeptEmpty(front, known);
      assert tokens == front + [last];
    }
  }
}
