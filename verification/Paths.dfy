/** Qualified paths, their reversible rendering, and the qualified identifiers made of them. */
module Paths {
  import opened Characters
  import opened Options
  import opened Quoting
  import opened Dialects

  const TIERS: nat := 3

  datatype PathError =
    | EmptyLevel | ControlCharacter | EmptyQuotedLevel | QuoteInMiddle
    | NoSeparatorAfterQuote | UnterminatedQuote | TooManyLevels

  predicate HasControl(name: string) {
    exists c :: c in name && IsControl(c)
  }

  /** A usable level name; dots, quotes, spaces and semicolons are legal in it. */
  predicate ValidSegment(name: string) {
    name != "" && !HasControl(name)
  }

  function ValidateSegment(name: string): (r: Result<string, PathError>)
    ensures r.Ok? <==> ValidSegment(name)
    ensures r.Ok? ==> r.value == name
  {
    if name == "" then Err(EmptyLevel)
    else if HasControl(name) then Err(ControlCharacter)
    else Ok(name)
  }

  datatype CatalogPath = CatalogPath(catalog: Option<string>, namespace: Option<string>, relation: Option<string>) {
    predicate Valid() {
      forall t :: t in Tiers() ==> t.Some? ==> ValidSegment(t.value)
    }

    function Tiers(): (tiers: seq<Option<string>>)
      ensures |tiers| == TIERS
    {
      [catalog, namespace, relation]
    }

    /** Is this path at or below `prefix`? Only the levels `prefix` has are compared. */
    predicate StartsWith(prefix: CatalogPath) {
      && (prefix.catalog.Some? ==> catalog == prefix.catalog)
      && (prefix.namespace.Some? ==> namespace == prefix.namespace)
      && (prefix.relation.Some? ==> relation == prefix.relation)
    }

    /** The names of the levels the path has, catalog first. */
    function Segments(): seq<string> {
      Present(Tiers())
    }
  }

  function Present(tiers: seq<Option<string>>): seq<string> {
    if tiers == [] then []
    else (if tiers[0].Some? then [tiers[0].value] else []) + Present(tiers[1..])
  }

  // ---------- rendering ----------

  function Segment(name: string): string {
    if '.' !in name && '\"' !in name then name
    else "\"" + Doubled(name, '\"') + "\""
  }

  function TierText(tier: Option<string>): string {
    if tier.Some? then Segment(tier.value) else ""
  }

  function FirstPresent(tiers: seq<Option<string>>): (i: nat)
    ensures i <= |tiers|
    ensures i < |tiers| ==> tiers[i].Some?
    ensures forall j :: 0 <= j < i ==> tiers[j].None?
  {
    if tiers == [] || tiers[0].Some? then 0 else 1 + FirstPresent(tiers[1..])
  }

  function Texts(tiers: seq<Option<string>>): seq<string> {
    seq(|tiers|, i requires 0 <= i < |tiers| => TierText(tiers[i]))
  }

  /** Everything from the first present level on, missing levels left empty. */
  function Rendered(path: CatalogPath): string {
    Dotted(Texts(path.Tiers()[FirstPresent(path.Tiers())..]))
  }

  // ---------- parsing ----------

  datatype ReadState = Normal | Cite | AfterQuote

  function FinishSegment(current: string, wasQuoted: bool): Result<Option<string>, PathError> {
    if current == "" then
      if wasQuoted then Err(EmptyQuotedLevel) else Ok(None)
    else
      match ValidateSegment(current)
      case Ok(name) => Ok(Some(name))
      case Err(e) => Err(e)
  }

  type Segments = Result<seq<Option<string>>, PathError>

  function Join(first: Result<Option<string>, PathError>, others: Segments): Segments {
    match first
    case Err(e) => Err(e)
    case Ok(tier) => if others.Ok? then Ok([tier] + others.value) else others
  }

  lemma JoinLast(tier: Option<string>)
    ensures Join(Ok(tier), Ok([])) == Ok([tier])
  {
    var none: seq<Option<string>> := [];
    assert [tier] + none == [tier];
  }

  /** The segments of `s` for a reader in `state` that has gathered `current`. */
  function Split(s: string, state: ReadState, current: string): Segments
    decreases |s|
  {
    match state
    case Cite =>
      if s == [] then Err(UnterminatedQuote)
      else if s[0] != '\"' then Split(s[1..], Cite, current + [s[0]])
      else if |s| > 1 && s[1] == '\"' then Split(s[2..], Cite, current + "\"")
      else Split(s[1..], AfterQuote, current)
    case AfterQuote =>
      if s == [] then Join(FinishSegment(current, true), Ok([]))
      else if s[0] != '.' then Err(NoSeparatorAfterQuote)
      else Join(FinishSegment(current, true), Split(s[1..], Normal, ""))
    case Normal =>
      if s == [] then Join(FinishSegment(current, false), Ok([]))
      else if s[0] == '\"' then
        if current == "" then Split(s[1..], Cite, "") else Err(QuoteInMiddle)
      else if s[0] == '.' then Join(FinishSegment(current, false), Split(s[1..], Normal, ""))
      else Split(s[1..], Normal, current + [s[0]])
  }

  /** The reader, one character at a time with one character of look-ahead. */
  method SplitSegments(entry: string) returns (r: Segments)
    ensures r == Split(entry, Normal, "")
  {
    var segments: seq<Option<string>> := [];
    var current, state, i := "", Normal, 0;
    assert entry[0..] == entry && Prefixed([], Split(entry, Normal, "")) == Split(entry, Normal, "");
    while i < |entry|
      invariant 0 <= i <= |entry|
      invariant Split(entry, Normal, "") == Prefixed(segments, Split(entry[i..], state, current))
      decreases |entry| - i
    {
      var c := entry[i];
      assert entry[i..][0] == c && entry[i..][1..] == entry[i + 1..];
      match state {
      case Cite =>
        if c == '\"' {
          if i + 1 < |entry| && entry[i + 1] == '\"' {
            assert entry[i..][2..] == entry[i + 2..];
            current := current + "\"";
            i := i + 1;
          } else {
            state := AfterQuote;
          }
        } else {
          current := current + [c];
        }
      case AfterQuote =>
        if c != '.' {
          return Err(NoSeparatorAfterQuote);
        }
        var finished := FinishSegment(current, true);
        if finished.Err? {
          return Err(finished.error);
        }
        PrefixedJoin(segments, finished.value, Split(entry[i + 1..], Normal, ""));
        segments, current, state := segments + [finished.value], "", Normal;
      case Normal =>
        if c == '\"' {
          if current != "" {
            return Err(QuoteInMiddle);
          }
          state := Cite;
        } else if c == '.' {
          var finished := FinishSegment(current, false);
          if finished.Err? {
            return Err(finished.error);
          }
          PrefixedJoin(segments, finished.value, Split(entry[i + 1..], Normal, ""));
          segments, current := segments + [finished.value], "";
        } else {
          current := current + [c];
        }
      }
      i := i + 1;
    }
    if state == Cite {
      return Err(UnterminatedQuote);
    }
    var finished := FinishSegment(current, state == AfterQuote);
    if finished.Err? {
      return Err(finished.error);
    }
    JoinLast(finished.value);
    PrefixedJoin(segments, finished.value, Ok([]));
    assert segments + [finished.value] + [] == segments + [finished.value];
    return Ok(segments + [finished.value]);
  }

  ghost function Prefixed(segments: seq<Option<string>>, others: Segments): Segments {
    if segments == [] then others
    else if others.Ok? then Ok(segments + others.value) else others
  }

  lemma PrefixedJoin(segments: seq<Option<string>>, tier: Option<string>, others: Segments)
    ensures Prefixed(segments, Join(Ok(tier), others)) == Prefixed(segments + [tier], others)
  {
    if others.Ok? {
      assert segments == [] ==> segments + [tier] == [tier];
      assert segments + ([tier] + others.value) == segments + [tier] + others.value;
    }
  }

  /** Aligns the segments from the right: the last one is the relation. */
  function Parsed(s: string): Result<CatalogPath, PathError> {
    match Split(s, Normal, "")
    case Err(e) => Err(e)
    case Ok(segments) =>
      if |segments| > TIERS then Err(TooManyLevels)
      else
        var tiers := seq(TIERS - |segments|, _ => None) + segments;
        Ok(CatalogPath(tiers[0], tiers[1], tiers[2]))
  }

  method Parse(s: string) returns (r: Result<CatalogPath, PathError>)
    ensures r == Parsed(s)
  {
    var segments := SplitSegments(s);
    if segments.Err? {
      return Err(segments.error);
    }
    if |segments.value| > TIERS {
      return Err(TooManyLevels);
    }
    var offset := TIERS - |segments.value|;
    var tiers: seq<Option<string>> := [None, None, None];
    for i := 0 to |segments.value|
      invariant |tiers| == TIERS
      invariant forall j :: 0 <= j < TIERS ==>
                  tiers[j] == if offset <= j < offset + i then segments.value[j - offset] else None
    {
      tiers := tiers[offset + i := segments.value[i]];
    }
    return Ok(CatalogPath(tiers[0], tiers[1], tiers[2]));
  }

  // ---------- what parsing refuses ----------

  predicate HasForbiddenCode(name: string) {
    exists c :: c in name && (c as int < 32 || 127 <= c as int <= 159)
  }

  /** A level read: missing when nothing was written, the name when it is usable, else the reason it is not. */
  lemma LevelExactly(current: string, wasQuoted: bool)
    ensures FinishSegment(current, wasQuoted) ==
      if current == "" then (if wasQuoted then Err(EmptyQuotedLevel) else Ok(None))
      else if HasForbiddenCode(current) then Err(ControlCharacter) else Ok(Some(current))
  {
    assert HasControl(current) <==> HasForbiddenCode(current) by {
      forall c | c in current ensures IsControl(c) <==> c as int < 32 || 127 <= c as int <= 159 {}
    }
  }

  /** A quote that is never closed is refused. */
  lemma {:induction false} UnterminatedIsRefused(s: string, current: string)
    requires '\"' !in s
    ensures Split(s, Cite, current) == Err(UnterminatedQuote)
    decreases |s|
  {
    if s != "" {
      assert s[0] in s;
      UnterminatedIsRefused(s[1..], current + [s[0]]);
    }
  }

  /** So is a quote that opens after other characters of a level. */
  lemma {:induction false} QuoteInMiddleIsRefused(name: string, rest: string, current: string)
    requires '.' !in name && '\"' !in name && current + name != ""
    ensures Split(name + "\"" + rest, Normal, current) == Err(QuoteInMiddle)
    decreases |name|
  {
    var s := name + "\"" + rest;
    if name == "" {
      assert s == "\"" + rest && current + name == current;
    } else {
      assert name[0] in name && s[0] == name[0] && s[1..] == name[1..] + "\"" + rest;
      QuoteInMiddleIsRefused(name[1..], rest, current + [name[0]]);
    }
  }

  /** And anything but a dot right after a quoted level. */
  lemma {:induction false} NoSeparatorIsRefused(name: string, c: char, rest: string, current: string)
    requires c != '.' && c != '\"'
    ensures Split(Doubled(name, '\"') + "\"" + [c] + rest, Cite, current) == Err(NoSeparatorAfterQuote)
    decreases |name|
  {
    var s := Doubled(name, '\"') + "\"" + [c] + rest;
    if name == "" {
      assert s == "\"" + [c] + rest && s[1..] == [c] + rest;
    } else {
      var n := if name[0] == '\"' then 2 else 1;
      assert s[n..] == Doubled(name[1..], '\"') + "\"" + [c] + rest;
      NoSeparatorIsRefused(name[1..], c, rest, current + [name[0]]);
    }
  }

  // ---------- parsing undoes printing ----------

  /** What a level is followed by: the end, or a dot and the other levels. */
  ghost function AfterTier(rest: string): Segments
    requires rest == [] || rest[0] == '.'
  {
    if rest == [] then Ok([]) else Split(rest[1..], Normal, "")
  }

  lemma {:induction false} PlainReadsBack(name: string, current: string, rest: string)
    requires '.' !in name && '\"' !in name
    requires rest == [] || rest[0] == '.'
    ensures Split(name + rest, Normal, current) == Join(FinishSegment(current + name, false), AfterTier(rest))
    decreases name
  {
    if name == [] {
      assert name + rest == rest && current + name == current;
    } else {
      assert name[0] in name;
      assert (name + rest)[0] == name[0] && (name + rest)[1..] == name[1..] + rest;
      PlainReadsBack(name[1..], current + [name[0]], rest);
      assert current + [name[0]] + name[1..] == current + name;
    }
  }

  lemma {:induction false} CitedReadsBack(name: string, current: string, rest: string)
    requires rest == [] || rest[0] == '.'
    ensures Split(Doubled(name, '\"') + "\"" + rest, Cite, current)
         == Join(FinishSegment(current + name, true), AfterTier(rest))
    decreases name
  {
    var s := Doubled(name, '\"') + "\"" + rest;
    if name == [] {
      assert s[1..] == rest && current + name == current;
    } else {
      var n := if name[0] == '\"' then 2 else 1;
      assert s[n..] == Doubled(name[1..], '\"') + "\"" + rest;
      CitedReadsBack(name[1..], current + [name[0]], rest);
      assert current + [name[0]] + name[1..] == current + name;
    }
  }

  lemma TierReadsBack(tier: Option<string>, rest: string)
    requires tier.Some? ==> ValidSegment(tier.value)
    requires rest == [] || rest[0] == '.'
    ensures Split(TierText(tier) + rest, Normal, "") == Join(Ok(tier), AfterTier(rest))
  {
    if tier.None? {
      assert TierText(tier) + rest == rest;
    } else {
      var name := tier.value;
      assert "" + name == name;
      assert FinishSegment(name, false) == FinishSegment(name, true) == Ok(tier);
      if '.' !in name && '\"' !in name {
        PlainReadsBack(name, "", rest);
      } else {
        var s := TierText(tier) + rest;
        assert s[0] == '\"' && s[1..] == Doubled(name, '\"') + "\"" + rest;
        CitedReadsBack(name, "", rest);
      }
    }
  }

  lemma LastTierReadsBack(tier: Option<string>)
    requires tier.Some? ==> ValidSegment(tier.value)
    ensures Split(TierText(tier), Normal, "") == Ok([tier])
  {
    TierReadsBack(tier, "");
    assert TierText(tier) + "" == TierText(tier);
    JoinLast(tier);
  }

  lemma {:induction false} TiersReadBack(tiers: seq<Option<string>>)
    requires tiers != []
    requires forall t :: t in tiers ==> t.Some? ==> ValidSegment(t.value)
    ensures Split(Dotted(Texts(tiers)), Normal, "") == Ok(tiers)
    decreases |tiers|
  {
    assert tiers[0] in tiers && Texts(tiers)[0] == TierText(tiers[0]);
    if |tiers| == 1 {
      LastTierReadsBack(tiers[0]);
      assert tiers == [tiers[0]];
    } else {
      DottedTexts(tiers);
      FirstTierReadsBack(tiers[0], Dotted(Texts(tiers[1..])));
      TiersReadBack(tiers[1..]);
      assert tiers == [tiers[0]] + tiers[1..];
    }
  }

  lemma DottedTexts(tiers: seq<Option<string>>)
    requires |tiers| > 1
    ensures Dotted(Texts(tiers)) == TierText(tiers[0]) + ("." + Dotted(Texts(tiers[1..])))
  {
    var forms := Texts(tiers);
    assert forms[1..] == Texts(tiers[1..]);
    assert Dotted(forms) == forms[0] + "." + Dotted(forms[1..]);
  }

  lemma FirstTierReadsBack(tier: Option<string>, more: string)
    requires tier.Some? ==> ValidSegment(tier.value)
    ensures Split(TierText(tier) + ("." + more), Normal, "") == Join(Ok(tier), Split(more, Normal, ""))
  {
    TierReadsBack(tier, "." + more);
    assert ("." + more)[1..] == more;
  }

  /** Parsing undoes printing, holes, trailing missing levels, dots and quotes included. */
  lemma ParsingUndoesPrinting(path: CatalogPath)
    requires path.Valid()
    ensures Parsed(Rendered(path)) == Ok(path)
  {
    var first := FirstPresent(path.Tiers());
    var tiers := path.Tiers()[first..];
    if tiers == [] {
      LastTierReadsBack(None);
      assert Dotted(Texts(tiers)) == TierText(None);
      assert path.Tiers()[0].None? && path.Tiers()[1].None? && path.Tiers()[2].None?;
    } else {
      TiersReadBack(tiers);
      assert seq(first, _ => None) + tiers == path.Tiers();
    }
  }

  lemma PrintingIsInjective(p: CatalogPath, q: CatalogPath)
    requires p.Valid() && q.Valid() && Rendered(p) == Rendered(q)
    ensures p == q
  {
    ParsingUndoesPrinting(p);
    ParsingUndoesPrinting(q);
  }

  lemma {:induction false} SplitYieldsValid(s: string, state: ReadState, current: string)
    ensures var r := Split(s, state, current);
      r.Ok? ==> r.value != [] && forall t :: t in r.value ==> t.Some? ==> ValidSegment(t.value)
    decreases |s|
  {
    if s != [] {
      match state
      case Cite =>
        if s[0] != '\"' {
          SplitYieldsValid(s[1..], Cite, current + [s[0]]);
        } else if |s| > 1 && s[1] == '\"' {
          SplitYieldsValid(s[2..], Cite, current + "\"");
        } else {
          SplitYieldsValid(s[1..], AfterQuote, current);
        }
      case AfterQuote => SplitYieldsValid(s[1..], Normal, "");
      case Normal =>
        SplitYieldsValid(s[1..], Cite, "");
        SplitYieldsValid(s[1..], Normal, "");
        SplitYieldsValid(s[1..], Normal, current + [s[0]]);
    }
  }

  /** Every accepted text denotes a valid path, whose own rendering denotes it again. */
  lemma AcceptedIsValid(s: string)
    requires Parsed(s).Ok?
    ensures Parsed(s).value.Valid()
    ensures Parsed(Rendered(Parsed(s).value)) == Parsed(s)
  {
    SplitYieldsValid(s, Normal, "");
    var segments := Split(s, Normal, "").value;
    var tiers := seq(TIERS - |segments|, _ => None) + segments;
    var path := Parsed(s).value;
    assert path.Tiers() == tiers;
    ParsingUndoesPrinting(path);
  }

  // ---------- qualified identifiers ----------

  function QuotedAll(names: seq<string>, style: QuoteStyle): seq<string> {
    seq(|names|, i requires 0 <= i < |names| => Quoted(names[i], style))
  }

  function Qualified(path: CatalogPath, style: QuoteStyle): string {
    Dotted(QuotedAll(path.Segments(), style))
  }

  lemma {:induction false} DottedSnoc(forms: seq<string>, form: string)
    ensures Dotted(forms + [form]) == (if forms == [] then "" else Dotted(forms) + ".") + form
    decreases |forms|
  {
    if forms == [] {
      assert forms + [form] == [form];
    } else {
      assert (forms + [form])[1..] == forms[1..] + [form];
      DottedSnoc(forms[1..], form);
      if |forms| > 1 {
        assert Dotted(forms + [form]) == forms[0] + "." + (Dotted(forms[1..]) + "." + form);
      }
    }
  }

  lemma DottedOneMore(forms: seq<string>, i: nat)
    requires i < |forms|
    ensures Dotted(forms[..i + 1]) == (if i == 0 then "" else Dotted(forms[..i]) + ".") + forms[i]
    ensures Dotted(forms[..0]) == ""
  {
    assert forms[..i + 1] == forms[..i] + [forms[i]];
    DottedSnoc(forms[..i], forms[i]);
  }

  method Qualify(path: CatalogPath, style: QuoteStyle) returns (text: string)
    ensures text == Qualified(path, style)
  {
    text := "";
    var names := path.Segments();
    for i := 0 to |names|
      invariant text == Dotted(QuotedAll(names, style)[..i])
    {
      if i > 0 {
        text := text + ".";
      }
      var quoted := QuoteIdentifier(names[i], style);
      DottedOneMore(QuotedAll(names, style), i);
      text := text + quoted;
    }
    assert QuotedAll(names, style)[..|names|] == QuotedAll(names, style);
  }

  ghost function QuotedReader(style: QuoteStyle): (read: Reader)
    ensures Consumes(read)
  {
    s => ReadQuoted(style, s)
  }

  /** A qualified identifier is read back as exactly the present levels, whatever follows it
      that is neither a dot nor taken for the rest of its last name. */
  lemma QualifiedReadsBack(path: CatalogPath, style: QuoteStyle, tail: string)
    requires style != Bare && path.Segments() != []
    requires Ends(style, tail) && (tail == [] || tail[0] != '.')
    ensures ReadDotted(QuotedReader(style), Qualified(path, style) + tail) == Some((path.Segments(), tail))
  {
    var names, forms := path.Segments(), QuotedAll(path.Segments(), style);
    var read := QuotedReader(style);
    forall i | 0 <= i < |names|
      ensures ReadsBack(read, forms[i], names[i], tail)
      ensures forall more: string :: ReadsBack(read, forms[i], names[i], "." + more)
    {
      QuotedReadsBack(names[i], style, tail);
      forall more: string ensures ReadsBack(read, forms[i], names[i], "." + more) {
        QuotedReadsBack(names[i], style, "." + more);
      }
    }
    DottedReadsBack(read, names, forms, tail);
  }

  /** Qualified for a dialect, a path is read by that dialect as exactly its present levels if and only if
      none of them is a name the dialect misreads. */
  lemma DialectReadsBack(path: CatalogPath, dialect: SqlDialect, tail: string)
    requires path.Segments() != []
    requires EndsIdentifier(dialect, tail) && (tail == [] || tail[0] != '.')
    ensures ReadDotted(IdentifierReader(dialect), Qualified(path, StyleFor(dialect)) + tail)
            == Some((path.Segments(), tail))
      <==> forall name :: name in path.Segments() ==> Survives(dialect, name)
  {
    var names, forms := path.Segments(), QuotedAll(path.Segments(), StyleFor(dialect));
    var read, right := IdentifierReader(dialect), (name: string) => Survives(dialect, name);
    forall i, after | 0 <= i < |names| && Follows(after, tail)
      ensures ReadsAs(read, forms[i], names[i], right(names[i]), after)
    {
      IdentifierReadsBack(names[i], dialect, after);
    }
    DottedReadsBackExactly(read, names, forms, right, tail);
  }

  /** What a query text is qualified with is never left bare, and tells its levels apart. */
  lemma QualifySqlIsInjective(p: CatalogPath, q: CatalogPath, dialect: SqlDialect)
    requires p.Segments() != [] && q.Segments() != []
    requires Qualified(p, StyleFor(dialect)) == Qualified(q, StyleFor(dialect))
    ensures p.Segments() == q.Segments()
  {
    QualifiedReadsBack(p, StyleFor(dialect), "");
    QualifiedReadsBack(q, StyleFor(dialect), "");
    assert Qualified(p, StyleFor(dialect)) + "" == Qualified(q, StyleFor(dialect)) + "";
  }
}
