/** The tools an agent is offered: what each makes of the arguments a model wrote, within what the host
    imposes.

    Decoding the arguments and classifying a statement are arbitrary: a `Decoder` does them.
  */
module AgentTools {
  import opened Options
  import opened OrderedMaps
  import Commands

  datatype PrivacyTier = Local | Metadata | Sampled {
    predicate AllowsRowValues() { this == Sampled }
    predicate AllowsRemoteProvider() { this != Local }
  }

  datatype AiError =
    | UnknownTool(name: string)
    | ToolNotAllowed(name: string)
    | InvalidArguments(name: string, detail: string)
    | RemoteProviderRefused(tier: PrivacyTier)
    | InvalidSpec(message: string)
    | Provider(message: string)
    | Interrupted(message: string)
    | ReasoningEffortNotOffered
    | Core(message: string)
  {
    predicate IsRecoverableByModel() {
      UnknownTool? || ToolNotAllowed? || InvalidArguments?
    }
  }

  datatype ToolCall = ToolCall(id: string, name: string, arguments: string)

  /** What the host imposes and no model chooses. */
  datatype ToolScope = ToolScope(connection: Commands.ConnectionId, language: nat)

  datatype SampleAsk = SampleAsk(read: Commands.Command, columns: seq<string>)

  datatype ToolRequest = Dispatch(command: Commands.Command) | Sample(ask: SampleAsk) {
    function Read(): Commands.Command { if Dispatch? then command else ask.read }
  }

  type Translate = (string, ToolScope) -> Result<ToolRequest, AiError>

  datatype ToolDefinition = ToolDefinition(name: string, translate: Translate)

  function Get(tools: seq<ToolDefinition>, name: string): Option<ToolDefinition> {
    if tools == [] then None
    else if tools[0].name == name then Some(tools[0])
    else Get(tools[1..], name)
  }

  /** The refusals, in their order: unknown, not granted, then whatever the translation says. */
  function Request(tools: seq<ToolDefinition>, call: ToolCall, allowed: seq<string>,
                   scope: ToolScope): Result<ToolRequest, AiError> {
    var tool := Get(tools, call.name);
    if tool.None? then Err(UnknownTool(call.name))
    else if tool.value.name !in allowed then Err(ToolNotAllowed(call.name))
    else tool.value.translate(call.arguments, scope)
  }

  /** A refusal the model cannot correct: it ends the conversation. */
  predicate Aborting(understood: Result<ToolRequest, AiError>) {
    understood.Err? && !understood.error.IsRecoverableByModel()
  }

  // ---------- decoding ----------

  const EXECUTE_QUERY: string := "execute_query"
  const DESCRIBE_SCHEMA: string := "describe_schema"
  const REQUEST_SAMPLE: string := "request_sample"
  const REFRESH_CATALOG: string := "refresh_catalog"

  const DEFAULT_SAMPLE_ROWS: nat := 5
  const MAX_SAMPLE_ROWS: nat := 20
  const MAX_SAMPLE_COLUMNS: nat := 64
  const MAX_SAMPLE_NAME_BYTES: nat := 256
  const MAX_CATALOG_FOCUS_BYTES: nat := 256

  datatype Analysis = Analysis(intent: Commands.StatementIntent, risk: Commands.MutationRisk) {
    predicate IsMutating() {
      intent.IsMutating() || risk != Commands.NoRisk
    }
  }

  datatype SampleArgs = SampleArgs(relation: string, namespace: Option<string>, columns: seq<string>, rows: Option<nat>)

  datatype Decoder = Decoder(
    execute: string -> Result<string, string>,
    describe: string -> Result<Option<string>, string>,
    refresh: string -> Option<string>,
    sample: string -> Result<SampleArgs, string>,
    classify: (nat, string) -> Analysis,
    whitespace: char -> bool)

  function Utf8Bytes(c: char): nat {
    if c as int < 0x80 then 1 else if c as int < 0x800 then 2 else if c as int < 0x1_0000 then 3 else 4
  }

  function ByteLength(s: string): nat {
    if s == "" then 0 else Utf8Bytes(s[0]) + ByteLength(s[1..])
  }

  function TrimStart(s: string, whitespace: char -> bool): string {
    if s != "" && whitespace(s[0]) then TrimStart(s[1..], whitespace) else s
  }

  function TrimEnd(s: string, whitespace: char -> bool): string {
    if s != "" && whitespace(s[|s| - 1]) then TrimEnd(s[..|s| - 1], whitespace) else s
  }

  function Trim(s: string, whitespace: char -> bool): string {
    TrimEnd(TrimStart(s, whitespace), whitespace)
  }

  // ---------- translating ----------

  /** The intent, the risk and the limits come from the statement, never from the model. */
  function TranslateExecuteQuery(d: Decoder, raw: string, scope: ToolScope): Result<ToolRequest, AiError> {
    match d.execute(raw)
    case Err(detail) => Err(InvalidArguments(EXECUTE_QUERY, detail))
    case Ok(written) =>
      var statement := Trim(written, d.whitespace);
      if statement == "" then Err(InvalidArguments(EXECUTE_QUERY, "`statement` is empty"))
      else
        var analysis := d.classify(scope.language, statement);
        Ok(Dispatch(Commands.Execute(scope.connection,
          Commands.ExecRequest(statement, analysis.intent, analysis.risk, false, false, !analysis.IsMutating()))))
  }

  function TranslateDescribeSchema(d: Decoder, raw: string, scope: ToolScope): Result<ToolRequest, AiError> {
    match d.describe(raw)
    case Err(detail) => Err(InvalidArguments(DESCRIBE_SCHEMA, detail))
    case Ok(search) =>
      var words := if search.Some? then Trim(search.value, d.whitespace) else "";
      var focus := if words == "" then None else Some(words);
      if ByteLength(words) > MAX_CATALOG_FOCUS_BYTES then Err(InvalidArguments(DESCRIBE_SCHEMA, "`search` is too long"))
      else Ok(Dispatch(Commands.DescribeCatalog(scope.connection, focus)))
  }

  function TranslateRefreshCatalog(d: Decoder, raw: string, scope: ToolScope): Result<ToolRequest, AiError> {
    match d.refresh(raw)
    case Some(detail) => Err(InvalidArguments(REFRESH_CATALOG, detail))
    case None => Ok(Dispatch(Commands.RefreshCatalog(scope.connection)))
  }

  predicate Blank(d: Decoder, name: string) {
    Trim(name, d.whitespace) == ""
  }

  /** A name the model wrote: bounded, and not blank; nothing else is refused. */
  function SampleName(d: Decoder, field: string, raw: string): Result<string, AiError> {
    if Blank(d, raw) then Err(InvalidArguments(REQUEST_SAMPLE, field + " is empty"))
    else if ByteLength(raw) > MAX_SAMPLE_NAME_BYTES then Err(InvalidArguments(REQUEST_SAMPLE, field + " is too long"))
    else Ok(raw)
  }

  /** The first refused name decides; otherwise the names, each once, in order. */
  function SampleColumns(d: Decoder, requested: seq<string>): Result<seq<string>, AiError> {
    if requested == [] then Ok([])
    else
      var before, last := SampleColumns(d, requested[..|requested| - 1]),
        SampleName(d, "columns", requested[|requested| - 1]);
      if before.Err? then before
      else if last.Err? then Err(last.error)
      else Ok(FirstOccurrences(requested))
  }

  method CollectColumns(d: Decoder, requested: seq<string>) returns (r: Result<seq<string>, AiError>)
    ensures r == SampleColumns(d, requested)
  {
    var columns: seq<string> := [];
    for i := 0 to |requested|
      invariant SampleColumns(d, requested[..i]) == Ok(columns) && columns == FirstOccurrences(requested[..i])
    {
      var column := SampleName(d, "columns", requested[i]);
      assert requested[..i + 1][..i] == requested[..i];
      if column.Err? {
        RefusedStays(d, requested, i + 1);
        return Err(column.error);
      }
      if column.value !in columns {
        columns := columns + [column.value];
      }
    }
    assert requested[..|requested|] == requested;
    r := Ok(columns);
  }

  lemma {:induction false} RefusedStays(d: Decoder, requested: seq<string>, n: nat)
    requires n <= |requested| && SampleColumns(d, requested[..n]).Err?
    ensures SampleColumns(d, requested) == SampleColumns(d, requested[..n])
    decreases |requested|
  {
    if n == |requested| {
      assert requested[..n] == requested;
    } else {
      assert requested[..|requested| - 1][..n] == requested[..n];
      RefusedStays(d, requested[..|requested| - 1], n);
    }
  }

  /** The read is bounded, and its names stay data. */
  function SampleRequest(d: Decoder, args: SampleArgs, scope: ToolScope): Result<ToolRequest, AiError> {
    var relation := SampleName(d, "relation", args.relation);
    if relation.Err? then Err(relation.error)
    else if args.namespace.Some? && !Blank(d, args.namespace.value)
      && SampleName(d, "namespace", args.namespace.value).Err?
    then Err(SampleName(d, "namespace", args.namespace.value).error)
    else if |args.columns| > MAX_SAMPLE_COLUMNS then Err(InvalidArguments(REQUEST_SAMPLE, "too many `columns`"))
    else if SampleColumns(d, args.columns).Err? then Err(SampleColumns(d, args.columns).error)
    else if args.rows.Some? && !(1 <= args.rows.value <= MAX_SAMPLE_ROWS)
    then Err(InvalidArguments(REQUEST_SAMPLE, "`rows` is out of range"))
    else
      var namespace := if args.namespace.Some? && !Blank(d, args.namespace.value) then args.namespace else None;
      var rows := if args.rows.Some? then args.rows.value else DEFAULT_SAMPLE_ROWS;
      Ok(Sample(SampleAsk(Commands.PreviewRelation(scope.connection, namespace, args.relation, rows),
        SampleColumns(d, args.columns).value)))
  }

  function TranslateRequestSample(d: Decoder, raw: string, scope: ToolScope): Result<ToolRequest, AiError> {
    match d.sample(raw)
    case Err(detail) => Err(InvalidArguments(REQUEST_SAMPLE, detail))
    case Ok(args) => SampleRequest(d, args, scope)
  }

  /** The registry: there is no other. */
  function Builtin(d: Decoder): seq<ToolDefinition> {
    [ToolDefinition(EXECUTE_QUERY, (raw, scope) => TranslateExecuteQuery(d, raw, scope)),
     ToolDefinition(DESCRIBE_SCHEMA, (raw, scope) => TranslateDescribeSchema(d, raw, scope)),
     ToolDefinition(REQUEST_SAMPLE, (raw, scope) => TranslateRequestSample(d, raw, scope)),
     ToolDefinition(REFRESH_CATALOG, (raw, scope) => TranslateRefreshCatalog(d, raw, scope))]
  }

  // ---------- what the registry promises ----------

  lemma GetBuiltin(d: Decoder, name: string)
    ensures Get(Builtin(d), name) ==
      if name == EXECUTE_QUERY then Some(Builtin(d)[0])
      else if name == DESCRIBE_SCHEMA then Some(Builtin(d)[1])
      else if name == REQUEST_SAMPLE then Some(Builtin(d)[2])
      else if name == REFRESH_CATALOG then Some(Builtin(d)[3])
      else None
  {
    var tools := Builtin(d);
    assert tools[1..][0] == tools[1] && tools[1..][1..] == tools[2..] && tools[2..][0] == tools[2];
    assert tools[2..][1..] == tools[3..] && tools[3..][0] == tools[3] && tools[3..][1..] == [];
    assert Get([], name) == None;
    assert Get(tools[3..], name) == if name == REFRESH_CATALOG then Some(tools[3]) else None;
    assert Get(tools[2..], name) == if name == REQUEST_SAMPLE then Some(tools[2]) else Get(tools[3..], name);
    assert Get(tools[1..], name) == if name == DESCRIBE_SCHEMA then Some(tools[1]) else Get(tools[2..], name);
  }

  lemma {:induction false} ColumnErrorsAreTheModels(d: Decoder, requested: seq<string>)
    ensures SampleColumns(d, requested).Err? ==> SampleColumns(d, requested).error.InvalidArguments?
    ensures SampleColumns(d, requested).Ok? ==>
      && SampleColumns(d, requested).value == FirstOccurrences(requested)
      && forall name :: name in requested ==> SampleName(d, "columns", name).Ok?
  {
    if requested != [] { ColumnErrorsAreTheModels(d, requested[..|requested| - 1]); }
  }

  lemma SampleErrorsAreTheModels(d: Decoder, args: SampleArgs, scope: ToolScope)
    ensures SampleRequest(d, args, scope).Err? ==> SampleRequest(d, args, scope).error.InvalidArguments?
  {
    ColumnErrorsAreTheModels(d, args.columns);
  }

  /** Whatever a model writes, and however its arguments decode: a call the registry refuses is refused
      for what the model can correct. */
  lemma TranslationNeverAborts(d: Decoder, call: ToolCall, allowed: seq<string>, scope: ToolScope)
    ensures !Aborting(Request(Builtin(d), call, allowed, scope))
  {
    GetBuiltin(d, call.name);
    if call.name == REQUEST_SAMPLE && d.sample(call.arguments).Ok? {
      SampleErrorsAreTheModels(d, d.sample(call.arguments).value, scope);
    }
  }

  // ---------- what a translated call says ----------

  /** `t` is `s` without the white space at its ends. */
  ghost predicate IsTrimmed(s: string, t: string, whitespace: char -> bool) {
    exists i: nat, j: nat :: IsCore(s, i, j, whitespace) && t == s[i..j]
  }

  ghost predicate IsCore(s: string, i: nat, j: nat, whitespace: char -> bool) {
    && i <= j <= |s|
    && (forall k :: 0 <= k < i || j <= k < |s| ==> whitespace(s[k]))
    && (i < j ==> !whitespace(s[i]) && !whitespace(s[j - 1]))
  }

  lemma {:induction false} StartTrimmed(s: string, whitespace: char -> bool) returns (i: nat)
    ensures i <= |s| && TrimStart(s, whitespace) == s[i..]
    ensures (forall k :: 0 <= k < i ==> whitespace(s[k])) && (i < |s| ==> !whitespace(s[i]))
  {
    if s != "" && whitespace(s[0]) {
      var rest := StartTrimmed(s[1..], whitespace);
      i := rest + 1;
      assert forall k :: 1 <= k < i ==> s[k] == s[1..][k - 1];
    } else {
      i := 0;
    }
  }

  lemma {:induction false} EndTrimmed(s: string, whitespace: char -> bool) returns (j: nat)
    ensures j <= |s| && TrimEnd(s, whitespace) == s[..j]
    ensures (forall k :: j <= k < |s| ==> whitespace(s[k])) && (j > 0 ==> !whitespace(s[j - 1]))
    decreases |s|
  {
    j := |s|;
    if s != "" && whitespace(s[|s| - 1]) {
      j := EndTrimmed(s[..|s| - 1], whitespace);
    }
  }

  lemma TrimIsTrimmed(s: string, whitespace: char -> bool)
    ensures IsTrimmed(s, Trim(s, whitespace), whitespace)
    ensures Trim(s, whitespace) == "" <==> forall k :: 0 <= k < |s| ==> whitespace(s[k])
  {
    var i := StartTrimmed(s, whitespace);
    var j := EndTrimmed(s[i..], whitespace);
    assert s[i..][..j] == s[i..i + j];
    assert forall k :: i <= k < |s| ==> s[k] == s[i..][k - i];
    assert IsCore(s, i, i + j, whitespace);
  }

  /** The bytes of a text in UTF-8, section 3 of RFC 3629: one up to 127, two up to 2047, three up to 65535,
      else four. */
  lemma BytesOfACharacter(s: string, c: char)
    ensures var code, bytes := c as int, ByteLength(s + [c]) - ByteLength(s);
      && (bytes == 1 <==> code <= 127) && (bytes == 2 <==> 128 <= code <= 2047)
      && (bytes == 3 <==> 2048 <= code <= 65535) && (bytes == 4 <==> code >= 65536)
    ensures ByteLength("") == 0
  {
    BytesAdd(s, c);
  }

  lemma {:induction false} BytesAdd(s: string, c: char)
    ensures ByteLength(s + [c]) == ByteLength(s) + Utf8Bytes(c)
    decreases |s|
  {
    if s == "" {
      assert s + [c] == [c];
    } else {
      assert (s + [c])[1..] == s[1..] + [c];
      BytesAdd(s[1..], c);
    }
  }

  /** What the model wrote, and not blank. */
  ghost predicate Usable(d: Decoder, written: string, bytes: nat) {
    (exists k :: 0 <= k < |written| && !d.whitespace(written[k])) && ByteLength(written) <= bytes
  }

  lemma BlankExactly(d: Decoder, name: string)
    ensures Blank(d, name) <==> forall k :: 0 <= k < |name| ==> d.whitespace(name[k])
  {
    TrimIsTrimmed(name, d.whitespace);
  }

  /** A statement to execute is the model's, trimmed; its intent and risk are the classifier's, it may write
      exactly when they do, and it is refused only when it cannot be read or is blank. */
  lemma ExecutesAsClassified(d: Decoder, raw: string, scope: ToolScope)
    ensures var r := TranslateExecuteQuery(d, raw, scope);
      if d.execute(raw).Ok? && exists k :: 0 <= k < |d.execute(raw).value| && !d.whitespace(d.execute(raw).value[k])
      then
        && r.Ok? && r.value.Dispatch? && r.value.command.Execute? && r.value.command.connection == scope.connection
        && var request := r.value.command.request;
          && IsTrimmed(d.execute(raw).value, request.text, d.whitespace)
          && request.intent == d.classify(scope.language, request.text).intent
          && request.risk == d.classify(scope.language, request.text).risk
          && (request.readOnly <==> request.intent == Commands.Read && request.risk == Commands.NoRisk)
          && !request.transactionControl && !request.contextChange
      else r.Err? && r.error.InvalidArguments? && r.error.name == EXECUTE_QUERY
  {
    if d.execute(raw).Ok? { TrimIsTrimmed(d.execute(raw).value, d.whitespace); }
  }

  /** The words to look for are the model's, trimmed; blank ones are none, too many are refused. */
  lemma DescribesAsAsked(d: Decoder, raw: string, scope: ToolScope)
    requires d.describe(raw).Ok?
    ensures var r, asked := TranslateDescribeSchema(d, raw, scope), d.describe(raw).value;
      && (r.Ok? ==>
        r.value.Dispatch? && r.value.command.DescribeCatalog? && r.value.command.connection == scope.connection)
      && (asked.None? ==> r.Ok? && r.value.command.focus == None)
      && (asked.Some? && (forall k :: 0 <= k < |asked.value| ==> d.whitespace(asked.value[k])) ==>
            r.Ok? && r.value.command.focus == None)
      && (r.Ok? && r.value.command.focus.Some? ==>
            && asked.Some? && IsTrimmed(asked.value, r.value.command.focus.value, d.whitespace)
            && 0 < |r.value.command.focus.value| && ByteLength(r.value.command.focus.value) <= 256)
      && (r.Err? ==>
            && r.error.InvalidArguments? && asked.Some?
            && exists t :: IsTrimmed(asked.value, t, d.whitespace) && ByteLength(t) > 256)
  {
    var asked := d.describe(raw).value;
    if asked.Some? { TrimIsTrimmed(asked.value, d.whitespace); }
  }

  /** A sample is asked for exactly when the names can be used and the counts are within bounds; it then asks
      for what the model wrote, five rows unless it said how many. */
  lemma SamplesAsAsked(d: Decoder, args: SampleArgs, scope: ToolScope)
    ensures var r := SampleRequest(d, args, scope);
      && (r.Ok? <==>
            && Usable(d, args.relation, 256)
            && (args.namespace.Some? && !Blank(d, args.namespace.value) ==> ByteLength(args.namespace.value) <= 256)
            && |args.columns| <= 64 && (forall name :: name in args.columns ==> Usable(d, name, 256))
            && (args.rows.Some? ==> 1 <= args.rows.value <= 20))
      && (r.Ok? ==>
            && r.value.Sample? && r.value.ask.read.PreviewRelation?
            && r.value.ask.read.connection == scope.connection && r.value.ask.read.relation == args.relation
            && r.value.ask.read.namespace
              == (if args.namespace.Some? && !Blank(d, args.namespace.value) then args.namespace else None)
            && r.value.ask.read.limit == (if args.rows.Some? then args.rows.value else 5)
            && Distinct(r.value.ask.columns)
            && forall name :: name in r.value.ask.columns <==> name in args.columns)
  {
    BlankExactly(d, args.relation);
    ColumnErrorsAreTheModels(d, args.columns);
    ColumnsAreUsable(d, args.columns);
    FirstOccurrencesAreDistinct(args.columns);
    OccurrencesAreKept(args.columns);
  }

  lemma UsableExactly(d: Decoder, field: string, raw: string)
    ensures SampleName(d, field, raw).Ok? <==> Usable(d, raw, 256)
  {
    BlankExactly(d, raw);
  }

  lemma {:induction false} ColumnsAreUsable(d: Decoder, requested: seq<string>)
    ensures SampleColumns(d, requested).Ok? <==> forall name :: name in requested ==> Usable(d, name, 256)
  {
    if requested != [] {
      var n := |requested| - 1;
      ColumnsAreUsable(d, requested[..n]);
      UsableExactly(d, "columns", requested[n]);
      assert requested == requested[..n] + [requested[n]];
      assert (forall name :: name in requested ==> Usable(d, name, 256))
        <==> (forall name :: name in requested[..n] ==> Usable(d, name, 256)) && Usable(d, requested[n], 256);
    }
  }

  lemma {:induction false} OccurrencesAreKept(names: seq<string>)
    ensures forall name :: name in FirstOccurrences(names) <==> name in names
  {
    if names != [] {
      var n := |names| - 1;
      OccurrencesAreKept(names[..n]);
      assert names == names[..n] + [names[n]];
    }
  }

  /** The refusals come in their order: no such tool, then not granted, then what the translation says. */
  lemma RefusalsInOrder(d: Decoder, call: ToolCall, allowed: seq<string>, scope: ToolScope)
    ensures var r := Request(Builtin(d), call, allowed, scope);
      && (r == Err(UnknownTool(call.name)) <==>
            call.name !in {"execute_query", "describe_schema", "request_sample", "refresh_catalog"})
      && (r == Err(ToolNotAllowed(call.name)) <==>
            call.name in {"execute_query", "describe_schema", "request_sample", "refresh_catalog"}
            && call.name !in allowed)
      && (r.Ok? || r.error.InvalidArguments? ==> call.name in allowed)
  {
    GetBuiltin(d, call.name);
    if Get(Builtin(d), call.name).Some? { TranslatedOrInvalid(d, call, scope); }
  }

  lemma TranslatedOrInvalid(d: Decoder, call: ToolCall, scope: ToolScope)
    requires Get(Builtin(d), call.name).Some?
    ensures var r := Get(Builtin(d), call.name).value.translate(call.arguments, scope);
      r.Ok? || r.error.InvalidArguments?
  {
    GetBuiltin(d, call.name);
    if call.name == REQUEST_SAMPLE && d.sample(call.arguments).Ok? {
      SampleErrorsAreTheModels(d, d.sample(call.arguments).value, scope);
    }
  }

  lemma {:induction false} FirstOccurrencesAreDistinct(names: seq<string>)
    ensures Distinct(FirstOccurrences(names)) && |FirstOccurrences(names)| <= |names|
    decreases |names|
  {
    if names != [] { FirstOccurrencesAreDistinct(names[..|names| - 1]); }
  }

  /** What a sample request may ask: some rows, few of them, of distinct columns with usable names. */
  ghost predicate Bounded(d: Decoder, ask: SampleAsk) {
    && ask.read.PreviewRelation?
    && 1 <= ask.read.limit <= 20
    && |ask.columns| <= 64 && Distinct(ask.columns)
    && (forall name :: name in ask.columns ==> !Blank(d, name) && ByteLength(name) <= 256)
    && !Blank(d, ask.read.relation) && ByteLength(ask.read.relation) <= 256
    && (ask.read.namespace.Some? ==>
      !Blank(d, ask.read.namespace.value) && ByteLength(ask.read.namespace.value) <= 256)
  }

  lemma SampleIsBounded(d: Decoder, args: SampleArgs, scope: ToolScope)
    requires SampleRequest(d, args, scope).Ok?
    ensures SampleRequest(d, args, scope).value.Sample? && Bounded(d, SampleRequest(d, args, scope).value.ask)
  {
    ColumnErrorsAreTheModels(d, args.columns);
    FirstOccurrencesAreDistinct(args.columns);
  }

  /** A translated call was granted, targets the host's connection and no other, and writes only what the
      gate is told is a write; rows are only ever asked for through a bounded sample. */
  lemma RequestsStayInScope(d: Decoder, call: ToolCall, allowed: seq<string>, scope: ToolScope)
    requires Request(Builtin(d), call, allowed, scope).Ok?
    ensures var request := Request(Builtin(d), call, allowed, scope).value;
      && call.name in allowed
      && request.Read().TargetConnection() == Some(scope.connection)
      && (request.Sample? <==> call.name == REQUEST_SAMPLE) && (request.Sample? ==> Bounded(d, request.ask))
      && (request.Read().PreviewRelation? <==> request.Sample?)
      && (request.Read().IsMutating() <==> request.Read().Execute? && !request.Read().request.readOnly)
      && (request.Dispatch? ==>
        request.Read().Execute? || request.Read().DescribeCatalog? || request.Read().RefreshCatalog?)
  {
    GetBuiltin(d, call.name);
    if call.name == REQUEST_SAMPLE {
      SampleIsBounded(d, d.sample(call.arguments).value, scope);
    }
  }
}
