/** What an agent conversation is made of, and what each tool call may tell the model.

    The provider, the command bus, the user's cancellation and the renderings of catalog and rows
    are arbitrary: a `World` answers each of them, step by step.
  */
module AgentProtocol {
  import opened Options
  import opened ContextBudget
  import opened AgentTools
  import Commands

  datatype Reach = OnMachine | Remote | Unresolved {
    predicate LeavesMachine() { this != OnMachine }
  }

  predicate AllowsEndpoint(tier: PrivacyTier, reach: Reach) {
    !reach.LeavesMachine() || tier.AllowsRemoteProvider()
  }

  datatype StopReason =
    | EndTurn | MaxTokens | ToolCalls | ContentFilter | StopSequence | Refusal | Paused
    | ContextWindowExceeded | StoppedByCaller | CutOff | ProviderError | Unspecified | Other(reason: string)
  {
    predicate IsAmbiguous() { CutOff? }

    predicate IsTruncated() {
      MaxTokens? || ContentFilter? || Refusal? || Paused? || ContextWindowExceeded? || StoppedByCaller? || CutOff?
        || ProviderError?
    }
  }

  /** A call as the turn received it; unreadable arguments say why. */
  datatype Proposed = Proposed(call: ToolCall, unreadable: Option<string>)

  datatype Block = Summarized(text: string) | Redacted(data: string)

  // ---------- facts and outcomes ----------

  /** The search words a command carries, if any. */
  function FocusOf(command: Commands.Command): Option<string> {
    if command.DescribeCatalog? then command.focus else None
  }

  /** What the command bus reports: facts, before the tier applies. A sample comes as rendered:
      the context's header and the approved rows. */
  datatype DispatchOutcome =
    | Completed(summary: string)
    | SampleRead(header: Bytes, rows: Bytes)
    | CatalogRead(catalog: nat)
    | AwaitingApproval(reason: string)
    | Denied(reason: string)
    | Failed(family: nat, message: string)

  datatype FailureReport = FailureReport(family: nat, code: Option<string>, detail: Option<string>)

  /** What the model may know of it. */
  datatype ToolOutcome =
    | Done(summary: string)
    | Described(block: Bytes)
    | SampleShown(block: Bytes)
    | Awaiting(reason: string)
    | Refused(reason: string)
    | FailedWith(report: FailureReport)

  datatype World = World(
    stream: nat -> Result<seq<ChatEvent>, AiError>,
    overrun: (nat, nat) -> Option<string>,
    cancelled: nat -> bool,
    dispatch: (nat, Commands.Command) -> DispatchOutcome,
    requestSample: (nat, SampleAsk) -> DispatchOutcome,
    records: nat -> bool,
    renderCatalog: (nat, Option<string>) -> Bytes,
    safeCode: string -> Option<string>)
  {
    /** Once cancelled, cancelled for good. */
    ghost predicate CancelsForGood() {
      forall p: nat, q: nat :: p <= q && cancelled(p) ==> cancelled(q)
    }
  }

  datatype ChatEvent =
    | TextDelta(text: string)
    | RefusalDelta(text: string)
    | ReasoningDelta(text: string)
    | ReasoningComplete(block: Block)
    | ToolCallStarted(index: nat, name: string)
    | ToolCallDelta(index: nat, arguments: string)
    | ToolCallComplete(call: ToolCall)
    | ToolCallInvalid(id: string, name: string, detail: string)
    | Usage(tokens: nat)
    | StreamError(message: string)
    | Closed(stop: StopReason)
    | UnknownEvent

  // ---------- the tier on what the bus reported ----------

  const CONTEXT_TOKENS: nat := 6000

  const TIER_LETS_NO_VALUE_OUT: string := "the privacy tier lets no row value leave"
  const SAMPLE_DID_NOT_FIT: string := "the approved sample did not fit the context budget"
  const SAMPLE_UNRECORDED: string := "the sample could not be recorded, so nothing was sent"

  function SampleContext(tier: PrivacyTier, header: Bytes, rows: Bytes): ContextBudget.Request {
    ContextBudget.Request.Request(header, [], {}, _ => [], _ => [], [], _ => [], [], tier.AllowsRowValues(), [rows],
      CONTEXT_TOKENS)
  }

  /** A sample the gateway drops becomes a refusal. */
  function FromSample(tier: PrivacyTier, header: Bytes, rows: Bytes): ToolOutcome {
    var built := Composed(SampleContext(tier, header, rows));
    if built.droppedSamples > 0
    then Refused(if tier.AllowsRowValues() then SAMPLE_DID_NOT_FIT else TIER_LETS_NO_VALUE_OUT)
    else SampleShown(built.body)
  }

  function FromDispatch(world: World, tier: PrivacyTier, facts: DispatchOutcome, focus: Option<string>): ToolOutcome {
    match facts
    case Completed(summary) => Done(summary)
    case CatalogRead(catalog) => Described(world.renderCatalog(catalog, focus))
    case SampleRead(header, rows) => FromSample(tier, header, rows)
    case AwaitingApproval(reason) => Awaiting(reason)
    case Denied(reason) => Refused(reason)
    case Failed(family, message) =>
      FailedWith(FailureReport(family, world.safeCode(message), if tier.AllowsRowValues() then Some(message) else None))
  }

  /** Does the outcome say less than the facts? Decided by comparing the two. */
  predicate WithholdsFrom(outcome: ToolOutcome, facts: DispatchOutcome) {
    match (outcome, facts)
    case (Done(summary), Completed(told)) => summary != told
    case (Described(_), CatalogRead(_)) => false
    case (SampleShown(_), SampleRead(_, _)) => false
    case (Awaiting(reason), AwaitingApproval(told)) => reason != told
    case (Refused(reason), Denied(told)) => reason != told
    case (FailedWith(report), Failed(_, message)) => report.detail != Some(message)
    case _ => true
  }

  /** A sample leaves once the rendering kept it and its release was recorded. */
  datatype Settlement = Settlement(outcome: ToolOutcome, facts: DispatchOutcome, asked: bool)

  function Settled(outcome: ToolOutcome, facts: DispatchOutcome, recorded: bool): Settlement {
    if !facts.SampleRead? then Settlement(outcome, facts, false)
    else
      match outcome
      case SampleShown(_) =>
        if recorded then Settlement(outcome, facts, true)
        else Settlement(Refused(SAMPLE_UNRECORDED), Denied(SAMPLE_UNRECORDED), true)
      case Refused(reason) => Settlement(outcome, Denied(reason), false)
      case _ => Settlement(outcome, facts, false)
  }

  /** What the bus answers. A sample is refused before it is asked for when the tier forbids it. */
  function Facts(world: World, tier: PrivacyTier, call: nat, request: ToolRequest): DispatchOutcome {
    match request
    case Sample(ask) => if tier.AllowsRowValues() then world.requestSample(call, ask)
      else Denied(TIER_LETS_NO_VALUE_OUT)
    case Dispatch(command) => world.dispatch(call, command)
  }

  /** What one call comes to: what the model reads, what the user sees, whether a release was asked for. */
  function Reported(world: World, tier: PrivacyTier, call: nat, request: ToolRequest): Settlement {
    var facts := Facts(world, tier, call, request);
    Settled(FromDispatch(world, tier, facts, FocusOf(request.Read())), facts, world.records(call))
  }

  lemma SampleShownExactly(tier: PrivacyTier, header: Bytes, rows: Bytes)
    ensures FromSample(tier, header, rows).SampleShown? <==>
      tier.AllowsRowValues() && EstimateTokens(header) + EstimateTokens(rows) <= 6000
    ensures FromSample(tier, header, rows).SampleShown? ==> FromSample(tier, header, rows).block == header + rows
    ensures FromSample(tier, header, rows).SampleShown? || FromSample(tier, header, rows).Refused?
  {
    var r := SampleContext(tier, header, rows);
    assert Relations(r, []) == Filled([], [], [], EstimateTokens(header));
    assert Queries([], EstimateTokens(header), CONTEXT_TOKENS) == Filled([], [], [], EstimateTokens(header));
    assert LeftOut(r, [], []) == [];
    if tier.AllowsRowValues() {
      FillOneMore([], Identity, EstimateTokens(header), CONTEXT_TOKENS, rows);
      assert [] + [rows] == [rows];
    }
  }

  /** Whatever the bus answers: row values reach the model only under a tier that lets them out, only
      when they fit, and only once their release was recorded; the user is shown a sample exactly
      when the model got it. */
  lemma RowsReachTheModelOnlyWhenReleased(world: World, tier: PrivacyTier, call: nat, request: ToolRequest)
    ensures var settled := Reported(world, tier, call, request);
      && (settled.outcome.SampleShown? <==> settled.facts.SampleRead?)
      && (settled.outcome.SampleShown? ==> settled.asked && world.records(call) && tier.AllowsRowValues())
      && (settled.asked ==> (settled.outcome.SampleShown? <==> world.records(call)) && tier.AllowsRowValues())
  {
    var facts := Facts(world, tier, call, request);
    if facts.SampleRead? { SampleShownExactly(tier, facts.header, facts.rows); }
  }

  /** What the model learns of a fact, under a tier: values only when it lets them out, and everything else as
      it was reported — the catalog rendered for the words the command carries. */
  lemma WhatTheModelLearns(world: World, tier: PrivacyTier, facts: DispatchOutcome, command: Commands.Command)
    ensures match FromDispatch(world, tier, facts, FocusOf(command))
      case Done(summary) => facts == Completed(summary)
      case Described(block) =>
        && facts.CatalogRead?
        && block == world.renderCatalog(facts.catalog, if command.DescribeCatalog? then command.focus else None)
      case SampleShown(block) => facts.SampleRead? && tier == Sampled && block == facts.header + facts.rows
      case Awaiting(reason) => facts == AwaitingApproval(reason)
      case Refused(reason) =>
        || facts == Denied(reason)
        || (facts.SampleRead? && reason == if tier == Sampled then SAMPLE_DID_NOT_FIT else TIER_LETS_NO_VALUE_OUT)
      case FailedWith(report) =>
        && facts.Failed? && report.family == facts.family && report.code == world.safeCode(facts.message)
        && report.detail == if tier == Sampled then Some(facts.message) else None
  {
    if facts.SampleRead? { SampleShownExactly(tier, facts.header, facts.rows); }
  }

  /** Which tiers let what out, and which stops say what. */
  lemma TiersAndStops(tier: PrivacyTier, reach: Reach, stop: StopReason)
    ensures AllowsEndpoint(tier, reach) <==> reach == OnMachine || tier != Local
    ensures tier.AllowsRowValues() <==> tier == Sampled
    ensures stop.IsAmbiguous() <==> stop == CutOff
    ensures stop.IsTruncated() <==>
      !(stop == EndTurn || stop == ToolCalls || stop == StopSequence || stop == Unspecified || stop.Other?)
  {
  }

  /** The model reads exactly what the tier lets through of what the user is shown. */
  lemma ModelReadsWhatIsShownFiltered(world: World, tier: PrivacyTier, call: nat, request: ToolRequest)
    ensures var settled := Reported(world, tier, call, request);
      settled.outcome == FromDispatch(world, tier, settled.facts, FocusOf(request.Read()))
  {
    var facts := Facts(world, tier, call, request);
    if facts.SampleRead? { SampleShownExactly(tier, facts.header, facts.rows); }
  }

  /** The announced gap is exact: something was held back when a failure's message was. */
  lemma WithheldExactly(world: World, tier: PrivacyTier, call: nat, request: ToolRequest)
    ensures var settled := Reported(world, tier, call, request);
      WithholdsFrom(settled.outcome, settled.facts) <==> settled.facts.Failed? && !tier.AllowsRowValues()
  {
    var facts := Facts(world, tier, call, request);
    if facts.SampleRead? { SampleShownExactly(tier, facts.header, facts.rows); }
  }
}
