/** The messages and events of an agent conversation, and the order they have to come in.

    Each order is an acceptor reading messages, or events, one at a time.
  */
module AgentHistory {
  import opened Options
  import opened AgentTools
  import opened AgentProtocol
  import Commands

  datatype Content = Rejection(error: AiError) | Report(outcome: ToolOutcome)

  datatype Message =
    | System(text: string)
    | User(text: string)
    | Assistant(text: string, reasoning: seq<Block>, calls: seq<ToolCall>)
    | ToolResult(id: string, content: Content)

  datatype AgentOutcome =
    | Answered(text: string, turns: nat, truncated: bool, stop: StopReason)
    | Cancelled(turns: nat)
    | TurnLimit(turns: nat)
    | RefusedToGoOn(text: string, turns: nat)
    | PausedByProvider(text: string, turns: nat)

  datatype AgentEvent =
    | TurnStarted(turn: nat, maxTurns: nat)
    | TextShown(text: string)
    | ToolCallDrafted(index: nat, tool: string)
    | ToolArgumentsDelta(index: nat, fragment: string)
    | ThinkingDelta(text: string)
    | ThinkingRedacted
    | UsageReported(tokens: nat)
    | CallRejected(tool: string, error: AiError)
    | CommandSubmitted(call: nat, tool: string, command: Commands.Command)
    | CommandReported(call: nat, tool: string, facts: DispatchOutcome, withheld: bool)
    | Finished(outcome: AgentOutcome)

  /** A release of row values: the call it answers, and whether it was recorded. */
  datatype Release = Release(call: nat, recorded: bool)

  datatype Turn = Turn(
    text: string, calls: seq<Proposed>, reasoning: seq<Block>, refusal: string,
    stop: StopReason, truncated: bool, cancelled: bool)

  // ---------- the shape of the history ----------

  /** Where a history stands: between groups, waiting for the results of some calls in order,
      or after a plain answer. */
  datatype Stage = Between | AwaitingResults(calls: seq<ToolCall>) | Ended | Broken

  function Next(stage: Stage, m: Message): Stage {
    match stage
    case Between =>
      if !m.Assistant? then Broken
      else if m.calls != [] then AwaitingResults(m.calls)
      else if m.text != "" then Ended else Broken
    case AwaitingResults(calls) =>
      if calls != [] && m.ToolResult? && m.id == calls[0].id
      then if |calls| == 1 then Between else AwaitingResults(calls[1..])
      else Broken
    case Ended => Broken
    case Broken => Broken
  }

  function StageAfter(ms: seq<Message>): Stage {
    if ms == [] then Between else Next(StageAfter(ms[..|ms| - 1]), ms[|ms| - 1])
  }

  lemma StageOneMore(ms: seq<Message>, m: Message)
    ensures StageAfter(ms + [m]) == Next(StageAfter(ms), m)
  {
    assert (ms + [m])[..|ms|] == ms;
  }

  /** In a sound history the messages after an assistant's calls are their results, one per call in
      order, as far as the history goes. */
  lemma ResultsFollowCalls(ms: seq<Message>, at: nat, k: nat)
    requires StageAfter(ms) != Broken
    requires at < |ms| && ms[at].Assistant? && k < |ms[at].calls| && at + 1 + k < |ms|
    ensures ms[at + 1 + k].ToolResult? && ms[at + 1 + k].id == ms[at].calls[k].id
  {
    StageInGroup(ms, at, k);
    PrefixNotBroken(ms, at + 2 + k);
    StagePrefix(ms, at + 1 + k);
    assert ms[at].calls[k..][0] == ms[at].calls[k];
  }

  lemma {:induction false} StageInGroup(ms: seq<Message>, at: nat, k: nat)
    requires StageAfter(ms) != Broken
    requires at < |ms| && ms[at].Assistant? && k < |ms[at].calls| && at + 1 + k <= |ms|
    ensures StageAfter(ms[..at + 1 + k]) == AwaitingResults(ms[at].calls[k..])
    decreases k
  {
    var calls := ms[at].calls;
    PrefixNotBroken(ms, at + 1 + k);
    if k == 0 {
      StagePrefix(ms, at);
      assert calls[0..] == calls;
    } else {
      StageInGroup(ms, at, k - 1);
      StagePrefix(ms, at + k);
      assert calls[k - 1..][1..] == calls[k..];
    }
  }

  lemma StagePrefix(ms: seq<Message>, n: nat)
    requires n < |ms|
    ensures StageAfter(ms[..n + 1]) == Next(StageAfter(ms[..n]), ms[n])
  {
    assert ms[..n + 1][..n] == ms[..n];
  }

  lemma {:induction false} PrefixNotBroken(ms: seq<Message>, n: nat)
    requires StageAfter(ms) != Broken && n <= |ms|
    ensures StageAfter(ms[..n]) != Broken
    decreases |ms|
  {
    if n == |ms| {
      assert ms[..n] == ms;
    } else {
      assert ms[..|ms| - 1][..n] == ms[..n];
      PrefixNotBroken(ms[..|ms| - 1], n);
    }
  }

  // ---------- the order of the events ----------

  /** Where an observer stands: the turn begun and the next identity to be minted, the call in
      flight, or the end. */
  datatype Watch = Open(turn: nat, next: nat) | InFlight(turn: nat, call: nat) | Over(turns: nat) | Wrong

  function Turns(outcome: AgentOutcome): nat {
    outcome.turns
  }

  function Sees(watch: Watch, event: AgentEvent): Watch {
    match watch
    case Open(turn, next) => SeesOpen(turn, next, event)
    case InFlight(turn, call) => if event.CommandReported? && event.call == call then Open(turn, call + 1) else Wrong
    case Over(_) => Wrong
    case Wrong => Wrong
  }

  function SeesOpen(turn: nat, next: nat, event: AgentEvent): Watch {
    if event.TurnStarted?
    then (if event.turn == turn + 1 && event.turn <= event.maxTurns then Open(turn + 1, next) else Wrong)
    else if event.Finished? then (if Turns(event.outcome) == turn then Over(turn) else Wrong)
    else if turn == 0 || event.CommandReported? then Wrong
    else if event.CommandSubmitted? then (if event.call >= next then InFlight(turn, event.call) else Wrong)
    else Open(turn, next)
  }

  function WatchAfter(events: seq<AgentEvent>, first: nat): Watch {
    if events == [] then Open(0, first) else Sees(WatchAfter(events[..|events| - 1], first), events[|events| - 1])
  }

  lemma WatchOneMore(events: seq<AgentEvent>, first: nat, event: AgentEvent)
    ensures WatchAfter(events + [event], first) == Sees(WatchAfter(events, first), event)
  {
    assert (events + [event])[..|events|] == events;
  }

  lemma {:induction false} WatchPrefix(events: seq<AgentEvent>, first: nat, n: nat)
    requires WatchAfter(events, first) != Wrong && n <= |events|
    ensures WatchAfter(events[..n], first) != Wrong
    ensures n < |events| ==>
      WatchAfter(events[..n + 1], first) == Sees(WatchAfter(events[..n], first), events[n]) != Wrong
    decreases |events|
  {
    if n == |events| {
      assert events[..n] == events;
    } else {
      var before := events[..|events| - 1];
      assert before[..n] == events[..n];
      WatchPrefix(before, first, n);
      if n + 1 < |events| {
        assert before[..n + 1] == events[..n + 1];
      } else {
        assert events[..n + 1] == events;
      }
    }
  }

  /** A command announced is reported right after, under the same identity; a report answers the
      announcement right before; nothing follows the end. */
  lemma SubmittedThenReported(events: seq<AgentEvent>, first: nat, i: nat)
    requires WatchAfter(events, first) != Wrong && !WatchAfter(events, first).InFlight? && i < |events|
    ensures events[i].CommandSubmitted? ==>
      i + 1 < |events| && events[i + 1].CommandReported? && events[i + 1].call == events[i].call
    ensures events[i].CommandReported? ==>
      i > 0 && events[i - 1].CommandSubmitted? && events[i - 1].call == events[i].call
    ensures events[i].Finished? ==> i == |events| - 1
  {
    WatchPrefix(events, first, i);
    if i + 1 < |events| {
      WatchPrefix(events, first, i + 1);
    } else {
      assert events[..i + 1] == events;
    }
    if i > 0 { WatchPrefix(events, first, i - 1); }
  }

  function Progress(watch: Watch): nat {
    match watch
    case Open(_, next) => 2 * next
    case InFlight(_, call) => 2 * call + 1
    case _ => 0
  }

  lemma {:induction false} ProgressGrows(events: seq<AgentEvent>, first: nat, i: nat, j: nat)
    requires WatchAfter(events, first) != Wrong && i <= j < |events|
    ensures Progress(WatchAfter(events[..i], first)) <= Progress(WatchAfter(events[..j], first))
    decreases j - i
  {
    if i < j {
      ProgressGrows(events, first, i + 1, j);
      WatchPrefix(events, first, i);
      WatchPrefix(events, first, i + 1);
    }
  }

  /** No two commands are announced under one identity. */
  lemma IdentitiesAreDistinct(events: seq<AgentEvent>, first: nat, i: nat, j: nat)
    requires WatchAfter(events, first) != Wrong
    requires i < j < |events| && events[i].CommandSubmitted? && events[j].CommandSubmitted?
    ensures events[i].call < events[j].call
  {
    ProgressGrows(events, first, i + 1, j);
    WatchPrefix(events, first, i);
    WatchPrefix(events, first, j);
  }

  // ---------- what the model is told, what the user is shown, what is released ----------

  /** What the results report, in order. */
  function Told(ms: seq<Message>): seq<ToolOutcome> {
    if ms == [] then []
    else
      var last := ms[|ms| - 1];
      Told(ms[..|ms| - 1]) + (if last.ToolResult? && last.content.Report? then [last.content.outcome] else [])
  }

  /** A command as the user is shown it: what was submitted, and the facts reported of it. */
  datatype Account = Account(call: nat, command: Commands.Command, facts: DispatchOutcome)

  function Accounts(events: seq<AgentEvent>): seq<Account> {
    if events == [] then []
    else
      var n := |events| - 1;
      Accounts(events[..n]) +
      (if events[n].CommandReported? && n > 0 && events[n - 1].CommandSubmitted?
       then [Account(events[n].call, events[n - 1].command, events[n].facts)] else [])
  }

  /** What the model is told of each: what the tier lets through of the facts the user is shown. */
  function ToldOf(world: World, tier: PrivacyTier, accounts: seq<Account>): seq<ToolOutcome> {
    if accounts == [] then []
    else
      var last := accounts[|accounts| - 1];
      ToldOf(world, tier, accounts[..|accounts| - 1]) + [FromDispatch(world, tier, last.facts, FocusOf(last.command))]
  }

  /** The calls whose rows the user is told were sent. */
  function SampledCalls(accounts: seq<Account>): seq<nat> {
    if accounts == [] then []
    else
      var last := accounts[|accounts| - 1];
      SampledCalls(accounts[..|accounts| - 1]) + (if last.facts.SampleRead? then [last.call] else [])
  }

  /** The calls whose release was recorded. */
  function RecordedCalls(releases: seq<Release>): seq<nat> {
    if releases == [] then []
    else
      var last := releases[|releases| - 1];
      RecordedCalls(releases[..|releases| - 1]) + (if last.recorded then [last.call] else [])
  }

  /** Rows were sent wherever the user is told they were. */
  ghost predicate RowsAreThere(world: World, tier: PrivacyTier, accounts: seq<Account>) {
    forall i :: 0 <= i < |accounts| && accounts[i].facts.SampleRead? ==>
      FromDispatch(world, tier, accounts[i].facts, FocusOf(accounts[i].command)).SampleShown?
  }

  /** What the assistant said, in order. */
  function Replies(ms: seq<Message>): seq<Message> {
    if ms == [] then []
    else
      var last := ms[|ms| - 1];
      Replies(ms[..|ms| - 1]) + (if last.Assistant? then [last] else [])
  }

  lemma ToldOneMore(ms: seq<Message>, m: Message)
    ensures Told(ms + [m]) == Told(ms) + (if m.ToolResult? && m.content.Report? then [m.content.outcome] else [])
    ensures Replies(ms + [m]) == Replies(ms) + (if m.Assistant? then [m] else [])
  {
    assert (ms + [m])[..|ms|] == ms;
  }

  lemma AccountsUnchanged(events: seq<AgentEvent>, event: AgentEvent)
    requires !event.CommandReported?
    ensures Accounts(events + [event]) == Accounts(events)
  {
    assert (events + [event])[..|events|] == events;
  }

  lemma OneMoreAccount(events: seq<AgentEvent>, submitted: AgentEvent, reported: AgentEvent)
    requires submitted.CommandSubmitted? && reported.CommandReported?
    ensures Accounts(events + [submitted] + [reported])
      == Accounts(events) + [Account(reported.call, submitted.command, reported.facts)]
  {
    AccountsUnchanged(events, submitted);
    assert (events + [submitted] + [reported])[..|events| + 1] == events + [submitted];
  }

  lemma OneMoreTold(world: World, tier: PrivacyTier, accounts: seq<Account>, account: Account)
    ensures ToldOf(world, tier, accounts + [account])
      == ToldOf(world, tier, accounts) + [FromDispatch(world, tier, account.facts, FocusOf(account.command))]
    ensures SampledCalls(accounts + [account])
      == SampledCalls(accounts) + (if account.facts.SampleRead? then [account.call] else [])
  {
    assert (accounts + [account])[..|accounts|] == accounts;
  }

  lemma OneMoreRelease(releases: seq<Release>, release: Release)
    ensures RecordedCalls(releases + [release])
      == RecordedCalls(releases) + (if release.recorded then [release.call] else [])
  {
    assert (releases + [release])[..|releases|] == releases;
  }

  lemma {:induction false} ToldAt(world: World, tier: PrivacyTier, accounts: seq<Account>, k: nat)
    requires k < |accounts|
    ensures |ToldOf(world, tier, accounts)| == |accounts|
    ensures ToldOf(world, tier, accounts)[k]
      == FromDispatch(world, tier, accounts[k].facts, FocusOf(accounts[k].command))
    decreases |accounts|
  {
    var n := |accounts| - 1;
    if k < n {
      ToldAt(world, tier, accounts[..n], k);
    } else if n > 0 {
      ToldAt(world, tier, accounts[..n], 0);
    }
  }

  lemma {:induction false} SampledHas(accounts: seq<Account>, call: nat)
    ensures call in SampledCalls(accounts) <==>
      exists i :: 0 <= i < |accounts| && accounts[i].call == call && accounts[i].facts.SampleRead?
    decreases |accounts|
  {
    if accounts != [] {
      var n := |accounts| - 1;
      SampledHas(accounts[..n], call);
      if i :| 0 <= i < |accounts| && accounts[i].call == call && accounts[i].facts.SampleRead? {
        if i < n { assert accounts[..n][i] == accounts[i]; }
      }
    }
  }

  /** Call by call: the model is given rows exactly when the user is told so, and then their release was
      recorded under that call's identity. */
  lemma RowsAreAccountedFor(world: World, tier: PrivacyTier, accounts: seq<Account>, releases: seq<Release>, k: nat)
    requires RowsAreThere(world, tier, accounts) && RecordedCalls(releases) == SampledCalls(accounts) && k < |accounts|
    ensures k < |ToldOf(world, tier, accounts)|
    ensures ToldOf(world, tier, accounts)[k].SampleShown? <==> accounts[k].facts.SampleRead?
    ensures accounts[k].facts.SampleRead? ==> accounts[k].call in RecordedCalls(releases)
  {
    ToldAt(world, tier, accounts, k);
    ShownOnlyWhenRead(world, tier, accounts[k].facts, FocusOf(accounts[k].command));
    if accounts[k].facts.SampleRead? { SampledHas(accounts, accounts[k].call); }
  }

  lemma ShownOnlyWhenRead(world: World, tier: PrivacyTier, facts: DispatchOutcome, focus: Option<string>)
    ensures FromDispatch(world, tier, facts, focus).SampleShown? ==> facts.SampleRead?
  {
  }

  /** The same facts, but for what a failure's message or a sample's rows say beyond the failure's code. */
  predicate SameButValues(world: World, facts: DispatchOutcome, others: DispatchOutcome) {
    || facts == others
    || (facts.Failed? && others.Failed? && facts.family == others.family
      && world.safeCode(facts.message) == world.safeCode(others.message))
    || (facts.SampleRead? && others.SampleRead? && facts.header == others.header)
  }

  /** The same renderings and the same codes, whatever else is answered. */
  ghost predicate RendersAlike(world: World, elsewhere: World) {
    && (forall catalog, focus :: world.renderCatalog(catalog, focus) == elsewhere.renderCatalog(catalog, focus))
    && (forall message :: world.safeCode(message) == elsewhere.safeCode(message))
  }

  /** Over a whole run, where the tier lets no value out, what the model is told does not depend on any
      failure's message but for its code, nor on any row, whatever else differs between the two worlds. */
  lemma {:induction false} ValuesStayHome(world: World, elsewhere: World, tier: PrivacyTier,
                                          accounts: seq<Account>, others: seq<Account>)
    requires RendersAlike(world, elsewhere) && !tier.AllowsRowValues() && |accounts| == |others|
    requires forall i :: 0 <= i < |accounts| ==>
      accounts[i].command == others[i].command && SameButValues(world, accounts[i].facts, others[i].facts)
    ensures ToldOf(world, tier, accounts) == ToldOf(elsewhere, tier, others)
    decreases |accounts|
  {
    if accounts != [] {
      var n := |accounts| - 1;
      ValuesStayHome(world, elsewhere, tier, accounts[..n], others[..n]);
      var facts, other := accounts[n].facts, others[n].facts;
      if facts.SampleRead? && other.SampleRead? {
        SampleShownExactly(tier, facts.header, facts.rows);
        SampleShownExactly(tier, other.header, other.rows);
      }
    }
  }

  // ---------- what one turn of the model gives ----------

  /** What a stream of events read so far amounts to. */
  datatype Draft = Draft(
    text: string, calls: seq<Proposed>, reasoning: seq<Block>, refusal: string,
    failure: Option<string>, stop: StopReason)

  const EMPTY_DRAFT := Draft("", [], [], "", None, Unspecified)

  function Heard(d: Draft, event: ChatEvent): Draft {
    match event
    case TextDelta(text) => d.(text := d.text + text)
    case RefusalDelta(text) => d.(refusal := d.refusal + text)
    case ReasoningComplete(block) => d.(reasoning := d.reasoning + [block])
    case ToolCallComplete(call) => d.(calls := d.calls + [Proposed(call, None)])
    case ToolCallInvalid(id, name, detail) => d.(calls := d.calls + [Proposed(ToolCall(id, name, "{}"), Some(detail))])
    case StreamError(message) => d.(failure := Some(message))
    case Closed(stop) => d.(stop := stop)
    case _ => d
  }

  function Read(stream: seq<ChatEvent>): Draft {
    if stream == [] then EMPTY_DRAFT else Heard(Read(stream[..|stream| - 1]), stream[|stream| - 1])
  }

  /** What the observer is shown of a stream event. */
  function Shown(event: ChatEvent): seq<AgentEvent> {
    match event
    case TextDelta(text) => [TextShown(text)]
    case ToolCallStarted(index, name) => [ToolCallDrafted(index, name)]
    case ToolCallDelta(index, arguments) => [ToolArgumentsDelta(index, arguments)]
    case ReasoningDelta(text) => [AgentEvent.ThinkingDelta(text)]
    case ReasoningComplete(block) => if block.Redacted? then [ThinkingRedacted] else []
    case Usage(tokens) => [UsageReported(tokens)]
    case _ => []
  }

  function ShownAll(stream: seq<ChatEvent>): seq<AgentEvent> {
    if stream == [] then [] else ShownAll(stream[..|stream| - 1]) + Shown(stream[|stream| - 1])
  }

  function TextIn(events: seq<AgentEvent>): string {
    if events == [] then ""
    else TextIn(events[..|events| - 1]) + (if events[|events| - 1].TextShown? then events[|events| - 1].text else "")
  }

  lemma TextShownStep(events: seq<AgentEvent>, event: ChatEvent)
    ensures TextIn(events + Shown(event)) == TextIn(events) + (if event.TextDelta? then event.text else "")
  {
    var shown := Shown(event);
    if shown == [] {
      assert events + shown == events;
    } else {
      assert shown == [shown[0]];
      assert (events + shown)[..|events|] == events;
    }
  }

  lemma HeardText(d: Draft, event: ChatEvent)
    ensures Heard(d, event).text == d.text + (if event.TextDelta? then event.text else "")
  {
  }

  /** The text kept is the text that was shown, fragment by fragment. */
  lemma {:induction false} KeptTextWasShown(stream: seq<ChatEvent>)
    ensures Read(stream).text == TextIn(ShownAll(stream))
  {
    if stream != [] {
      var n := |stream| - 1;
      KeptTextWasShown(stream[..n]);
      TextShownStep(ShownAll(stream[..n]), stream[n]);
      HeardText(Read(stream[..n]), stream[n]);
    }
  }

  /** Neither a turn, nor a command, nor a report, nor the end. */
  predicate Quiet(event: AgentEvent) {
    !event.TurnStarted? && !event.CommandSubmitted? && !event.CommandReported? && !event.Finished?
  }

  lemma ShownIsQuiet(event: ChatEvent)
    ensures forall e :: e in Shown(event) ==> Quiet(e)
  {
  }

  lemma {:induction false} StreamIsQuiet(stream: seq<ChatEvent>)
    ensures forall e :: e in ShownAll(stream) ==> Quiet(e)
  {
    if stream != [] {
      StreamIsQuiet(stream[..|stream| - 1]);
      ShownIsQuiet(stream[|stream| - 1]);
    }
  }

  /** Quiet events carry no report and move no watch. */
  lemma {:induction false} QuietKeepsWatch(events: seq<AgentEvent>, first: nat, more: seq<AgentEvent>)
    requires WatchAfter(events, first).Open? && WatchAfter(events, first).turn > 0
    requires forall e :: e in more ==> Quiet(e)
    ensures WatchAfter(events + more, first) == WatchAfter(events, first)
    ensures Accounts(events + more) == Accounts(events)
    decreases |more|
  {
    if more == [] {
      assert events + more == events;
    } else {
      var n := |more| - 1;
      QuietKeepsWatch(events, first, more[..n]);
      var before := events + more[..n];
      assert events + more == before + [more[n]] && Quiet(more[n]);
      assert (before + [more[n]])[..|before|] == before;
    }
  }

  function CallsOf(proposed: seq<Proposed>): (calls: seq<ToolCall>)
    ensures |calls| == |proposed|
  {
    seq(|proposed|, i requires 0 <= i < |proposed| => proposed[i].call)
  }

  /** The message keeps what was read of the stream of that turn: its text, its reasoning, its calls. */
  ghost predicate SaidIn(world: World, m: Message, turn: nat) {
    world.stream(turn).Ok? && exists n: nat ::
      n <= |world.stream(turn).value| && Keeps(m, Read(world.stream(turn).value[..n]))
  }

  predicate Keeps(m: Message, draft: Draft) {
    m == Assistant(draft.text, draft.reasoning, CallsOf(draft.calls))
  }

  /** Each reply is what the model said in its turn. */
  ghost predicate AsSaid(world: World, replies: seq<Message>) {
    forall k: nat :: k < |replies| ==> SaidIn(world, replies[k], k + 1)
  }
}
