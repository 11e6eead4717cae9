/** What a turn keeps of the stream it read, and what is shown of it, said of the events themselves. */
module AgentStreams {
  import opened Options
  import opened AgentTools
  import opened AgentProtocol
  import opened AgentHistory

  /** The wanted events, all of them, in order. */
  function Only(stream: seq<ChatEvent>, wanted: ChatEvent -> bool): seq<ChatEvent> {
    if stream == [] then []
    else
      var last := stream[|stream| - 1];
      Only(stream[..|stream| - 1], wanted) + (if wanted(last) then [last] else [])
  }

  // ---------- the calls ----------

  predicate IsCall(event: ChatEvent) {
    event.ToolCallComplete? || event.ToolCallInvalid?
  }

  /** The call of an event: itself when complete; an unreadable one keeps its identity and name, with no
      arguments, and says what was wrong with them. */
  predicate IsCallOf(proposed: Proposed, event: ChatEvent) {
    && (event.ToolCallComplete? ==> proposed.call == event.call && proposed.unreadable.None?)
    && (event.ToolCallInvalid? ==>
          && proposed.call.id == event.id && proposed.call.name == event.name && proposed.call.arguments == "{}"
          && proposed.unreadable == Some(event.detail))
  }

  ghost predicate AreCallsOf(calls: seq<Proposed>, events: seq<ChatEvent>) {
    |calls| == |events| && forall k :: 0 <= k < |calls| ==> IsCallOf(calls[k], events[k])
  }

  lemma OneMoreCall(d: Draft, events: seq<ChatEvent>, event: ChatEvent)
    requires AreCallsOf(d.calls, events)
    ensures AreCallsOf(Heard(d, event).calls, events + (if IsCall(event) then [event] else []))
  {
  }

  /** The calls proposed are those of the stream, one for one and in order. */
  lemma {:induction false} CallsAreTheModels(stream: seq<ChatEvent>)
    ensures AreCallsOf(Read(stream).calls, Only(stream, IsCall))
  {
    if stream != [] {
      var n := |stream| - 1;
      CallsAreTheModels(stream[..n]);
      OneMoreCall(Read(stream[..n]), Only(stream[..n], IsCall), stream[n]);
    }
  }

  // ---------- the reasoning ----------

  predicate IsBlock(event: ChatEvent) {
    event.ReasoningComplete?
  }

  ghost predicate AreBlocksOf(blocks: seq<Block>, events: seq<ChatEvent>) {
    |blocks| == |events| && forall k :: 0 <= k < |blocks| ==> IsBlock(events[k]) && blocks[k] == events[k].block
  }

  lemma OneMoreBlock(d: Draft, events: seq<ChatEvent>, event: ChatEvent)
    requires AreBlocksOf(d.reasoning, events)
    ensures AreBlocksOf(Heard(d, event).reasoning, events + (if IsBlock(event) then [event] else []))
  {
  }

  /** The reasoning kept is the stream's blocks, as they came and in order. */
  lemma {:induction false} ReasoningIsKeptWhole(stream: seq<ChatEvent>)
    ensures AreBlocksOf(Read(stream).reasoning, Only(stream, IsBlock))
  {
    if stream != [] {
      var n := |stream| - 1;
      ReasoningIsKeptWhole(stream[..n]);
      OneMoreBlock(Read(stream[..n]), Only(stream[..n], IsBlock), stream[n]);
    }
  }

  // ---------- text and refusal ----------

  predicate IsText(event: ChatEvent) {
    event.TextDelta?
  }

  predicate IsRefusal(event: ChatEvent) {
    event.RefusalDelta?
  }

  /** The fragments of these events, joined. */
  function Fragments(events: seq<ChatEvent>): string {
    if events == [] then "" else Fragments(events[..|events| - 1]) + FragmentOf(events[|events| - 1])
  }

  function FragmentOf(event: ChatEvent): string {
    if IsText(event) || IsRefusal(event) then event.text else ""
  }

  lemma OneMoreFragment(events: seq<ChatEvent>, event: ChatEvent, wanted: ChatEvent -> bool)
    ensures Fragments(events + (if wanted(event) then [event] else []))
         == Fragments(events) + (if wanted(event) then FragmentOf(event) else "")
  {
    if wanted(event) {
      assert (events + [event])[..|events|] == events;
    } else {
      assert events + [] == events;
    }
  }

  lemma HeardFragments(d: Draft, event: ChatEvent)
    ensures Heard(d, event).text == d.text + (if IsText(event) then event.text else "")
    ensures Heard(d, event).refusal == d.refusal + (if IsRefusal(event) then event.text else "")
  {
  }

  /** The text and the refusal are their own fragments, joined in order; one never passes for the other. */
  lemma {:induction false} TextAndRefusalAreApart(stream: seq<ChatEvent>)
    ensures Read(stream).text == Fragments(Only(stream, IsText))
    ensures Read(stream).refusal == Fragments(Only(stream, IsRefusal))
  {
    if stream != [] {
      var n := |stream| - 1;
      TextAndRefusalAreApart(stream[..n]);
      HeardFragments(Read(stream[..n]), stream[n]);
      OneMoreFragment(Only(stream[..n], IsText), stream[n], IsText);
      OneMoreFragment(Only(stream[..n], IsRefusal), stream[n], IsRefusal);
    }
  }

  // ---------- the failure and the stop ----------

  predicate IsError(event: ChatEvent) {
    event.StreamError?
  }

  predicate IsClose(event: ChatEvent) {
    event.Closed?
  }

  function LastFailure(events: seq<ChatEvent>): Option<string> {
    if events != [] && IsError(events[|events| - 1]) then Some(events[|events| - 1].message) else None
  }

  function LastStop(events: seq<ChatEvent>): StopReason {
    if events != [] && IsClose(events[|events| - 1]) then events[|events| - 1].stop else Unspecified
  }

  /** The failure is the last error of the stream, and there is none without one; the stop is that of the
      event that closes it, unspecified without one. */
  lemma {:induction false} FailureAndStopAreTheLast(stream: seq<ChatEvent>)
    ensures Read(stream).failure == LastFailure(Only(stream, IsError))
    ensures Read(stream).stop == LastStop(Only(stream, IsClose))
  {
    if stream != [] {
      var n := |stream| - 1;
      FailureAndStopAreTheLast(stream[..n]);
      HeardEnding(Read(stream[..n]), stream[n]);
    }
  }

  lemma HeardEnding(d: Draft, event: ChatEvent)
    ensures Heard(d, event).failure == if IsError(event) then Some(event.message) else d.failure
    ensures Heard(d, event).stop == if IsClose(event) then event.stop else d.stop
  {
  }

  // ---------- what is shown ----------

  predicate IsVisible(event: ChatEvent) {
    || event.TextDelta? || event.ToolCallStarted? || event.ToolCallDelta? || event.ReasoningDelta? || event.Usage?
    || (event.ReasoningComplete? && event.block.Redacted?)
  }

  /** What the user sees of an event, while it is read. */
  predicate IsSightOf(shown: AgentEvent, event: ChatEvent) {
    match event
    case TextDelta(text) => shown == TextShown(text)
    case ToolCallStarted(index, name) => shown == ToolCallDrafted(index, name)
    case ToolCallDelta(index, arguments) => shown == ToolArgumentsDelta(index, arguments)
    case ReasoningDelta(text) => shown == AgentEvent.ThinkingDelta(text)
    case ReasoningComplete(_) => shown == ThinkingRedacted
    case Usage(tokens) => shown == UsageReported(tokens)
    case _ => false
  }

  ghost predicate AreSightsOf(shown: seq<AgentEvent>, events: seq<ChatEvent>) {
    |shown| == |events| && forall k :: 0 <= k < |shown| ==> IsSightOf(shown[k], events[k])
  }

  lemma OneMoreSight(shown: seq<AgentEvent>, events: seq<ChatEvent>, event: ChatEvent)
    requires AreSightsOf(shown, events)
    ensures AreSightsOf(shown + Shown(event), events + (if IsVisible(event) then [event] else []))
  {
  }

  /** The user sees every visible event of the stream once, in order, and nothing else of it. */
  lemma {:induction false} ShownOneForOne(stream: seq<ChatEvent>)
    ensures AreSightsOf(ShownAll(stream), Only(stream, IsVisible))
  {
    if stream != [] {
      var n := |stream| - 1;
      ShownOneForOne(stream[..n]);
      OneMoreSight(ShownAll(stream[..n]), Only(stream[..n], IsVisible), stream[n]);
    }
  }
}
