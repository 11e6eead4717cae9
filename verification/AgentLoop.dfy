/** The agent loop: turns with the model, tool calls submitted to the command bus, and the
    history and events that come of it.
  */
module AgentLoop {
  import opened Options
  import opened AgentTools
  import opened AgentProtocol
  import opened AgentHistory

  datatype Stop = PlainAnswer | Refusing | Pausing

  function StopOf(reason: StopReason): Stop {
    match reason
    case ContentFilter => Refusing
    case Refusal => Refusing
    case Paused => Pausing
    case _ => PlainAnswer
  }

  /** What cuts a group short. */
  datatype Cut = ByTheUser | ByACall(error: AiError)

  /** What a call comes to: what the model reads, what is shown, what is released. */
  datatype Effect = Effect(content: Content, events: seq<AgentEvent>, releases: seq<Release>, next: nat)

  function EffectOf(world: World, tier: PrivacyTier, next: nat, tool: string,
                    understood: Result<ToolRequest, AiError>): Effect
  {
    match understood
    case Err(error) => Effect(Rejection(error), [CallRejected(tool, error)], [], next)
    case Ok(request) =>
      var settled := Reported(world, tier, next, request);
      Effect(Report(settled.outcome),
             [CommandSubmitted(next, tool, request.Read()),
              CommandReported(next, tool, settled.facts, WithholdsFrom(settled.outcome, settled.facts))],
             if settled.asked then [Release(next, world.records(next))] else [],
             next + 1)
  }

  /** What a call leaves behind: a refused one only its rejection; another its announcement, and its report
      under the same identity, with a gap announced exactly when a failure's message was held back; and a
      release exactly when rows were to leave. */
  lemma EffectSays(world: World, tier: PrivacyTier, next: nat, tool: string, understood: Result<ToolRequest, AiError>)
    ensures var effect := EffectOf(world, tier, next, tool, understood);
      if understood.Err? then
        && effect.content == Rejection(understood.error) && effect.next == next
        && effect.events == [CallRejected(tool, understood.error)] && effect.releases == []
      else
        && effect.content.Report? && effect.next == next + 1 && |effect.events| == 2
        && effect.events[0] == CommandSubmitted(next, tool, understood.value.Read())
        && effect.events[1].CommandReported? && effect.events[1].call == next && effect.events[1].tool == tool
        && (effect.events[1].withheld <==> effect.events[1].facts.Failed? && tier != Sampled)
        && (effect.events[1].facts.SampleRead? <==> effect.content.outcome.SampleShown?)
        && |effect.releases| <= 1
        && (effect.content.outcome.SampleShown? ==> effect.releases == [Release(next, true)])
        && (effect.releases != [] ==> tier == Sampled && effect.releases == [Release(next, world.records(next))])
  {
    if understood.Ok? {
      WithheldExactly(world, tier, next, understood.value);
      RowsReachTheModelOnlyWhenReleased(world, tier, next, understood.value);
    }
  }

  lemma StopsExactly(reason: StopReason)
    ensures StopOf(reason) == Refusing <==> reason == ContentFilter || reason == StopReason.Refusal
    ensures StopOf(reason) == Pausing <==> reason == Paused
  {
  }

  /** One conversation: what is imposed on it, what the world answers, and what it has accumulated. */
  class Conversation {
    const world: World
    const tier: PrivacyTier
    const reach: Reach
    const tools: seq<ToolDefinition>
    const allowed: seq<string>
    const scope: ToolScope
    const maxTurns: nat

    var messages: seq<Message>
    var events: seq<AgentEvent>
    var releases: seq<Release>
    var nextCall: nat
    var polls: nat

    constructor (world: World, tier: PrivacyTier, reach: Reach, tools: seq<ToolDefinition>, allowed: seq<string>,
                 scope: ToolScope, maxTurns: nat, system: string)
      ensures this.world == world && this.tier == tier && this.reach == reach
      ensures this.tools == tools && this.allowed == allowed && this.scope == scope && this.maxTurns == maxTurns
      ensures messages == [System(system)] && events == [] && releases == [] && nextCall == 0 && polls == 0
    {
      this.world, this.tier, this.reach := world, tier, reach;
      this.tools, this.allowed, this.scope, this.maxTurns := tools, allowed, scope, maxTurns;
      messages, events, releases, nextCall, polls := [System(system)], [], [], 0, 0;
    }

    method IsCancelled() returns (answer: bool)
      modifies this`polls
      ensures polls == old(polls) + 1 && answer == world.cancelled(old(polls))
    {
      answer := world.cancelled(polls);
      polls := polls + 1;
    }

    /** Handles one proposed call. What the model reads, the user sees and the record holds is
        settled by the call alone; of a refused one nothing is said but its rejection, and one the model
        cannot correct ends the conversation, with nothing done. */
    method RunToolCall(call: ToolCall) returns (r: Result<Content, AiError>)
      modifies this`events, this`releases, this`nextCall
      ensures var understood := AgentTools.Request(tools, call, allowed, scope);
        if Aborting(understood)
        then r == Err(understood.error) && events == old(events) && releases == old(releases)
          && nextCall == old(nextCall)
        else
          var effect := EffectOf(world, tier, old(nextCall), call.name, understood);
          && r == Ok(effect.content) && nextCall == effect.next
          && events == old(events) + effect.events && releases == old(releases) + effect.releases
    {
      var translated := AgentTools.Request(tools, call, allowed, scope);
      if translated.Err? {
        if !translated.error.IsRecoverableByModel() {
          return Err(translated.error);
        }
        events := events + [CallRejected(call.name, translated.error)];
        return Ok(Rejection(translated.error));
      }
      var request := translated.value;
      var id := nextCall;
      nextCall := nextCall + 1;
      events := events + [CommandSubmitted(id, call.name, request.Read())];
      var facts;
      match request {
        case Sample(ask) =>
          if !tier.AllowsRowValues() {
            facts := Denied(TIER_LETS_NO_VALUE_OUT);
          } else {
            facts := world.requestSample(id, ask);
          }
        case Dispatch(command) =>
          facts := world.dispatch(id, command);
      }
      var outcome := FromDispatch(world, tier, facts, FocusOf(request.Read()));
      outcome, facts := SettleSample(id, outcome, facts);
      events := events + [CommandReported(id, call.name, facts, WithholdsFrom(outcome, facts))];
      r := Ok(Report(outcome));
    }

    /** Releases a rendered sample, or says what happened instead. The release is asked for at most
        once, and only for rows the rendering kept. */
    method SettleSample(id: nat, outcome: ToolOutcome, facts: DispatchOutcome)
      returns (settled: ToolOutcome, reported: DispatchOutcome)
      modifies this`releases
      ensures var s := Settled(outcome, facts, world.records(id));
        && settled == s.outcome && reported == s.facts
        && releases == old(releases) + (if s.asked then [Release(id, world.records(id))] else [])
    {
      settled, reported := outcome, facts;
      if facts.SampleRead? {
        if outcome.SampleShown? {
          var recorded := world.records(id);
          releases := releases + [Release(id, recorded)];
          if !recorded {
            settled, reported := Refused(SAMPLE_UNRECORDED), Denied(SAMPLE_UNRECORDED);
          }
        } else if outcome.Refused? {
          reported := Denied(outcome.reason);
        }
      }
    }

    /** Some poll of the cancellation made since answered yes. */
    ghost predicate CancelSeen(since: nat)
      reads this`polls
    {
      exists p: nat :: since <= p < polls && world.cancelled(p)
    }

    /** Reads the stream until it ends, is closed, goes over the budget or the user cancels. */
    method ReadStream(index: nat, stream: seq<ChatEvent>)
      returns (draft: Draft, overrun: Option<string>, ghost read: nat)
      requires world.CancelsForGood()
      modifies this`events, this`polls
      ensures polls >= old(polls) && read <= |stream|
      ensures events == old(events) + ShownAll(stream[..read]) && draft == Read(stream[..read])
      ensures StillOpen(stream, read - 1)
      ensures overrun.Some? ==> !CancelSeen(old(polls)) && read < |stream| && world.overrun(index, read) == overrun
      ensures overrun.None? && !CancelSeen(old(polls)) ==> read == |stream| || (read > 0 && stream[read - 1].Closed?)
      ensures CancelSeen(old(polls)) ==> world.cancelled(polls)
    {
      draft, overrun, read := EMPTY_DRAFT, None, |stream|;
      assert stream[..0] == [] && stream[..|stream|] == stream;
      for i := 0 to |stream|
        invariant events == old(events) + ShownAll(stream[..i]) && draft == Read(stream[..i])
        invariant StillOpen(stream, i) && overrun.None?
        invariant polls >= old(polls) && !CancelSeen(old(polls))
      {
        overrun := world.overrun(index, i);
        if overrun.Some? {
          return draft, overrun, i;
        }
        var halted;
        draft, halted := HearEvent(draft, stream, i, old(events), old(polls));
        if halted {
          return draft, None, i + 1;
        }
      }
    }

    /** Shows an event and takes it in; reading halts once the stream is closed or the user cancelled. */
    method HearEvent(draft: Draft, stream: seq<ChatEvent>, i: nat, ghost e0: seq<AgentEvent>, ghost since: nat)
      returns (heard: Draft, halted: bool)
      requires world.CancelsForGood() && since <= polls && !CancelSeen(since) && i < |stream|
      requires events == e0 + ShownAll(stream[..i]) && draft == Read(stream[..i])
      modifies this`events, this`polls
      ensures events == e0 + ShownAll(stream[..i + 1]) && heard == Read(stream[..i + 1]) && polls >= old(polls)
      ensures halted <==> stream[i].Closed? || CancelSeen(since)
      ensures CancelSeen(since) ==> world.cancelled(polls)
    {
      ReadOneMore(stream, i);
      events := events + Shown(stream[i]);
      heard := Heard(draft, stream[i]);
      halted := stream[i].Closed?;
      if !halted {
        halted := PollOnce(since);
      }
    }

    /** Polls, where no poll made since said yes. */
    method PollOnce(ghost since: nat) returns (answer: bool)
      requires world.CancelsForGood() && since <= polls
      requires CancelSeen(since) ==> world.cancelled(polls)
      modifies this`polls
      ensures polls == old(polls) + 1
      ensures answer <==> CancelSeen(since)
      ensures answer ==> world.cancelled(polls)
    {
      ghost var asked := polls;
      answer := IsCancelled();
      if answer {
        assert since <= asked < polls && world.cancelled(asked);
      }
    }

    /** Sends the history once and reads the answer. What was read of the stream decides the turn; a turn that
        ended well was read to its end, and a cancelled one proposes nothing. */
    method OneTurn(index: nat) returns (r: Result<Turn, AiError>, ghost read: nat)
      requires world.CancelsForGood()
      modifies this`events, this`polls
      ensures polls >= old(polls)
      ensures world.stream(index).Err? ==>
        r == Err(world.stream(index).error) && events == old(events) && polls == old(polls)
      ensures world.stream(index).Ok? ==>
        var stream := world.stream(index).value;
        && read <= |stream| && events == old(events) + ShownAll(stream[..read])
        && StillOpen(stream, read - 1)
      ensures r.Ok? ==>
        && world.stream(index).Ok?
        && var draft, turn := Read(world.stream(index).value[..read]), r.value;
          && turn.text == draft.text && turn.reasoning == draft.reasoning && turn.refusal == draft.refusal
          && turn.stop == draft.stop && turn.truncated == draft.stop.IsTruncated()
          && turn.calls == (if turn.cancelled then [] else draft.calls)
          && (turn.cancelled <==> draft.stop == StoppedByCaller || CancelSeen(old(polls)))
      ensures r.Ok? && !r.value.cancelled ==>
        && !r.value.stop.IsAmbiguous() && Read(world.stream(index).value[..read]).failure == None
        && (read == |world.stream(index).value| || (read > 0 && world.stream(index).value[read - 1].Closed?))
      ensures r.Err? ==> !CancelSeen(old(polls)) && TurnFails(world, index, r.error)
    {
      read := 0;
      var answer := world.stream(index);
      if answer.Err? {
        return Err(answer.error), 0;
      }
      var draft, overrun;
      draft, overrun, read := ReadStream(index, answer.value);
      if overrun.Some? {
        assert FailsAfter(world, index, answer.value, read, Interrupted(overrun.value));
        return Err(Interrupted(overrun.value)), read;
      }
      assert Read(answer.value[..read]) == draft;
      var cancelled := PollOnce(old(polls));
      cancelled := cancelled || draft.stop == StoppedByCaller;
      if !cancelled {
        if draft.stop.IsAmbiguous() {
          var error := Interrupted(if draft.failure.Some? then draft.failure.value else UNCLOSED);
          assert FailsAfter(world, index, answer.value, read, error);
          return Err(error), read;
        }
        if draft.failure.Some? {
          assert FailsAfter(world, index, answer.value, read, Provider(draft.failure.value));
          return Err(Provider(draft.failure.value)), read;
        }
      }
      r := Ok(Turn(draft.text, if cancelled then [] else draft.calls, draft.reasoning, draft.refusal,
                   draft.stop, draft.stop.IsTruncated(), cancelled));
    }

    /** What was added since a start: messages, events and releases that agree with each other. */
    ghost predicate Grown(m0: seq<Message>, e0: seq<AgentEvent>, r0: seq<Release>, n0: nat, turn: nat)
      reads this`messages, this`events, this`releases, this`nextCall
    {
      && m0 <= messages && e0 <= events && r0 <= releases
      && Sound(messages[|m0|..], events[|e0|..], releases[|r0|..], n0, nextCall, turn, world, tier)
    }

    /** Whole groups, one reply a turn, and no call left open. */
    ghost predicate BetweenTurns(m0: seq<Message>, turns: int)
      reads this`messages
    {
      m0 <= messages && StageAfter(messages[|m0|..]) == Between && |Replies(messages[|m0|..])| == turns
    }

    /** How a call is understood: unreadable arguments reject it before anything else. */
    function Understood(proposed: Proposed): Result<ToolRequest, AiError> {
      if proposed.unreadable.Some?
      then Err(InvalidArguments(proposed.call.name, proposed.unreadable.value))
      else AgentTools.Request(tools, proposed.call, allowed, scope)
    }

    /** Some call the registry refuses for what no model can correct. */
    ghost predicate AbortedBy(error: AiError) {
      exists call: ToolCall :: AbortsWith(call, error)
    }

    predicate AbortsWith(call: ToolCall, error: AiError) {
      Aborting(AgentTools.Request(tools, call, allowed, scope))
        && AgentTools.Request(tools, call, allowed, scope).error == error
    }

    /** What the model reads in answer to a call, the agreement of messages, events and releases kept. */
    method ContentFor(proposed: Proposed, ghost m0: seq<Message>, ghost e0: seq<AgentEvent>, ghost r0: seq<Release>,
                      ghost n0: nat, ghost turn: nat)
      returns (r: Result<Content, AiError>)
      requires turn > 0 && Grown(m0, e0, r0, n0, turn)
      modifies this`events, this`releases, this`nextCall
      ensures e0 <= events && r0 <= releases
      ensures if Aborting(Understood(proposed))
        then r == Err(Understood(proposed).error) && Grown(m0, e0, r0, n0, turn)
        else
          && r == Ok(EffectOf(world, tier, old(nextCall), proposed.call.name, Understood(proposed)).content)
          && Sound(messages[|m0|..] + [ToolResult(proposed.call.id, r.value)], events[|e0|..], releases[|r0|..], n0,
            nextCall, turn, world, tier)
    {
      ghost var es, rs, id := events[|e0|..], releases[|r0|..], nextCall;
      r := Answer(proposed);
      if r.Ok? {
        ghost var effect := EffectOf(world, tier, id, proposed.call.name, Understood(proposed));
        SliceGrows(e0, old(events), effect.events);
        SliceGrows(r0, old(releases), effect.releases);
        SoundEffect(messages[|m0|..], es, rs, n0, id, turn, world, tier, proposed.call.id, proposed.call.name,
          Understood(proposed));
      }
    }

    method Answer(proposed: Proposed) returns (r: Result<Content, AiError>)
      modifies this`events, this`releases, this`nextCall
      ensures if Aborting(Understood(proposed))
        then r == Err(Understood(proposed).error) && events == old(events) && releases == old(releases)
          && nextCall == old(nextCall)
        else
          var effect := EffectOf(world, tier, old(nextCall), proposed.call.name, Understood(proposed));
          && r == Ok(effect.content) && nextCall == effect.next
          && events == old(events) + effect.events && releases == old(releases) + effect.releases
    {
      if proposed.unreadable.None? {
        r := RunToolCall(proposed.call);
        return;
      }
      var error := InvalidArguments(proposed.call.name, proposed.unreadable.value);
      events := events + [CallRejected(proposed.call.name, error)];
      r := Ok(Rejection(error));
    }

    /** Answers one call with its result, unless it ends the conversation. */
    method AnswerCall(proposed: Proposed, ghost m0: seq<Message>, ghost e0: seq<AgentEvent>, ghost r0: seq<Release>,
                      ghost n0: nat, ghost turn: nat)
      returns (aborted: Option<AiError>)
      requires turn > 0 && Grown(m0, e0, r0, n0, turn)
      modifies this`messages, this`events, this`releases, this`nextCall
      ensures Grown(m0, e0, r0, n0, turn)
      ensures aborted == if Aborting(Understood(proposed)) then Some(Understood(proposed).error) else None
      ensures messages == if aborted.Some? then old(messages) else
        old(messages) + [ToolResult(proposed.call.id,
          EffectOf(world, tier, old(nextCall), proposed.call.name, Understood(proposed)).content)]
      ensures Replies(messages[|m0|..]) == Replies(old(messages)[|m0|..])
    {
      var content := ContentFor(proposed, m0, e0, r0, n0, turn);
      if content.Err? {
        return Some(content.error);
      }
      SliceGrows(m0, messages, [ToolResult(proposed.call.id, content.value)]);
      ToldOneMore(messages[|m0|..], ToolResult(proposed.call.id, content.value));
      messages := messages + [ToolResult(proposed.call.id, content.value)];
      aborted := None;
    }

    /** Answers the calls of one turn, in order, until the user cancels or one ends the conversation. */
    method AnswerCalls(calls: seq<Proposed>, ghost m0: seq<Message>, ghost e0: seq<AgentEvent>, ghost r0: seq<Release>,
                       ghost n0: nat, ghost turn: nat)
      returns (cut: Option<Cut>)
      requires world.CancelsForGood()
      requires turn > 0 && calls != [] && Grown(m0, e0, r0, n0, turn)
      requires StageAfter(messages[|m0|..]) == AwaitingResults(CallsOf(calls))
      modifies this`messages, this`events, this`releases, this`nextCall, this`polls
      ensures Grown(m0, e0, r0, n0, turn) && polls >= old(polls)
      ensures cut == Some(ByTheUser) <==> CancelSeen(old(polls))
      ensures if cut.Some? then StageAfter(messages[|m0|..]).AwaitingResults?
        else StageAfter(messages[|m0|..]) == Between
      ensures cut.Some? && cut.value.ByACall? ==> AbortedBy(cut.value.error)
      ensures Replies(messages[|m0|..]) == Replies(old(messages)[|m0|..])
    {
      var i := 0;
      cut := None;
      assert calls[0..] == calls;
      while i < |calls| && cut.None?
        invariant i <= |calls| && polls >= old(polls)
        invariant Grown(m0, e0, r0, n0, turn)
        invariant Replies(messages[|m0|..]) == Replies(old(messages)[|m0|..])
        invariant cut == Some(ByTheUser) <==> CancelSeen(old(polls))
        invariant cut.None? ==>
          StageAfter(messages[|m0|..]) == if i < |calls| then AwaitingResults(CallsOf(calls[i..])) else Between
        invariant cut.Some? ==> StageAfter(messages[|m0|..]).AwaitingResults?
        invariant cut.Some? && cut.value.ByACall? ==> AbortedBy(cut.value.error)
        decreases |calls| - i, cut.None?
      {
        cut := AnswerNext(calls[i..], old(polls), m0, e0, r0, n0, turn);
        if cut.None? {
          assert calls[i..][1..] == calls[i + 1..];
          i := i + 1;
        }
      }
    }

    /** Answers the next call, unless the user cancelled. */
    method AnswerNext(calls: seq<Proposed>, ghost since: nat, ghost m0: seq<Message>, ghost e0: seq<AgentEvent>,
                      ghost r0: seq<Release>, ghost n0: nat, ghost turn: nat)
      returns (cut: Option<Cut>)
      requires world.CancelsForGood() && since <= polls && !CancelSeen(since)
      requires turn > 0 && calls != [] && Grown(m0, e0, r0, n0, turn)
      requires StageAfter(messages[|m0|..]) == AwaitingResults(CallsOf(calls))
      modifies this`messages, this`events, this`releases, this`nextCall, this`polls
      ensures Grown(m0, e0, r0, n0, turn) && polls >= old(polls)
      ensures Replies(messages[|m0|..]) == Replies(old(messages)[|m0|..])
      ensures cut == Some(ByTheUser) <==> CancelSeen(since)
      ensures cut.Some? ==> StageAfter(messages[|m0|..]).AwaitingResults?
      ensures cut.None? ==>
        StageAfter(messages[|m0|..]) == if |calls| > 1 then AwaitingResults(CallsOf(calls[1..])) else Between
      ensures cut.Some? && cut.value.ByACall? ==> AbortedBy(cut.value.error)
    {
      var stop := PollOnce(since);
      if stop {
        return Some(ByTheUser);
      }
      ghost var before := messages;
      var aborted := AnswerCall(calls[0], m0, e0, r0, n0, turn);
      if aborted.Some? {
        assert AbortsWith(calls[0].call, aborted.value);
        return Some(ByACall(aborted.value));
      }
      AnswerMovesOn(m0, before, messages[|before|], calls);
      cut := None;
    }

    /** A turn without calls: its text is kept, and says how the conversation ends. */
    method EndPlainly(turn: Turn, turns: nat, ghost m0: seq<Message>, ghost e0: seq<AgentEvent>, ghost r0: seq<Release>,
                      ghost n0: nat)
      returns (outcome: AgentOutcome)
      requires Grown(m0, e0, r0, n0, turns) && StageAfter(messages[|m0|..]) == Between
      requires turn.calls == [] && |Replies(messages[|m0|..])| + 1 == turns && SaidIn(world, Reply(turn), turns)
      requires turns <= maxTurns
      modifies this`messages
      ensures Grown(m0, e0, r0, n0, turns)
      ensures EndsProperly(Ok(outcome), turns, m0) && !outcome.Cancelled? && !outcome.TurnLimit?
      ensures messages ==
        if turn.text == "" then old(messages) else old(messages) + [Assistant(turn.text, turn.reasoning, [])]
      ensures StageAfter(messages[|m0|..]) == if turn.text == "" then Between else Ended
      ensures polls == old(polls)
      ensures outcome.RefusedToGoOn? <==> turn.refusal != "" || StopOf(turn.stop) == Refusing
      ensures outcome.Answered? ==>
        outcome.text == turn.text && outcome.stop == turn.stop && StopOf(turn.stop) == PlainAnswer
      ensures outcome.PausedByProvider? ==> outcome.text == turn.text && turn.stop == Paused
    {
      if turn.text != "" {
        assert Reply(turn) == Assistant(turn.text, turn.reasoning, []);
        KeepAssistant(Reply(turn), turns, m0, e0, r0, n0);
      }
      var ending := if turn.refusal == "" then StopOf(turn.stop) else Refusing;
      match ending {
        case Refusing => outcome := RefusedToGoOn(if turn.refusal == "" then turn.text else turn.refusal, turns);
        case Pausing => outcome := PausedByProvider(turn.text, turns);
        case PlainAnswer => outcome := Answered(turn.text, turns, turn.truncated, turn.stop);
      }
    }

    method BeginTurn(before: nat, ghost m0: seq<Message>, ghost e0: seq<AgentEvent>, ghost r0: seq<Release>,
                     ghost n0: nat)
      requires before < maxTurns && Grown(m0, e0, r0, n0, before)
      modifies this`events
      ensures Grown(m0, e0, r0, n0, before + 1)
    {
      var started := TurnStarted(before + 1, maxTurns);
      SoundTurn(messages[|m0|..], events[|e0|..], releases[|r0|..], n0, nextCall, before, world, tier, maxTurns);
      SliceGrows(e0, events, [started]);
      events := events + [started];
    }

    /** Hears the model out: what is shown of the stream joins the events, nothing joins the history. */
    method HearTurn(turn: nat, ghost m0: seq<Message>, ghost e0: seq<AgentEvent>, ghost r0: seq<Release>, ghost n0: nat)
      returns (r: Result<Turn, AiError>)
      requires world.CancelsForGood() && turn > 0 && Grown(m0, e0, r0, n0, turn)
      modifies this`events, this`polls
      ensures Grown(m0, e0, r0, n0, turn) && polls >= old(polls)
      ensures r.Err? ==> !CancelSeen(old(polls)) && TurnFails(world, turn, r.error)
      ensures r.Ok? && CancelSeen(old(polls)) ==> r.value.cancelled
      ensures r.Ok? && !r.value.cancelled ==> SaidIn(world, Reply(r.value), turn)
    {
      ghost var shown := events;
      ghost var read;
      r, read := OneTurn(turn);
      if world.stream(turn).Ok? {
        ghost var heard := world.stream(turn).value[..read];
        ShowingKeepsGrown(m0, e0, r0, n0, turn, shown, heard);
        if r.Ok? && !r.value.cancelled { ReplyIsSaid(world, turn, read, r.value); }
      }
    }

    lemma ShowingKeepsGrown(m0: seq<Message>, e0: seq<AgentEvent>, r0: seq<Release>, n0: nat, turn: nat,
                            shown: seq<AgentEvent>, heard: seq<ChatEvent>)
      requires turn > 0 && m0 <= messages && e0 <= shown && r0 <= releases && events == shown + ShownAll(heard)
      requires Sound(messages[|m0|..], shown[|e0|..], releases[|r0|..], n0, nextCall, turn, world, tier)
      ensures Grown(m0, e0, r0, n0, turn)
    {
      SoundStream(messages[|m0|..], shown[|e0|..], releases[|r0|..], n0, nextCall, turn, world, tier, heard);
      SliceGrows(e0, shown, ShownAll(heard));
    }

    static lemma ReplyIsSaid(world: World, turn: nat, read: nat, said: Turn)
      requires world.stream(turn).Ok? && read <= |world.stream(turn).value|
      requires var draft := Read(world.stream(turn).value[..read]);
        said.text == draft.text && said.reasoning == draft.reasoning && said.calls == draft.calls
      ensures SaidIn(world, Reply(said), turn)
    {
      assert Keeps(Reply(said), Read(world.stream(turn).value[..read]));
    }

    method KeepAssistant(m: Message, ghost turns: nat, ghost m0: seq<Message>, ghost e0: seq<AgentEvent>,
                         ghost r0: seq<Release>, ghost n0: nat)
      requires Grown(m0, e0, r0, n0, turns) && m.Assistant?
      requires |Replies(messages[|m0|..])| + 1 == turns && SaidIn(world, m, turns)
      modifies this`messages
      ensures Grown(m0, e0, r0, n0, turns) && |Replies(messages[|m0|..])| == turns
      ensures messages == old(messages) + [m]
      ensures StageAfter(messages[|m0|..]) == Next(StageAfter(old(messages)[|m0|..]), m)
    {
      SoundAssistant(messages[|m0|..], events[|e0|..], releases[|r0|..], n0, nextCall, turns, world, tier, m);
      StageOneMore(messages[|m0|..], m);
      SliceGrows(m0, messages, [m]);
      messages := messages + [m];
    }

    predicate Offers(name: string) {
      Get(tools, name).Some?
    }

    /** The declarations of the tools granted; an unknown one is an error of the declaration. */
    method SpecsFor() returns (missing: Option<string>)
      ensures missing.None? <==> forall name :: name in allowed ==> Offers(name)
      ensures missing.Some? ==> missing.value in allowed && !Offers(missing.value)
    {
      for i := 0 to |allowed|
        invariant forall k :: 0 <= k < i ==> Offers(allowed[k])
      {
        if !Offers(allowed[i]) {
          return Some(allowed[i]);
        }
      }
      missing := None;
    }

    /** Why a conversation ended in an error, and where its history then stands: the endpoint is not the
        tier's; a granted tool does not exist; the model's turn failed; or a call was refused for what no
        model can correct. */
    ghost predicate FailedFor(error: AiError, turns: nat, stage: Stage) {
      || (turns == 0 && stage == Between && !AllowsEndpoint(tier, reach) && error == RemoteProviderRefused(tier))
      || (turns == 0 && stage == Between && error.UnknownTool? && error.name in allowed && !Offers(error.name))
      || (turns > 0 && stage == Between && TurnFails(world, turns, error))
      || (turns > 0 && stage.AwaitingResults? && AbortedBy(error))
    }

    /** The loop itself. Whatever the world answers: no more turns than declared, a history of whole
        groups — only a run cut short may miss results, and only of its last group —, events in
        their order, a cancellation seen never outrun, and an error only for one of four reasons. */
    method Converse() returns (r: Result<AgentOutcome, AiError>, turns: nat)
      requires world.CancelsForGood()
      modifies this`messages, this`events, this`releases, this`nextCall, this`polls
      ensures turns <= maxTurns && Grown(old(messages), old(events), old(releases), old(nextCall), turns)
      ensures EndsProperly(r, turns, old(messages))
      ensures CancelSeen(old(polls)) ==> r.Ok? && r.value.Cancelled?
      ensures !AllowsEndpoint(tier, reach) ==>
        r == Err(RemoteProviderRefused(tier)) && messages == old(messages) && events == old(events)
      ensures (exists name :: name in allowed && !Offers(name)) ==> r.Err?
    {
      if !AllowsEndpoint(tier, reach) {
        return Err(RemoteProviderRefused(tier)), 0;
      }
      var missing := SpecsFor();
      if missing.Some? {
        return Err(UnknownTool(missing.value)), 0;
      }
      r, turns := TakeTurns();
    }

    method TakeTurns() returns (r: Result<AgentOutcome, AiError>, turns: nat)
      requires world.CancelsForGood()
      modifies this`messages, this`events, this`releases, this`nextCall, this`polls
      ensures turns <= maxTurns && Grown(old(messages), old(events), old(releases), old(nextCall), turns)
      ensures EndsProperly(r, turns, old(messages))
      ensures CancelSeen(old(polls)) ==> r.Ok? && r.value.Cancelled?
    {
      ghost var m0, e0, r0, n0 := messages, events, releases, nextCall;
      turns := 0;
      while turns < maxTurns
        invariant turns <= maxTurns && polls >= old(polls)
        invariant Grown(m0, e0, r0, n0, turns) && BetweenTurns(m0, turns)
        invariant !CancelSeen(old(polls))
      {
        var ended;
        ended, turns := Round(turns, old(polls), m0, e0, r0, n0);
        if ended.Some? {
          return ended.value, turns;
        }
      }
      r := Ok(TurnLimit(turns));
    }

    /** A turn, unless the user cancelled before it began. */
    method Round(before: nat, ghost since: nat, ghost m0: seq<Message>, ghost e0: seq<AgentEvent>,
                 ghost r0: seq<Release>, ghost n0: nat)
      returns (ended: Option<Result<AgentOutcome, AiError>>, turns: nat)
      requires world.CancelsForGood() && before < maxTurns && since <= polls && !CancelSeen(since)
      requires Grown(m0, e0, r0, n0, before) && BetweenTurns(m0, before)
      modifies this`messages, this`events, this`releases, this`nextCall, this`polls
      ensures before <= turns <= before + 1 && Grown(m0, e0, r0, n0, turns) && polls >= old(polls)
      ensures ended.None? ==> turns == before + 1 && BetweenTurns(m0, turns) && !CancelSeen(since)
      ensures ended.Some? ==> EndsProperly(ended.value, turns, m0)
      ensures ended.Some? && CancelSeen(since) ==> ended.value.Ok? && ended.value.value.Cancelled?
    {
      var stop := PollOnce(since);
      if stop {
        return Some(Ok(AgentOutcome.Cancelled(before))), before;
      }
      ended := ExchangeSince(before, since, m0, e0, r0, n0);
      turns := before + 1;
    }

    method ExchangeSince(before: nat, ghost since: nat, ghost m0: seq<Message>, ghost e0: seq<AgentEvent>,
                         ghost r0: seq<Release>, ghost n0: nat)
      returns (ended: Option<Result<AgentOutcome, AiError>>)
      requires world.CancelsForGood() && before < maxTurns && since <= polls && !CancelSeen(since)
      requires Grown(m0, e0, r0, n0, before) && BetweenTurns(m0, before)
      modifies this`messages, this`events, this`releases, this`nextCall, this`polls
      ensures Grown(m0, e0, r0, n0, before + 1) && polls >= old(polls)
      ensures ended.None? ==> BetweenTurns(m0, before + 1) && !CancelSeen(since)
      ensures ended.Some? ==> EndsProperly(ended.value, before + 1, m0)
      ensures ended.Some? && CancelSeen(since) ==> ended.value.Ok? && ended.value.value.Cancelled?
    {
      ghost var polled := polls;
      ended := Exchange(before, m0, e0, r0, n0);
      SeenSince(since, polled);
    }

    /** One turn: the model is heard, then its calls are answered or the conversation ends. */
    method Exchange(before: nat, ghost m0: seq<Message>, ghost e0: seq<AgentEvent>, ghost r0: seq<Release>,
                    ghost n0: nat)
      returns (ended: Option<Result<AgentOutcome, AiError>>)
      requires world.CancelsForGood() && before < maxTurns
      requires Grown(m0, e0, r0, n0, before) && BetweenTurns(m0, before)
      modifies this`messages, this`events, this`releases, this`nextCall, this`polls
      ensures Grown(m0, e0, r0, n0, before + 1) && polls >= old(polls)
      ensures ended.None? ==> BetweenTurns(m0, before + 1) && !CancelSeen(old(polls))
      ensures ended.Some? ==> EndsProperly(ended.value, before + 1, m0)
      ensures ended.Some? && CancelSeen(old(polls)) ==> ended.value.Ok? && ended.value.value.Cancelled?
    {
      BeginTurn(before, m0, e0, r0, n0);
      var heard := HearTurn(before + 1, m0, e0, r0, n0);
      if heard.Err? {
        EndsBetweenTurns(m0, before + 1, Err(heard.error));
        return Some(Err(heard.error));
      }
      var turn := heard.value;
      if turn.cancelled {
        EndsBetweenTurns(m0, before + 1, Ok(AgentOutcome.Cancelled(before + 1)));
        return Some(Ok(AgentOutcome.Cancelled(before + 1)));
      }
      ghost var polled := polls;
      ended := FollowTurn(turn, before + 1, m0, e0, r0, n0);
      SeenSince(old(polls), polled);
    }

    /** A turn that failed or was cancelled leaves the history between groups. */
    lemma EndsBetweenTurns(m0: seq<Message>, turns: nat, ended: Result<AgentOutcome, AiError>)
      requires 0 < turns <= maxTurns && BetweenTurns(m0, turns - 1)
      requires ended == Ok(AgentOutcome.Cancelled(turns)) || (ended.Err? && TurnFails(world, turns, ended.error))
      ensures EndsProperly(ended, turns, m0)
    {
    }

    /** How a turn may end the conversation, and how the history then stands. */
    ghost predicate EndsProperly(ended: Result<AgentOutcome, AiError>, turns: nat, m0: seq<Message>)
      reads this`messages
    {
      && m0 <= messages
      && EndsAsItSays(ended, StageAfter(messages[|m0|..]), turns, maxTurns)
      && match ended
         case Ok(outcome) => Turns(outcome) == turns && (outcome.Answered? ==> AnswerIsKept(outcome.text, m0))
         case Err(error) => FailedFor(error, turns, StageAfter(messages[|m0|..]))
    }

    /** A turn that was not cancelled: without calls it ends the conversation, else they are answered. */
    method FollowTurn(turn: Turn, turns: nat, ghost m0: seq<Message>, ghost e0: seq<AgentEvent>, ghost r0: seq<Release>,
                      ghost n0: nat)
      returns (ended: Option<Result<AgentOutcome, AiError>>)
      requires world.CancelsForGood() && 0 < turns <= maxTurns && SaidIn(world, Reply(turn), turns)
      requires Grown(m0, e0, r0, n0, turns) && BetweenTurns(m0, turns - 1)
      modifies this`messages, this`events, this`releases, this`nextCall, this`polls
      ensures Grown(m0, e0, r0, n0, turns) && polls >= old(polls)
      ensures ended.None? ==> BetweenTurns(m0, turns) && !CancelSeen(old(polls))
      ensures ended.Some? ==> EndsProperly(ended.value, turns, m0)
      ensures ended.Some? && CancelSeen(old(polls)) ==> ended.value.Ok? && ended.value.value.Cancelled?
    {
      if turn.calls == [] {
        var outcome := EndPlainly(turn, turns, m0, e0, r0, n0);
        return Some(Ok(outcome));
      }
      ended := AnswerTurn(turn, turns, m0, e0, r0, n0);
    }

    /** Answers a turn's calls, and says whether that ends the conversation. */
    method AnswerTurn(turn: Turn, turns: nat, ghost m0: seq<Message>, ghost e0: seq<AgentEvent>, ghost r0: seq<Release>,
                      ghost n0: nat)
      returns (ended: Option<Result<AgentOutcome, AiError>>)
      requires world.CancelsForGood() && 0 < turns <= maxTurns && turn.calls != [] && SaidIn(world, Reply(turn), turns)
      requires Grown(m0, e0, r0, n0, turns) && BetweenTurns(m0, turns - 1)
      modifies this`messages, this`events, this`releases, this`nextCall, this`polls
      ensures Grown(m0, e0, r0, n0, turns) && polls >= old(polls)
      ensures ended.None? ==> BetweenTurns(m0, turns) && !CancelSeen(old(polls))
      ensures ended.Some? ==> EndsProperly(ended.value, turns, m0)
      ensures ended.Some? && CancelSeen(old(polls)) ==> ended.value.Ok? && ended.value.value.Cancelled?
    {
      KeepAssistant(Reply(turn), turns, m0, e0, r0, n0);
      var cut := AnswerCalls(turn.calls, m0, e0, r0, n0, turns);
      match cut {
        case None => ended := None;
        case Some(ByTheUser) => ended := Some(Ok(AgentOutcome.Cancelled(turns)));
        case Some(ByACall(error)) => ended := Some(Err(error));
      }
    }

    /** A plain answer closes the history; an empty one adds nothing. */
    ghost predicate AnswerIsKept(text: string, m0: seq<Message>)
      reads this`messages
    {
      && m0 <= messages
      && if text == "" then StageAfter(messages[|m0|..]) == Between
         else messages != [] && messages[|messages| - 1].Assistant? && messages[|messages| - 1].text == text
    }

    lemma SeenSince(start: nat, middle: nat)
      requires start <= middle <= polls
      ensures CancelSeen(start) <==> CancelSeen(middle) || exists p: nat :: start <= p < middle && world.cancelled(p)
    {
    }

    /** Runs the conversation; its end is announced at one place, when there is an outcome. */
    method Run() returns (r: Result<AgentOutcome, AiError>)
      requires world.CancelsForGood()
      modifies this`messages, this`events, this`releases, this`nextCall, this`polls
      ensures old(messages) <= messages && old(events) <= events && old(releases) <= releases
      ensures Concluded(r, messages[|old(messages)|..], events[|old(events)|..], releases[|old(releases)|..],
        old(nextCall), nextCall, world, tier)
      ensures EndsProperly(r, TurnsSeen(WatchAfter(events[|old(events)|..], old(nextCall))), old(messages))
      ensures CancelSeen(old(polls)) ==> r.Ok? && r.value.Cancelled?
    {
      var turns;
      r, turns := Converse();
      ConcludedBySound(r, messages[|old(messages)|..], events[|old(events)|..], releases[|old(releases)|..],
        old(nextCall), nextCall, turns, world, tier);
      if r.Ok? {
        SliceGrows(old(events), events, [Finished(r.value)]);
        events := events + [Finished(r.value)];
      }
    }
  }

  /** What a whole run has added: events that end with the outcome, exactly when there is one; a history
      that tells the model, call by call, what the tier lets through of what the user was shown; as many
      recorded releases as reports of rows sent, call by call, each call's own, and none where the tier
      forbids them; and the replies the model gave, turn by turn. */
  ghost predicate Concluded(r: Result<AgentOutcome, AiError>, ms: seq<Message>, es: seq<AgentEvent>, rs: seq<Release>,
                            first: nat, next: nat, world: World, tier: PrivacyTier) {
    && (match r
        case Ok(outcome) => WatchAfter(es, first) == Over(Turns(outcome))
        case Err(_) => WatchAfter(es, first).Open?)
    && Told(ms) == ToldOf(world, tier, Accounts(es))
    && RecordedCalls(rs) == SampledCalls(Accounts(es)) && RowsAreThere(world, tier, Accounts(es))
    && (!tier.AllowsRowValues() ==> rs == [])
    && Ascending(rs, first, next)
    && AsSaid(world, Replies(ms))
  }

  lemma ConcludedBySound(r: Result<AgentOutcome, AiError>, ms: seq<Message>, es: seq<AgentEvent>, rs: seq<Release>,
                         first: nat, next: nat, turn: nat, world: World, tier: PrivacyTier)
    requires Sound(ms, es, rs, first, next, turn, world, tier) && (r.Ok? ==> Turns(r.value) == turn)
    ensures TurnsSeen(WatchAfter(es, first)) == turn
    ensures r.Err? ==> Concluded(r, ms, es, rs, first, next, world, tier)
    ensures r.Ok? ==>
      && Concluded(r, ms, es + [Finished(r.value)], rs, first, next, world, tier)
      && TurnsSeen(WatchAfter(es + [Finished(r.value)], first)) == turn
  {
    if r.Ok? { FinishedAddsNothing(es, first, r.value); }
  }

  lemma FinishedAddsNothing(es: seq<AgentEvent>, first: nat, outcome: AgentOutcome)
    ensures WatchAfter(es + [Finished(outcome)], first) == Sees(WatchAfter(es, first), Finished(outcome))
    ensures Accounts(es + [Finished(outcome)]) == Accounts(es)
  {
    WatchOneMore(es, first, Finished(outcome));
    AccountsUnchanged(es, Finished(outcome));
  }

  /** With the registry there is, no call ends a conversation. */
  lemma NoCallAborts(c: Conversation, d: Decoder, error: AiError)
    requires c.tools == Builtin(d)
    ensures !c.AbortedBy(error)
  {
    forall call: ToolCall ensures !c.AbortsWith(call, error) {
      TranslationNeverAborts(d, call, c.allowed, c.scope);
    }
  }

  /** Hence a run that ends in an error leaves whole groups. */
  lemma FailuresLeaveWholeGroups(c: Conversation, d: Decoder, error: AiError, turns: nat, stage: Stage)
    requires c.tools == Builtin(d) && c.FailedFor(error, turns, stage)
    ensures stage == Between
    ensures error == RemoteProviderRefused(c.tier) || (error.UnknownTool? && error.name in c.allowed)
      || TurnFails(c.world, turns, error)
  {
    NoCallAborts(c, d, error);
  }

  /** What a turn leaves in the history. */
  function Reply(turn: Turn): Message {
    Assistant(turn.text, turn.reasoning, CallsOf(turn.calls))
  }

  function TurnsSeen(watch: Watch): nat {
    match watch
    case Open(turn, _) => turn
    case InFlight(turn, _) => turn
    case Over(turns) => turns
    case Wrong => 0
  }

  /** How the history stands at the end of a run, by the run's outcome. */
  predicate EndsAsItSays(r: Result<AgentOutcome, AiError>, stage: Stage, turns: nat, maxTurns: nat) {
    && turns <= maxTurns
    && match r
       case Err(_) => stage == Between || stage.AwaitingResults?
       case Ok(Cancelled(_)) => stage == Between || stage.AwaitingResults?
       case Ok(TurnLimit(_)) => stage == Between && turns == maxTurns
       case Ok(_) => stage == Between || stage == Ended
  }

  lemma SliceGrows<T>(base: seq<T>, s: seq<T>, more: seq<T>)
    requires base <= s
    ensures base <= s + more && (s + more)[|base|..] == s[|base|..] + more
  {
  }

  lemma AnswerMovesOn(m0: seq<Message>, before: seq<Message>, m: Message, calls: seq<Proposed>)
    requires m0 <= before && calls != [] && StageAfter(before[|m0|..]) == AwaitingResults(CallsOf(calls))
    requires m.ToolResult? && m.id == calls[0].call.id
    ensures StageAfter((before + [m])[|m0|..]) == if |calls| > 1 then AwaitingResults(CallsOf(calls[1..])) else Between
  {
    SliceGrows(m0, before, [m]);
    ResultMovesOn(before[|m0|..], m, calls);
  }

  lemma ResultMovesOn(ms: seq<Message>, m: Message, calls: seq<Proposed>)
    requires calls != [] && StageAfter(ms) == AwaitingResults(CallsOf(calls))
    requires m.ToolResult? && m.id == calls[0].call.id
    ensures StageAfter(ms + [m]) == if |calls| > 1 then AwaitingResults(CallsOf(calls[1..])) else Between
  {
    StageOneMore(ms, m);
    CallsOneLess(calls);
  }

  lemma CallsOneLess(proposed: seq<Proposed>)
    requires proposed != []
    ensures CallsOf(proposed)[0] == proposed[0].call
    ensures CallsOf(proposed)[1..] == CallsOf(proposed[1..])
  {
  }

  /** Releases answer calls of this stretch, each at most once. */
  ghost predicate Ascending(rs: seq<Release>, first: nat, next: nat) {
    && (forall i :: 0 <= i < |rs| ==> first <= rs[i].call < next)
    && (forall i, j :: 0 <= i < j < |rs| ==> rs[i].call < rs[j].call)
  }

  /** The events follow their order; the model is told, call by call, what the tier lets through of what
      the user is shown; the calls the user is told rows were sent for are those whose release was recorded,
      in order, and there are none where the tier forbids them; and the replies kept are what the model
      said, turn by turn. */
  ghost predicate Sound(ms: seq<Message>, es: seq<AgentEvent>, rs: seq<Release>, first: nat, next: nat, turn: nat,
                        world: World, tier: PrivacyTier) {
    && WatchAfter(es, first) == Open(turn, next)
    && Told(ms) == ToldOf(world, tier, Accounts(es))
    && RecordedCalls(rs) == SampledCalls(Accounts(es)) && RowsAreThere(world, tier, Accounts(es))
    && (!tier.AllowsRowValues() ==> rs == [])
    && first <= next && Ascending(rs, first, next)
    && AsSaid(world, Replies(ms)) && |Replies(ms)| <= turn
  }

  lemma SoundTurn(ms: seq<Message>, es: seq<AgentEvent>, rs: seq<Release>, first: nat, next: nat, turn: nat,
                  world: World, tier: PrivacyTier, maxTurns: nat)
    requires Sound(ms, es, rs, first, next, turn, world, tier) && turn < maxTurns
    ensures Sound(ms, es + [TurnStarted(turn + 1, maxTurns)], rs, first, next, turn + 1, world, tier)
  {
    WatchOneMore(es, first, TurnStarted(turn + 1, maxTurns));
    AccountsUnchanged(es, TurnStarted(turn + 1, maxTurns));
  }

  lemma SoundStream(ms: seq<Message>, es: seq<AgentEvent>, rs: seq<Release>, first: nat, next: nat, turn: nat,
                    world: World, tier: PrivacyTier, stream: seq<ChatEvent>)
    requires Sound(ms, es, rs, first, next, turn, world, tier) && turn > 0
    ensures Sound(ms, es + ShownAll(stream), rs, first, next, turn, world, tier)
  {
    StreamIsQuiet(stream);
    QuietKeepsWatch(es, first, ShownAll(stream));
  }

  lemma SoundAssistant(ms: seq<Message>, es: seq<AgentEvent>, rs: seq<Release>, first: nat, next: nat, turn: nat,
                       world: World, tier: PrivacyTier, m: Message)
    requires Sound(ms, es, rs, first, next, turn, world, tier) && m.Assistant?
    requires |Replies(ms)| + 1 == turn && SaidIn(world, m, turn)
    ensures Sound(ms + [m], es, rs, first, next, turn, world, tier) && |Replies(ms + [m])| == turn
  {
    ToldOneMore(ms, m);
  }

  lemma SoundRejected(ms: seq<Message>, es: seq<AgentEvent>, rs: seq<Release>, first: nat, next: nat, turn: nat,
                      world: World, tier: PrivacyTier, m: Message, event: AgentEvent)
    requires Sound(ms, es, rs, first, next, turn, world, tier) && turn > 0
    requires m.ToolResult? && m.content.Rejection? && event.CallRejected?
    ensures Sound(ms + [m], es + [event], rs, first, next, turn, world, tier)
  {
    ToldOneMore(ms, m);
    WatchOneMore(es, first, event);
    AccountsUnchanged(es, event);
  }

  lemma SoundReported(ms: seq<Message>, es: seq<AgentEvent>, rs: seq<Release>, first: nat, next: nat, turn: nat,
                      world: World, tier: PrivacyTier,
                      id: string, tool: string, request: ToolRequest)
    requires Sound(ms, es, rs, first, next, turn, world, tier) && turn > 0
    ensures var effect := EffectOf(world, tier, next, tool, Ok(request));
      Sound(ms + [ToolResult(id, effect.content)], es + effect.events, rs + effect.releases, first, effect.next, turn,
        world, tier)
  {
    var settled := Reported(world, tier, next, request);
    RowsReachTheModelOnlyWhenReleased(world, tier, next, request);
    ModelReadsWhatIsShownFiltered(world, tier, next, request);
    SoundSettled(ms, es, rs, first, next, turn, world, tier, ToolResult(id, Report(settled.outcome)),
                 CommandSubmitted(next, tool, request.Read()),
                 CommandReported(next, tool, settled.facts, WithholdsFrom(settled.outcome, settled.facts)),
                 settled.asked, world.records(next));
  }

  lemma SoundEffect(ms: seq<Message>, es: seq<AgentEvent>, rs: seq<Release>, first: nat, next: nat, turn: nat,
                    world: World, tier: PrivacyTier,
                    id: string, tool: string, understood: Result<ToolRequest, AiError>)
    requires Sound(ms, es, rs, first, next, turn, world, tier) && turn > 0
    ensures var effect := EffectOf(world, tier, next, tool, understood);
      Sound(ms + [ToolResult(id, effect.content)], es + effect.events, rs + effect.releases, first, effect.next, turn,
        world, tier)
  {
    if understood.Ok? {
      SoundReported(ms, es, rs, first, next, turn, world, tier, id, tool, understood.value);
    } else {
      var error := understood.error;
      assert rs + [] == rs;
      SoundRejected(ms, es, rs, first, next, turn, world, tier, ToolResult(id, Rejection(error)),
        CallRejected(tool, error));
    }
  }

  lemma SoundSettled(ms: seq<Message>, es: seq<AgentEvent>, rs: seq<Release>, first: nat, next: nat, turn: nat,
                     world: World, tier: PrivacyTier,
                     m: Message, submitted: AgentEvent, reported: AgentEvent, asked: bool, recorded: bool)
    requires Sound(ms, es, rs, first, next, turn, world, tier) && turn > 0
    requires m.ToolResult? && m.content.Report?
    requires submitted.CommandSubmitted? && reported.CommandReported? && submitted.call == next && reported.call == next
    requires m.content.outcome.SampleShown? <==> reported.facts.SampleRead?
    requires m.content.outcome.SampleShown? <==> asked && recorded
    requires asked ==> tier.AllowsRowValues()
    requires m.content.outcome == FromDispatch(world, tier, reported.facts, FocusOf(submitted.command))
    ensures Sound(ms + [m], es + [submitted, reported], rs + (if asked then [Release(next, recorded)] else []), first,
      next + 1, turn, world, tier)
  {
    var more := if asked then [Release(next, recorded)] else [];
    var account := Account(next, submitted.command, reported.facts);
    WatchReported(es, first, next, turn, submitted, reported);
    AccountReported(es, submitted, reported);
    ReleaseMatches(Accounts(es), rs, account, asked, recorded);
    ToldMatches(ms, m, world, tier, Accounts(es), account);
    AscendingOneMore(rs, first, next, more);
  }

  lemma ReleaseMatches(accounts: seq<Account>, rs: seq<Release>, account: Account, asked: bool, recorded: bool)
    requires RecordedCalls(rs) == SampledCalls(accounts)
    requires account.facts.SampleRead? <==> asked && recorded
    ensures RecordedCalls(rs + (if asked then [Release(account.call, recorded)] else []))
      == SampledCalls(accounts + [account])
  {
    assert (accounts + [account])[..|accounts|] == accounts;
    if asked {
      OneMoreRelease(rs, Release(account.call, recorded));
    } else {
      assert rs + [] == rs;
    }
  }

  lemma ToldMatches(ms: seq<Message>, m: Message, world: World, tier: PrivacyTier, accounts: seq<Account>,
                    account: Account)
    requires Told(ms) == ToldOf(world, tier, accounts) && RowsAreThere(world, tier, accounts)
    requires m.ToolResult? && m.content.Report?
    requires m.content.outcome == FromDispatch(world, tier, account.facts, FocusOf(account.command))
    requires account.facts.SampleRead? ==> m.content.outcome.SampleShown?
    ensures RowsAreThere(world, tier, accounts + [account])
    ensures Told(ms + [m]) == ToldOf(world, tier, accounts + [account]) && Replies(ms + [m]) == Replies(ms)
  {
    ToldOneMore(ms, m);
    OneMoreTold(world, tier, accounts, account);
  }

  lemma AccountReported(es: seq<AgentEvent>, submitted: AgentEvent, reported: AgentEvent)
    requires submitted.CommandSubmitted? && reported.CommandReported?
    ensures Accounts(es + [submitted, reported])
      == Accounts(es) + [Account(reported.call, submitted.command, reported.facts)]
  {
    assert es + [submitted, reported] == es + [submitted] + [reported];
    OneMoreAccount(es, submitted, reported);
  }

  lemma WatchReported(es: seq<AgentEvent>, first: nat, next: nat, turn: nat, submitted: AgentEvent,
                      reported: AgentEvent)
    requires WatchAfter(es, first) == Open(turn, next) && turn > 0
    requires submitted.CommandSubmitted? && reported.CommandReported? && submitted.call == next && reported.call == next
    ensures WatchAfter(es + [submitted, reported], first) == Open(turn, next + 1)
  {
    WatchOneMore(es, first, submitted);
    WatchOneMore(es + [submitted], first, reported);
    assert es + [submitted, reported] == es + [submitted] + [reported];
  }

  lemma AscendingOneMore(rs: seq<Release>, first: nat, next: nat, more: seq<Release>)
    requires Ascending(rs, first, next) && first <= next
    requires |more| <= 1 && forall i :: 0 <= i < |more| ==> more[i].call == next
    ensures Ascending(rs + more, first, next + 1)
  {
  }

  const UNCLOSED: string := "the stream ended without the provider closing the turn"

  /** The model's turn fails: it does not begin, goes over the budget, is cut, or says so. */
  ghost predicate TurnFails(world: World, index: nat, error: AiError) {
    match world.stream(index)
    case Err(answer) => error == answer
    case Ok(stream) => exists n: nat :: n <= |stream| && FailsAfter(world, index, stream, n, error)
  }

  predicate FailsAfter(world: World, index: nat, stream: seq<ChatEvent>, n: nat, error: AiError)
    requires n <= |stream|
  {
    || (n < |stream| && world.overrun(index, n).Some? && error == Interrupted(world.overrun(index, n).value))
    || (Read(stream[..n]).stop.IsAmbiguous() && error.Interrupted?)
    || (Read(stream[..n]).failure.Some? && error == Provider(Read(stream[..n]).failure.value))
  }

  /** None of the first `n` events closes the stream. */
  predicate StillOpen(stream: seq<ChatEvent>, n: int)
    requires n <= |stream|
  {
    forall k :: 0 <= k < n ==> !stream[k].Closed?
  }

  lemma ReadOneMore(stream: seq<ChatEvent>, i: nat)
    requires i < |stream|
    ensures Read(stream[..i + 1]) == Heard(Read(stream[..i]), stream[i])
    ensures ShownAll(stream[..i + 1]) == ShownAll(stream[..i]) + Shown(stream[i])
  {
    assert stream[..i + 1][..i] == stream[..i];
  }
}
