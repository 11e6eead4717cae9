/** The gate every command passes: what it allows, submits to approval or denies. */
module Policy {
  import opened Options
  import opened Commands

  datatype Actor = Human | Agent

  datatype Environment = Local | Development | Staging | Production {
    function Rank(): nat {
      match this
      case Local => 0
      case Development => 1
      case Staging => 2
      case Production => 3
    }
  }

  /** The environment of higher rank. */
  function Stricter(a: Environment, b: Environment): Environment {
    if a.Rank() < b.Rank() then b else a
  }

  datatype ConnectionFacts = ConnectionFacts(name: string, environment: Environment, readOnly: bool)

  /** The exact statement, and the connection's name, never its identifier. */
  datatype Preview = Preview(statement: Option<string>, connection: string)

  datatype Refusal =
    | HumanOnly | Privileges | SessionContext | TypedContextChange | TransactionControl
    | ConnectionUnknown | MarkedReadOnly(connection: string) | AgentOnProduction(connection: string)

  datatype Reason = Risky(risk: MutationRisk) | ByAgent(intent: StatementIntent) | OnProduction(intent: StatementIntent)

  datatype Decision = Allow | RequireApproval(reason: Reason, preview: Preview) | Deny(refusal: Refusal) {
    function Restrictiveness(): nat {
      if Allow? then 0 else if RequireApproval? then 1 else 2
    }
  }

  const UNKNOWN_CONNECTION: string := "unknown connection"

  function DisplayName(cmd: Command, facts: Option<ConnectionFacts>): string {
    if facts.Some? then facts.value.name
    else if cmd.CreateConnection? || cmd.UpdateConnection? || cmd.TestConnection? then cmd.config.name
    else UNKNOWN_CONNECTION
  }

  function PreviewOf(cmd: Command, facts: Option<ConnectionFacts>): Preview {
    Preview(cmd.StatementText(), DisplayName(cmd, facts))
  }

  function Retain(announced: Environment, facts: Option<ConnectionFacts>): Environment {
    if facts.Some? then Stricter(announced, facts.value.environment) else announced
  }

  /** What an agent never does, whatever the connection. */
  predicate HumansOwn(cmd: Command) {
    || cmd.WriteWorkspacePreferences? || cmd.WriteWindowLayout?
    || cmd.SaveAiProvider? || cmd.RemoveAiProvider? || cmd.SaveExternalAgent? || cmd.RemoveExternalAgent?
    || cmd.TestConnection? || cmd.CreateConnection? || cmd.UpdateConnection? || cmd.ReconcileHistoryEntry?
  }

  /** The decision, given what is known of the target connection. */
  function Decide(actor: Actor, cmd: Command, announced: Environment, facts: Option<ConnectionFacts>): Decision {
    var env, mutating := Retain(announced, facts), cmd.IsMutating();
    if actor.Agent? && HumansOwn(cmd) then Deny(HumanOnly)
    else if actor.Agent? && cmd.Intent() == Grant then Deny(Privileges)
    else if actor.Agent? && cmd.SetSessionContext? then Deny(SessionContext)
    else if actor.Agent? && cmd.ChangesContext() then Deny(TypedContextChange)
    else if actor.Agent? && cmd.ControlsTransaction() then Deny(TransactionControl)
    else if mutating && cmd.TouchesDatabase() && cmd.TargetConnection().Some?
      && facts.None? then Deny(ConnectionUnknown)
    else if mutating && cmd.TouchesDatabase() && cmd.TargetConnection().Some? && facts.Some? && facts.value.readOnly
    then Deny(MarkedReadOnly(facts.value.name))
    else if actor.Agent? && mutating && env == Production then Deny(AgentOnProduction(DisplayName(cmd, facts)))
    else if cmd.Risk() != NoRisk then RequireApproval(Risky(cmd.Risk()), PreviewOf(cmd, facts))
    else if actor.Agent? && mutating then RequireApproval(ByAgent(cmd.Intent()), PreviewOf(cmd, facts))
    else if mutating && env == Production then RequireApproval(OnProduction(cmd.Intent()), PreviewOf(cmd, facts))
    else Allow
  }

  // ---------- the registry ----------

  /** What the gate knows of a command's target. */
  function KnownFacts(connections: map<ConnectionId, ConnectionFacts>, cmd: Command): Option<ConnectionFacts> {
    match cmd.TargetConnection()
    case Some(id) => if id in connections then Some(connections[id]) else None
    case None => None
  }

  class DefaultPolicy {
    var connections: map<ConnectionId, ConnectionFacts>

    constructor ()
      ensures connections == map[]
    {
      connections := map[];
    }

    method RegisterFacts(id: ConnectionId, facts: ConnectionFacts)
      modifies this
      ensures connections == old(connections)[id := facts]
    {
      connections := connections[id := facts];
    }

    method Forget(id: ConnectionId)
      modifies this
      ensures connections == old(connections) - {id}
    {
      connections := connections - {id};
    }

    /** The refusals first, then the approvals, the most telling reason before the others. */
    method Authorize(actor: Actor, cmd: Command, announced: Environment) returns (decision: Decision)
      ensures decision == Decide(actor, cmd, announced, KnownFacts(connections, cmd))
    {
      if actor.Agent? && HumansOwn(cmd) {
        return Deny(HumanOnly);
      }
      var intent, mutating, facts := cmd.Intent(), cmd.IsMutating(), KnownFacts(connections, cmd);
      var env := Retain(announced, facts);
      if actor.Agent? {
        if intent == Grant { return Deny(Privileges); }
        if cmd.SetSessionContext? { return Deny(SessionContext); }
        if cmd.ChangesContext() { return Deny(TypedContextChange); }
        if cmd.ControlsTransaction() { return Deny(TransactionControl); }
      }
      if mutating && cmd.TouchesDatabase() && cmd.TargetConnection().Some? {
        if facts.None? { return Deny(ConnectionUnknown); }
        if facts.value.readOnly { return Deny(MarkedReadOnly(facts.value.name)); }
      }
      if actor.Agent? && mutating && env == Production {
        return Deny(AgentOnProduction(DisplayName(cmd, facts)));
      }
      if cmd.Risk() != NoRisk {
        return RequireApproval(Risky(cmd.Risk()), PreviewOf(cmd, facts));
      }
      if actor.Agent? && mutating {
        return RequireApproval(ByAgent(intent), PreviewOf(cmd, facts));
      }
      if mutating && env == Production {
        return RequireApproval(OnProduction(intent), PreviewOf(cmd, facts));
      }
      decision := Allow;
    }
  }

  // ---------- what the gate promises ----------

  /** An agent is held at least as tightly as a human. */
  lemma AgentsAreHeldTighter(cmd: Command, announced: Environment, facts: Option<ConnectionFacts>)
    ensures Decide(Agent, cmd, announced, facts).Restrictiveness()
         >= Decide(Human, cmd, announced, facts).Restrictiveness()
  {
  }

  /** `b` marks the connection at least as strictly as `a`. */
  predicate MarksStricter(a: ConnectionFacts, b: ConnectionFacts) {
    a.environment.Rank() <= b.environment.Rank() && (a.readOnly ==> b.readOnly)
  }

  /** A stricter announcement or marking never loosens a decision. */
  lemma StricterNeverLoosens(actor: Actor, cmd: Command, announced: Environment, stricter: Environment,
                             facts: Option<ConnectionFacts>, marked: Option<ConnectionFacts>)
    requires announced.Rank() <= stricter.Rank()
    requires facts.Some? <==> marked.Some?
    requires facts.Some? ==> MarksStricter(facts.value, marked.value)
    ensures Decide(actor, cmd, stricter, marked).Restrictiveness()
         >= Decide(actor, cmd, announced, facts).Restrictiveness()
  {
    RetainGrows(announced, stricter, facts, marked);
  }

  lemma RetainGrows(announced: Environment, stricter: Environment, facts: Option<ConnectionFacts>,
                    marked: Option<ConnectionFacts>)
    requires announced.Rank() <= stricter.Rank()
    requires facts.Some? <==> marked.Some?
    requires facts.Some? ==> MarksStricter(facts.value, marked.value)
    ensures Retain(announced, facts) == Production ==> Retain(stricter, marked) == Production
  {
  }

  /** Announcing the environment the gate retains changes no decision. */
  lemma RetainedEnvironmentChangesNothing(actor: Actor, cmd: Command, announced: Environment,
                                          facts: Option<ConnectionFacts>)
    ensures Decide(actor, cmd, Retain(announced, facts), facts) == Decide(actor, cmd, announced, facts)
    ensures announced.Rank() <= Retain(announced, facts).Rank()
  {
    assert Retain(Retain(announced, facts), facts) == Retain(announced, facts);
  }

  /** What the connection lets a mutating command do: known and writable, when it runs there. */
  predicate Writable(cmd: Command, facts: Option<ConnectionFacts>) {
    cmd.TouchesDatabase() ==> facts.Some? && !facts.value.readOnly
  }

  /** A command runs without formality exactly when it modifies nothing and an agent may send it, or
      when a human sends it, bounded, outside production, on a connection that takes it. */
  lemma AllowedExactly(actor: Actor, cmd: Command, announced: Environment, facts: Option<ConnectionFacts>)
    ensures Decide(actor, cmd, announced, facts) == Allow <==>
      if cmd.IsMutating()
      then actor == Human && cmd.Risk() == NoRisk && Retain(announced, facts) != Production && Writable(cmd, facts)
      else
        || actor == Human
        || !(HumansOwn(cmd) || cmd.SetSessionContext? || cmd.ChangesContext() || cmd.ControlsTransaction())
  {
    MutatingTargets(cmd);
  }

  /** What an agent is refused whatever the connection. */
  predicate AgentsNever(cmd: Command) {
    || HumansOwn(cmd) || cmd.SetSessionContext? || (cmd.Execute? && cmd.request.intent == Grant)
    || cmd.ChangesContext() || cmd.ControlsTransaction()
  }

  /** A command is denied exactly when it is an agent's that agents never send, or mutates where it may not:
      an unknown or read-only connection it runs on, or production for an agent. Nothing of that is sent for
      approval instead. */
  lemma DeniedExactly(actor: Actor, cmd: Command, announced: Environment, facts: Option<ConnectionFacts>)
    ensures Decide(actor, cmd, announced, facts).Deny? <==>
      || (actor == Agent && AgentsNever(cmd))
      || (cmd.IsMutating() && (!Writable(cmd, facts) || (actor == Agent && Retain(announced, facts) == Production)))
  {
    MutatingTargets(cmd);
  }

  /** A refusal names what holds, an approval why it is asked; the risk of the statement is told first. */
  lemma DecisionsSayWhy(actor: Actor, cmd: Command, announced: Environment, facts: Option<ConnectionFacts>)
    ensures match Decide(actor, cmd, announced, facts)
      case Allow => true
      case RequireApproval(Risky(risk), preview) => risk == cmd.Risk() != NoRisk && preview == PreviewOf(cmd, facts)
      case RequireApproval(ByAgent(intent), preview) =>
        actor == Agent && cmd.Risk() == NoRisk && intent == cmd.Intent() != Read && preview == PreviewOf(cmd, facts)
      case RequireApproval(OnProduction(intent), preview) =>
        && actor == Human && cmd.Risk() == NoRisk && intent == cmd.Intent() != Read
        && Retain(announced, facts) == Production && preview == PreviewOf(cmd, facts)
      case Deny(ConnectionUnknown) => facts.None?
      case Deny(MarkedReadOnly(name)) => facts.Some? && facts.value.readOnly && name == facts.value.name
      case Deny(AgentOnProduction(name)) =>
        && actor == Agent && Retain(announced, facts) == Production
        && (facts.Some? ==> name == facts.value.name)
      case Deny(HumanOnly) => actor == Agent && HumansOwn(cmd)
      case Deny(Privileges) => actor == Agent && cmd.Intent() == Grant
      case Deny(SessionContext) => actor == Agent && cmd.SetSessionContext?
      case Deny(TypedContextChange) => actor == Agent && cmd.ChangesContext()
      case Deny(TransactionControl) => actor == Agent && cmd.ControlsTransaction()
  {
  }

  /** What a preview shows: the statement of a command that has one, and the name of the connection, known
      to the gate or carried by the command. */
  lemma PreviewsShow(cmd: Command, facts: Option<ConnectionFacts>)
    ensures PreviewOf(cmd, facts).statement == (if cmd.Execute? then Some(cmd.request.text) else None)
    ensures facts.Some? ==> PreviewOf(cmd, facts).connection == facts.value.name
    ensures facts.None? && cmd.CreateConnection? ==> PreviewOf(cmd, facts).connection == cmd.config.name
    ensures facts.None? && cmd.UpdateConnection? ==> PreviewOf(cmd, facts).connection == cmd.config.name
  {
  }

  /** The retained environment is one of the two, and less strict than neither. */
  lemma RetainedIsTheStricter(announced: Environment, facts: Option<ConnectionFacts>)
    ensures var env := Retain(announced, facts);
      && (env == announced || (facts.Some? && env == facts.value.environment))
      && (env == Production <==> announced == Production || (facts.Some? && facts.value.environment == Production))
      && (env == Local <==> announced == Local && (facts.Some? ==> facts.value.environment == Local))
      && (env == Development ==>
        announced in {Local, Development} && (facts.Some? ==> facts.value.environment in {Local, Development}))
  {
  }

  // ---------- the commands, one by one ----------

  /** Where a command takes effect, and on whose connection. */
  datatype Line = Line(
    onServer: bool, target: Option<ConnectionId>, humansOwn: bool, configures: bool)

  /** The table of the commands. */
  function LineOf(cmd: Command): Line {
    match cmd
    case Connect(id) => Line(true, Some(id), false, false)
    case Disconnect(id) => Line(true, Some(id), false, false)
    case CloseSession(id) => Line(true, Some(id), false, false)
    case SetSessionContext(id) => Line(true, Some(id), false, false)
    case Execute(id, _) => Line(true, Some(id), false, false)
    case PreviewRelation(id, _, _, _) => Line(true, Some(id), false, false)
    case Cancel(id) => Line(true, Some(id), false, false)
    case RefreshCatalog(id) => Line(true, Some(id), false, false)
    case DescribeCatalog(id, _) => Line(false, Some(id), false, false)
    case RefreshCatalogScope(id) => Line(true, Some(id), false, false)
    case InspectResultValue(id) => Line(false, Some(id), false, false)
    case ReadResultPage(id) => Line(false, Some(id), false, false)
    case Export(id) => Line(true, Some(id), false, false)
    case OpenRetainedResult(id) => Line(false, Some(id), false, false)
    case ReadHistory(filter) => Line(false, filter, false, false)
    case ReadHistoryEntry => Line(false, None, false, false)
    case ReconcileHistoryEntry => Line(false, None, true, false)
    case ListHistoryConnections => Line(false, None, false, false)
    case ReadWorkspacePreferences => Line(false, None, false, false)
    case WriteWorkspacePreferences => Line(false, None, true, false)
    case WriteWindowLayout => Line(false, None, true, false)
    case ListQueryDocuments => Line(false, None, false, false)
    case SaveQueryDocument => Line(false, None, false, false)
    case CloseQueryDocument => Line(false, None, false, false)
    case DeleteQueryDocument => Line(false, None, false, false)
    case OpenDocument => Line(false, None, false, false)
    case WriteDocument => Line(false, None, false, false)
    case CreateConnection(config) => Line(false, Some(config.id), true, true)
    case TestConnection(config) => Line(true, Some(config.id), true, false)
    case UpdateConnection(config) => Line(false, Some(config.id), true, true)
    case DeleteConnection(id) => Line(false, Some(id), false, true)
    case ListAiProviders => Line(false, None, false, false)
    case SaveAiProvider => Line(false, None, true, false)
    case RemoveAiProvider => Line(false, None, true, false)
    case ListExternalAgents => Line(false, None, false, false)
    case SaveExternalAgent => Line(false, None, true, false)
    case RemoveExternalAgent => Line(false, None, true, false)
  }

  /** The gate goes by the table: what runs against a server, whose connection it is, what is the human's,
      and what mutates — configuring a connection, or a statement that is not a mere read. */
  lemma GateGoesByTheTable(cmd: Command)
    ensures cmd.TouchesDatabase() <==> LineOf(cmd).onServer
    ensures cmd.TargetConnection() == LineOf(cmd).target
    ensures HumansOwn(cmd) <==> LineOf(cmd).humansOwn
    ensures cmd.IsMutating() <==>
      LineOf(cmd).configures || (cmd.Execute? && (cmd.request.intent != Read || cmd.request.risk != NoRisk))
    ensures cmd.Intent() ==
      if LineOf(cmd).configures then Ddl else if cmd.Execute? then cmd.request.intent else Read
  {
  }

  /** A mutating command that runs against a server names its connection. */
  lemma MutatingTargets(cmd: Command)
    ensures cmd.IsMutating() && cmd.TouchesDatabase() ==> cmd.TargetConnection().Some?
    ensures cmd.Intent() == Grant ==> cmd.IsMutating()
  {
  }

  /** On production, a mutating command is never let through, and whoever approves it reads the name of
      a known connection. */
  lemma ProductionIsNamed(actor: Actor, cmd: Command, announced: Environment, facts: Option<ConnectionFacts>)
    requires cmd.IsMutating() && Retain(announced, facts) == Production
    ensures var decision := Decide(actor, cmd, announced, facts);
      decision != Allow && (actor == Agent ==> decision.Deny?)
      && (decision.RequireApproval? ==>
            decision.preview == PreviewOf(cmd, facts)
              && (facts.Some? ==> decision.preview.connection == facts.value.name))
  {
  }

  // ---------- over runs of the registry ----------

  datatype RegistryStep = Registered(id: ConnectionId, facts: ConnectionFacts) | Forgotten(id: ConnectionId)

  function Applied(connections: map<ConnectionId, ConnectionFacts>,
                   step: RegistryStep): map<ConnectionId, ConnectionFacts> {
    match step
    case Registered(id, facts) => connections[id := facts]
    case Forgotten(id) => connections - {id}
  }

  function RegistryAfter(steps: seq<RegistryStep>): map<ConnectionId, ConnectionFacts> {
    if steps == [] then map[] else Applied(RegistryAfter(steps[..|steps| - 1]), steps[|steps| - 1])
  }

  function About(steps: seq<RegistryStep>, id: ConnectionId): seq<RegistryStep> {
    if steps == [] then []
    else
      var n := |steps| - 1;
      About(steps[..n], id) + (if steps[n].id == id then [steps[n]] else [])
  }

  lemma {:induction false} OnlyItsStepsCount(steps: seq<RegistryStep>, id: ConnectionId)
    ensures id in RegistryAfter(steps) <==> id in RegistryAfter(About(steps, id))
    ensures id in RegistryAfter(steps) ==> RegistryAfter(steps)[id] == RegistryAfter(About(steps, id))[id]
  {
    if steps != [] {
      var n := |steps| - 1;
      var before := About(steps[..n], id);
      OnlyItsStepsCount(steps[..n], id);
      if steps[n].id == id {
        assert (before + [steps[n]])[..|before|] == before;
      } else {
        assert before + [] == before;
      }
    }
  }

  /** What was done to other connections changes no decision, and so does everything before the last
      step about the target. */
  lemma DecisionDependsOnItsConnection(steps: seq<RegistryStep>, actor: Actor, cmd: Command, announced: Environment,
                                       id: ConnectionId)
    requires cmd.TargetConnection() == Some(id)
    ensures Decide(actor, cmd, announced, KnownFacts(RegistryAfter(steps), cmd)) ==
      Decide(actor, cmd, announced, KnownFacts(RegistryAfter(About(steps, id)), cmd))
    ensures About(steps, id) != [] ==>
      KnownFacts(RegistryAfter(steps), cmd) == match About(steps, id)[|About(steps, id)| - 1]
        case Registered(_, facts) => Some(facts)
        case Forgotten(_) => None
  {
    OnlyItsStepsCount(steps, id);
    StepsAboutIt(steps, id);
  }

  lemma {:induction false} StepsAboutIt(steps: seq<RegistryStep>, id: ConnectionId)
    ensures forall i :: 0 <= i < |About(steps, id)| ==> About(steps, id)[i].id == id
  {
    if steps != [] { StepsAboutIt(steps[..|steps| - 1], id); }
  }

  /** Forgetting a connection never loosens what is decided of a command that runs against it. */
  lemma ForgettingHoldsDatabaseCommands(connections: map<ConnectionId, ConnectionFacts>, id: ConnectionId, actor: Actor,
                                        cmd: Command, announced: Environment)
    requires cmd.TouchesDatabase()
    ensures Decide(actor, cmd, announced, KnownFacts(connections - {id}, cmd)).Restrictiveness() >=
      Decide(actor, cmd, announced, KnownFacts(connections, cmd)).Restrictiveness()
  {
    MutatingTargets(cmd);
  }

  /** It loosens exactly the mutating commands that stay in the workspace, target that connection, and
      were held for its production marking alone. */
  lemma ForgettingLoosensExactly(connections: map<ConnectionId, ConnectionFacts>, id: ConnectionId, actor: Actor,
                                 cmd: Command, announced: Environment)
    requires id in connections
    ensures Loosened(connections, id, actor, cmd, announced) <==>
      && cmd.TargetConnection() == Some(id) && cmd.IsMutating() && !cmd.TouchesDatabase()
      && connections[id].environment == Production && announced != Production
      && (actor == Agent ==> !HumansOwn(cmd))
  {
    MutatingTargets(cmd);
  }

  predicate Loosened(connections: map<ConnectionId, ConnectionFacts>, id: ConnectionId, actor: Actor, cmd: Command,
                     announced: Environment) {
    Decide(actor, cmd, announced, KnownFacts(connections - {id}, cmd)).Restrictiveness()
      < Decide(actor, cmd, announced, KnownFacts(connections, cmd)).Restrictiveness()
  }
}
