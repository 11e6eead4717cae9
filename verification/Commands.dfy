/** The commands of the bus. They carry what the policy classifies them by, and what a tool call puts in
    them: connections, the executed request, a configuration's identity and name, a read's target.
  */
module Commands {
  import opened Options

  type ConnectionId = nat

  datatype StatementIntent = Read | Write | Ddl | Grant | Unknown {
    predicate IsMutating() { this != Read }
  }

  datatype MutationRisk =
    | NoRisk | UnboundedUpdate | UnboundedDelete | Truncate | DropObject | CopyToServerFile | CopyServerProgram

  datatype ExecRequest = ExecRequest(
    text: string, intent: StatementIntent, risk: MutationRisk, transactionControl: bool, contextChange: bool,
    readOnly: bool)

  datatype Config = Config(id: ConnectionId, name: string)

  datatype Command =
    | Connect(connection: ConnectionId)
    | Disconnect(connection: ConnectionId)
    | CloseSession(connection: ConnectionId)
    | SetSessionContext(connection: ConnectionId)
    | Execute(connection: ConnectionId, request: ExecRequest)
    | PreviewRelation(connection: ConnectionId, namespace: Option<string>, relation: string, limit: nat)
    | Cancel(connection: ConnectionId)
    | RefreshCatalog(connection: ConnectionId)
    | DescribeCatalog(connection: ConnectionId, focus: Option<string>)
    | RefreshCatalogScope(connection: ConnectionId)
    | InspectResultValue(connection: ConnectionId)
    | ReadResultPage(connection: ConnectionId)
    | Export(connection: ConnectionId)
    | OpenRetainedResult(connection: ConnectionId)
    | ReadHistory(filter: Option<ConnectionId>)
    | ReadHistoryEntry
    | ReconcileHistoryEntry
    | ListHistoryConnections
    | ReadWorkspacePreferences
    | WriteWorkspacePreferences
    | WriteWindowLayout
    | ListQueryDocuments
    | SaveQueryDocument
    | CloseQueryDocument
    | DeleteQueryDocument
    | OpenDocument
    | WriteDocument
    | CreateConnection(config: Config)
    | TestConnection(config: Config)
    | UpdateConnection(config: Config)
    | DeleteConnection(connection: ConnectionId)
    | ListAiProviders
    | SaveAiProvider
    | RemoveAiProvider
    | ListExternalAgents
    | SaveExternalAgent
    | RemoveExternalAgent
  {
    function Intent(): StatementIntent {
      if Execute? then request.intent
      else if CreateConnection? || UpdateConnection? || DeleteConnection? then Ddl
      else Read
    }

    function TargetConnection(): Option<ConnectionId> {
      if ReadHistory? then filter
      else if CreateConnection? || UpdateConnection? || TestConnection? then Some(config.id)
      else if Connect? || Disconnect? || CloseSession? || SetSessionContext? || Execute? || Cancel? || RefreshCatalog?
        || DescribeCatalog? || RefreshCatalogScope? || PreviewRelation? || ReadResultPage? || OpenRetainedResult?
        || InspectResultValue? || Export? || DeleteConnection?
      then Some(connection)
      else None
    }

    function Risk(): MutationRisk {
      if Execute? then request.risk else NoRisk
    }

    predicate ControlsTransaction() {
      Execute? && request.transactionControl
    }

    predicate ChangesContext() {
      Execute? && request.contextChange
    }

    predicate TouchesDatabase() {
      || Connect? || Disconnect? || CloseSession? || SetSessionContext? || Execute? || Cancel? || RefreshCatalog?
      || RefreshCatalogScope? || PreviewRelation? || Export? || TestConnection?
    }

    predicate IsMutating() {
      Intent().IsMutating() || Risk() != NoRisk
    }

    /** The statement, when the command carries one; otherwise the command goes by its own name. */
    function StatementText(): Option<string> {
      if Execute? then Some(request.text) else None
    }
  }
}
