/** The tree of a connection's metadata, as a value: what every operation of the cache
    makes of it. */
module CatalogTree {
  import opened Options
  import opened OrderedMaps
  import opened Paths
  import Nesting

  type Instant = int
  type Content = seq<string>

  /** A lifetime, or one beyond what the clock can represent. */
  datatype Lifetime = Within(limit: nat) | BeyondTheClock

  datatype Freshness = Never | Fetched(at: Instant) | Invalidated {
    predicate Known() {
      !Never?
    }

    function FetchedAt(): Option<Instant> {
      if Fetched? then Some(at) else None
    }

    predicate StaleAt(now: Instant, ttl: Lifetime) {
      match this
      case Never => false
      case Invalidated => true
      case Fetched(at) => ttl.Within? && now - at > ttl.limit
    }

    function Invalidate(): Freshness {
      if Known() then Invalidated else Never
    }
  }

  datatype Cached<T> = Cached(freshness: Freshness, value: T) {
    function Invalidate(): Cached<T> {
      this.(freshness := freshness.Invalidate())
    }
  }

  function Unread<T>(): Cached<Option<T>> {
    Cached(Never, None)
  }

  function Unlisted<V>(): Cached<OrderedMap<V>> {
    Cached(Never, Empty())
  }

  // ---------- nodes ----------

  datatype CatalogRef = CatalogRef(name: string, isDefault: bool)

  datatype NamespaceRef = NamespaceRef(parent: CatalogPath, name: string, isSystem: bool)

  datatype RelationRef = RelationRef(parent: CatalogPath, name: string, kind: nat) {
    function Path(): CatalogPath {
      parent.(relation := Some(name))
    }
  }

  datatype RelationDefinition = RelationDefinition(sql: seq<bv8>, notes: seq<seq<bv8>>)

  /** A relation's own description: its fields, and everything else of it. */
  datatype Description = Description(content: Content, fields: seq<Nesting.Field>) {
    /** No field nests past the bound. */
    function Bounded(): Description {
      this.(fields := seq(|fields|,
        i requires 0 <= i < |fields| => fields[i].(logical := Nesting.Cut(fields[i].logical, 1))))
    }
  }

  /** What is known of a relation: its line in the listing, and each thing asked about it. */
  datatype RelationNode = RelationNode(
    summary: RelationRef,
    detail: Cached<Option<Description>>,
    indexes: Cached<Option<Content>>,
    foreignKeys: Cached<Option<Content>>,
    constraints: Cached<Option<Content>>,
    incomingKeys: Cached<Option<Content>>,
    definition: Cached<Option<RelationDefinition>>) {
    function Invalidate(): RelationNode {
      RelationNode(summary, detail.Invalidate(), indexes.Invalidate(), foreignKeys.Invalidate(),
                   constraints.Invalidate(), incomingKeys.Invalidate(), definition.Invalidate())
    }

    predicate StaleAt(now: Instant, ttl: Lifetime) {
      detail.freshness.StaleAt(now, ttl) || indexes.freshness.StaleAt(now, ttl)
        || foreignKeys.freshness.StaleAt(now, ttl)
    }
  }

  function NewRelation(summary: RelationRef): RelationNode {
    RelationNode(summary, Unread(), Unread(), Unread(), Unread(), Unread(), Unread())
  }

  datatype NamespaceNode = NamespaceNode(info: Option<NamespaceRef>, relations: Cached<OrderedMap<RelationNode>>) {
    function Invalidate(): NamespaceNode {
      this.(relations := Cached(relations.freshness.Invalidate(),
        relations.value.Mapped((r: RelationNode) => r.Invalidate())))
    }
  }

  datatype CatalogNode = CatalogNode(info: Option<CatalogRef>, namespaces: Cached<OrderedMap<NamespaceNode>>) {
    function Invalidate(): CatalogNode {
      this.(namespaces := Cached(namespaces.freshness.Invalidate(),
        namespaces.value.Mapped((n: NamespaceNode) => n.Invalidate())))
    }
  }

  datatype Tree = Tree(
    server: Cached<Option<Content>>,
    catalogs: Cached<OrderedMap<CatalogNode>>,
    resolutionPath: Cached<Option<seq<string>>>)

  const NEW_TREE: Tree := Tree(Unread(), Unlisted(), Unread())

  // ---------- keys ----------

  /** The empty string names no object: it is the key of a missing level. */
  const MISSING_TIER: string := ""

  function MapKey(name: Option<string>): string {
    if name.Some? then name.value else MISSING_TIER
  }

  function FromKey(key: string): Option<string> {
    if key == MISSING_TIER then None else Some(key)
  }

  function CatalogPlace(c: string): CatalogPath {
    CatalogPath(FromKey(c), None, None)
  }

  function NamespacePlace(c: string, n: string): CatalogPath {
    CatalogPath(FromKey(c), FromKey(n), None)
  }

  function RelationPlace(c: string, n: string, r: string): CatalogPath {
    CatalogPath(FromKey(c), FromKey(n), Some(r))
  }

  // ---------- every node's path is its position ----------

  ghost predicate RelationAtItsPlace(node: RelationNode, c: string, n: string, r: string) {
    r != MISSING_TIER && node.summary.Path() == RelationPlace(c, n, r) && node.summary.parent == NamespacePlace(c, n)
  }

  ghost predicate NamespaceAtItsPlace(node: NamespaceNode, c: string, n: string) {
    && (node.info.Some? ==> n != MISSING_TIER && node.info.value.name == n && node.info.value.parent == CatalogPlace(c))
    && node.relations.value.Valid()
    && forall r :: r in node.relations.value.values ==> RelationAtItsPlace(node.relations.value.values[r], c, n, r)
  }

  ghost predicate CatalogAtItsPlace(node: CatalogNode, c: string) {
    && (node.info.Some? ==> c != MISSING_TIER && node.info.value.name == c)
    && node.namespaces.value.Valid()
    && forall n :: n in node.namespaces.value.values ==> NamespaceAtItsPlace(node.namespaces.value.values[n], c, n)
  }

  ghost predicate Valid(t: Tree) {
    && t.catalogs.value.Valid()
    && forall c :: c in t.catalogs.value.values ==> CatalogAtItsPlace(t.catalogs.value.values[c], c)
  }

  // ---------- navigation ----------

  function CatalogAt(t: Tree, catalog: Option<string>): Option<CatalogNode> {
    t.catalogs.value.Get(MapKey(catalog))
  }

  function NamespaceAt(t: Tree, path: CatalogPath): Option<NamespaceNode> {
    var node := CatalogAt(t, path.catalog);
    if node.Some? then node.value.namespaces.value.Get(MapKey(path.namespace)) else None
  }

  function RelationAt(t: Tree, path: CatalogPath): Option<RelationNode> {
    var node := NamespaceAt(t, path);
    if path.relation.Some? && node.Some? then node.value.relations.value.Get(path.relation.value) else None
  }

  /** The node of a catalog, or an unlisted and unread one to put a namespace under. */
  function CatalogOrNew(t: Tree, catalog: Option<string>): CatalogNode {
    var node := CatalogAt(t, catalog);
    if node.Some? then node.value
    else CatalogNode(if catalog.Some? then Some(CatalogRef(catalog.value, false)) else None, Unlisted())
  }

  function NamespaceOrNew(t: Tree, path: CatalogPath): NamespaceNode {
    var node := NamespaceAt(t, path);
    if node.Some? then node.value
    else
      var parent := CatalogPath(path.catalog, None, None);
      NamespaceNode(
        if path.namespace.Some? then Some(NamespaceRef(parent, path.namespace.value, false)) else None, Unlisted())
  }

  function RelationOrNew(t: Tree, path: CatalogPath, kind: nat): RelationNode
    requires path.relation.Some?
  {
    var node := RelationAt(t, path);
    if node.Some? then node.value
    else NewRelation(RelationRef(CatalogPath(path.catalog, path.namespace, None), path.relation.value, kind))
  }

  function WithCatalog(t: Tree, catalog: Option<string>, node: CatalogNode): Tree {
    t.(catalogs := t.catalogs.(value := t.catalogs.value.Put(MapKey(catalog), node)))
  }

  function WithNamespace(t: Tree, path: CatalogPath, node: NamespaceNode): Tree {
    var parent := CatalogOrNew(t, path.catalog);
    WithCatalog(t, path.catalog, parent.(namespaces := parent.namespaces.(
      value := parent.namespaces.value.Put(MapKey(path.namespace), node))))
  }

  function WithRelation(t: Tree, path: CatalogPath, node: RelationNode): Tree
    requires path.relation.Some?
  {
    var parent := NamespaceOrNew(t, path);
    WithNamespace(t, path, parent.(relations := parent.relations.(
      value := parent.relations.value.Put(path.relation.value, node))))
  }

  // ---------- listing a level again ----------

  /** What is left of the previous level, and the new one, once `items` are placed in turn. */
  function Relist<I, V>(previous: OrderedMap<V>, items: seq<I>, key: I -> string, renew: (I, V) -> V, create: I -> V)
    : (OrderedMap<V>, OrderedMap<V>)
    decreases |items|
  {
    if items == [] then (previous, Empty())
    else
      var (left, renewed) := Relist(previous, items[..|items| - 1], key, renew, create);
      var item := items[|items| - 1];
      var node := if key(item) in left.values then renew(item, left.values[key(item)]) else create(item);
      (left.Drop(key(item)), renewed.Put(key(item), node))
  }

  lemma RelistStep<I, V>(previous: OrderedMap<V>, items: seq<I>, key: I -> string, renew: (I, V) -> V, create: I -> V,
                         i: nat)
    requires i < |items|
    ensures var (left, renewed) := Relist(previous, items[..i], key, renew, create);
      var node := if key(items[i]) in left.values then renew(items[i], left.values[key(items[i])])
        else create(items[i]);
      Relist(previous, items[..i + 1], key, renew, create)
        == (left.Drop(key(items[i])), renewed.Put(key(items[i]), node))
  {
    assert items[..i + 1][..i] == items[..i];
  }

  function RenewCatalog(info: CatalogRef, node: CatalogNode): CatalogNode {
    node.(info := Some(info))
  }

  function CreateCatalog(info: CatalogRef): CatalogNode {
    CatalogNode(Some(info), Unlisted())
  }

  function RenewNamespace(info: NamespaceRef, node: NamespaceNode): NamespaceNode {
    node.(info := Some(info))
  }

  function CreateNamespace(info: NamespaceRef): NamespaceNode {
    NamespaceNode(Some(info), Unlisted())
  }

  function RenewRelation(summary: RelationRef, node: RelationNode): RelationNode {
    node.(summary := summary)
  }

  function SetCatalogs(t: Tree, infos: seq<CatalogRef>, now: Instant): Tree {
    var renewed := Relist(t.catalogs.value, infos, (i: CatalogRef) => i.name, RenewCatalog, CreateCatalog).1;
    t.(catalogs := Cached(Fetched(now), renewed))
  }

  function NamespaceInfos(catalog: Option<string>, infos: seq<NamespaceRef>): seq<NamespaceRef> {
    seq(|infos|, i requires 0 <= i < |infos| => infos[i].(parent := CatalogPath(catalog, None, None)))
  }

  function SetNamespaces(t: Tree, catalog: Option<string>, infos: seq<NamespaceRef>, now: Instant): Tree {
    var node := CatalogOrNew(t, catalog);
    var renewed := Relist(node.namespaces.value, NamespaceInfos(catalog, infos),
                        (i: NamespaceRef) => i.name, RenewNamespace, CreateNamespace).1;
    WithCatalog(t, catalog, node.(namespaces := Cached(Fetched(now), renewed)))
  }

  function Summaries(namespace: CatalogPath, relations: seq<RelationRef>): seq<RelationRef> {
    seq(|relations|, i requires 0 <= i < |relations| => relations[i].(parent := namespace))
  }

  function SetRelations(t: Tree, namespace: CatalogPath, relations: seq<RelationRef>, now: Instant): Tree {
    var node := NamespaceOrNew(t, namespace);
    var renewed := Relist(node.relations.value, Summaries(namespace, relations),
                        (r: RelationRef) => r.name, RenewRelation, NewRelation).1;
    WithNamespace(t, namespace, node.(relations := Cached(Fetched(now), renewed)))
  }

  // ---------- reading a relation ----------

  datatype CacheError = NotARelation | NotANamespace | UnknownRelation

  /** The parts of a relation that have a freshness each. */
  datatype Aspect = Detail | Indexes | ForeignKeys | Constraints | IncomingKeys | Definition

  datatype Reading = Reading(aspect: Aspect, content: Content) | ReadDefinition(definition: RelationDefinition)

  function WithReading(node: RelationNode, reading: Reading, now: Instant): RelationNode {
    match reading
    case ReadDefinition(definition) => node.(definition := Cached(Fetched(now), Some(definition)))
    case Reading(aspect, content) =>
      var read := Cached(Fetched(now), Some(content));
      match aspect
      case Detail => node
      case Indexes => node.(indexes := read)
      case ForeignKeys => node.(foreignKeys := read)
      case Constraints => node.(constraints := read)
      case IncomingKeys => node.(incomingKeys := read)
      case Definition => node
  }

  /** Records what was read of an already known relation. */
  function SetReading(t: Tree, path: CatalogPath, reading: Reading, now: Instant): Tree {
    var node := RelationAt(t, path);
    if node.Some? then WithRelation(t, path, WithReading(node.value, reading, now)) else t
  }

  function WithDescription(node: RelationNode, description: Description, now: Instant): RelationNode {
    node.(detail := Cached(Fetched(now), Some(description.Bounded())))
  }

  /** Records a description, its types cut at the nesting bound, creating the relation and its parents
      when they are missing. */
  function SetRelation(t: Tree, path: CatalogPath, kind: nat, description: Description, now: Instant): Tree
    requires path.relation.Some?
  {
    WithRelation(t, path, WithDescription(RelationOrNew(t, path, kind), description, now))
  }

  // ---------- scopes ----------

  datatype CatalogScope =
    | ServerScope
    | CatalogScope(path: CatalogPath)
    | NamespaceScope(path: CatalogPath)
    | RelationScope(path: CatalogPath)
    | ConstraintsScope(path: CatalogPath)
    | IncomingKeysScope(path: CatalogPath)
    | DefinitionScope(path: CatalogPath) {
    function Level(): nat {
      match this
      case ServerScope => 0
      case CatalogScope(_) => 1
      case NamespaceScope(_) => 2
      case _ => 3
    }

    /** Does rereading this scope reread `other`? */
    predicate Contains(other: CatalogScope) {
      if ConstraintsScope? || IncomingKeysScope? || DefinitionScope? then this == other
      else if ServerScope? then true
      else if other.ServerScope? || other.Level() < Level() then false
      else other.path.StartsWith(path)
    }
  }

  // ---------- invalidating, forgetting, evicting ----------

  function Marked(t: Tree, scope: CatalogScope): Tree {
    match scope
    case ServerScope =>
      Tree(t.server.Invalidate(),
           Cached(t.catalogs.freshness.Invalidate(), t.catalogs.value.Mapped((c: CatalogNode) => c.Invalidate())),
           t.resolutionPath.Invalidate())
    case CatalogScope(path) =>
      var node := CatalogAt(t, path.catalog);
      if node.Some? then WithCatalog(t, path.catalog, node.value.Invalidate()) else t
    case NamespaceScope(path) =>
      var node := NamespaceAt(t, path);
      if node.Some? then WithNamespace(t, path, node.value.Invalidate()) else t
    case RelationScope(path) =>
      var node := RelationAt(t, path);
      if node.Some? then WithRelation(t, path, node.value.Invalidate()) else t
    case ConstraintsScope(path) =>
      var node := RelationAt(t, path);
      if node.Some? then WithRelation(t, path, node.value.(constraints := node.value.constraints.Invalidate())) else t
    case IncomingKeysScope(path) =>
      var node := RelationAt(t, path);
      if node.Some? then WithRelation(t, path, node.value.(incomingKeys := node.value.incomingKeys.Invalidate())) else t
    case DefinitionScope(path) =>
      var node := RelationAt(t, path);
      if node.Some? then WithRelation(t, path, node.value.(definition := node.value.definition.Invalidate())) else t
  }

  function Forgotten(t: Tree, scope: CatalogScope): Tree {
    match scope
    case ServerScope => NEW_TREE
    case CatalogScope(path) =>
      t.(catalogs := Cached(t.catalogs.freshness.Invalidate(), t.catalogs.value.Drop(MapKey(path.catalog))))
    case NamespaceScope(path) =>
      var node := CatalogAt(t, path.catalog);
      if node.None? then t
      else WithCatalog(t, path.catalog, node.value.(namespaces :=
        Cached(node.value.namespaces.freshness.Invalidate(), node.value.namespaces.value.Drop(MapKey(path.namespace)))))
    case RelationScope(path) =>
      var node := NamespaceAt(t, path);
      if path.relation.None? || node.None? then t
      else WithNamespace(t, path, node.value.(relations :=
        Cached(node.value.relations.freshness.Invalidate(), node.value.relations.value.Drop(path.relation.value))))
    case ConstraintsScope(path) =>
      var node := RelationAt(t, path);
      if node.Some? then WithRelation(t, path, node.value.(constraints := Unread())) else t
    case IncomingKeysScope(path) =>
      var node := RelationAt(t, path);
      if node.Some? then WithRelation(t, path, node.value.(incomingKeys := Unread())) else t
    case DefinitionScope(path) =>
      var node := RelationAt(t, path);
      if node.Some? then WithRelation(t, path, node.value.(definition := Unread())) else t
  }

  function Evicted(t: Tree, scope: CatalogScope): Tree {
    match scope
    case ServerScope => NEW_TREE
    case CatalogScope(path) =>
      var node := CatalogAt(t, path.catalog);
      if t.catalogs.freshness == Never then
        t.(catalogs := t.catalogs.(value := t.catalogs.value.Drop(MapKey(path.catalog))))
      else if node.Some? then WithCatalog(t, path.catalog, node.value.(namespaces := Unlisted()))
      else t
    case NamespaceScope(path) =>
      var parent := CatalogAt(t, path.catalog);
      var node := NamespaceAt(t, path);
      if parent.None? then t
      else if parent.value.namespaces.freshness == Never then
        WithCatalog(t, path.catalog, parent.value.(namespaces :=
          parent.value.namespaces.(value := parent.value.namespaces.value.Drop(MapKey(path.namespace)))))
      else if node.Some? then WithNamespace(t, path, node.value.(relations := Unlisted()))
      else t
    case RelationScope(path) =>
      var parent := NamespaceAt(t, path);
      var node := RelationAt(t, path);
      if node.None? then t
      else
        var emptied := node.value.(detail := Unread(), indexes := Unread(), foreignKeys := Unread());
        var empty := emptied.constraints.value.None? && emptied.incomingKeys.value.None?
          && emptied.definition.value.None?;
        if parent.value.relations.freshness == Never && empty then
          WithNamespace(t, path, parent.value.(relations :=
            parent.value.relations.(value := parent.value.relations.value.Drop(path.relation.value))))
        else WithRelation(t, path, emptied)
    case _ => Forgotten(t, scope)
  }

  // ---------- replacing a node at its place ----------

  /** Named levels have a name; the missing level is `None`. */
  predicate Named(path: CatalogPath) {
    path.catalog != Some(MISSING_TIER) && path.namespace != Some(MISSING_TIER) && path.relation != Some(MISSING_TIER)
  }

  lemma OrNewIsValid(t: Tree, path: CatalogPath)
    requires Valid(t)
    ensures CatalogOrNew(t, path.catalog).namespaces.value.Valid()
    ensures NamespaceOrNew(t, path).relations.value.Valid()
    ensures Named(path) || CatalogAt(t, path.catalog).Some? ==>
      CatalogAtItsPlace(CatalogOrNew(t, path.catalog), MapKey(path.catalog))
    ensures Named(path) || NamespaceAt(t, path).Some? ==>
      NamespaceAtItsPlace(NamespaceOrNew(t, path), MapKey(path.catalog), MapKey(path.namespace))
  {
  }

  lemma WithCatalogIsValid(t: Tree, catalog: Option<string>, node: CatalogNode)
    requires Valid(t) && CatalogAtItsPlace(node, MapKey(catalog))
    ensures Valid(WithCatalog(t, catalog, node))
  {
  }

  lemma WithNamespaceIsValid(t: Tree, path: CatalogPath, node: NamespaceNode)
    requires Valid(t) && (Named(path) || CatalogAt(t, path.catalog).Some?)
    requires NamespaceAtItsPlace(node, MapKey(path.catalog), MapKey(path.namespace))
    ensures Valid(WithNamespace(t, path, node))
  {
    OrNewIsValid(t, path);
    var parent := CatalogOrNew(t, path.catalog);
    WithCatalogIsValid(t, path.catalog, parent.(namespaces := parent.namespaces.(
      value := parent.namespaces.value.Put(MapKey(path.namespace), node))));
  }

  lemma WithRelationIsValid(t: Tree, path: CatalogPath, node: RelationNode)
    requires Valid(t) && path.relation.Some? && (Named(path) || NamespaceAt(t, path).Some?)
    requires RelationAtItsPlace(node, MapKey(path.catalog), MapKey(path.namespace), path.relation.value)
    ensures Valid(WithRelation(t, path, node))
  {
    OrNewIsValid(t, path);
    var parent := NamespaceOrNew(t, path);
    WithNamespaceIsValid(t, path, parent.(relations := parent.relations.(
      value := parent.relations.value.Put(path.relation.value, node))));
  }
}
