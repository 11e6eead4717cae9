/** Which parts of the catalog tree have to be read again. */
module CatalogStaleness {
  import opened Options
  import opened OrderedMaps
  import opened Paths
  import opened CatalogTree

  // ---------- invalidating marks a subtree and touches nothing else ----------

  /** Everything of the tree that carries a freshness, named by its keys. */
  datatype Slot =
    | ServerSlot
    | ResolutionSlot
    | CatalogsSlot
    | NamespacesSlot(c: string)
    | RelationsSlot(c: string, n: string)
    | RelationSlot(c: string, n: string, r: string, aspect: Aspect)

  function CatalogNodeAt(t: Tree, c: string): Option<CatalogNode> {
    t.catalogs.value.Get(c)
  }

  function NamespaceNodeAt(t: Tree, c: string, n: string): Option<NamespaceNode> {
    var node := CatalogNodeAt(t, c);
    if node.Some? then node.value.namespaces.value.Get(n) else None
  }

  function RelationNodeAt(t: Tree, c: string, n: string, r: string): Option<RelationNode> {
    var node := NamespaceNodeAt(t, c, n);
    if node.Some? then node.value.relations.value.Get(r) else None
  }

  function AspectFreshness(node: RelationNode, aspect: Aspect): Freshness {
    match aspect
    case Detail => node.detail.freshness
    case Indexes => node.indexes.freshness
    case ForeignKeys => node.foreignKeys.freshness
    case Constraints => node.constraints.freshness
    case IncomingKeys => node.incomingKeys.freshness
    case Definition => node.definition.freshness
  }

  /** The freshness of a place; a place the tree does not hold was never read. */
  function FreshnessAt(t: Tree, slot: Slot): Freshness {
    match slot
    case ServerSlot => t.server.freshness
    case ResolutionSlot => t.resolutionPath.freshness
    case CatalogsSlot => t.catalogs.freshness
    case NamespacesSlot(c) =>
      var node := CatalogNodeAt(t, c);
      if node.Some? then node.value.namespaces.freshness else Never
    case RelationsSlot(c, n) =>
      var node := NamespaceNodeAt(t, c, n);
      if node.Some? then node.value.relations.freshness else Never
    case RelationSlot(c, n, r, aspect) =>
      var node := RelationNodeAt(t, c, n, r);
      if node.Some? then AspectFreshness(node.value, aspect) else Never
  }

  predicate InCatalog(slot: Slot, path: CatalogPath) {
    (slot.NamespacesSlot? || slot.RelationsSlot? || slot.RelationSlot?) && slot.c == MapKey(path.catalog)
  }

  predicate InNamespace(slot: Slot, path: CatalogPath) {
    (slot.RelationsSlot? || slot.RelationSlot?) && slot.c == MapKey(path.catalog) && slot.n == MapKey(path.namespace)
  }

  predicate InRelation(slot: Slot, path: CatalogPath) {
    slot.RelationSlot? && InNamespace(slot, path) && path.relation == Some(slot.r)
  }

  /** Is this slot in the subtree a scope designates? */
  predicate Under(scope: CatalogScope, slot: Slot) {
    match scope
    case ServerScope => true
    case CatalogScope(path) => InCatalog(slot, path)
    case NamespaceScope(path) => InNamespace(slot, path)
    case RelationScope(path) => InRelation(slot, path)
    case ConstraintsScope(path) => InRelation(slot, path) && slot.aspect == Constraints
    case IncomingKeysScope(path) => InRelation(slot, path) && slot.aspect == IncomingKeys
    case DefinitionScope(path) => InRelation(slot, path) && slot.aspect == Definition
  }

  /** The freshness slots of one catalog, namespace or relation. */
  function FreshnessIn(node: CatalogNode, slot: Slot): Freshness {
    match slot
    case NamespacesSlot(_) => node.namespaces.freshness
    case RelationsSlot(_, n) =>
      if n in node.namespaces.value.values then FreshnessWithin(node.namespaces.value.values[n], slot) else Never
    case RelationSlot(_, n, _, _) =>
      if n in node.namespaces.value.values then FreshnessWithin(node.namespaces.value.values[n], slot) else Never
    case _ => Never
  }

  function FreshnessWithin(node: NamespaceNode, slot: Slot): Freshness {
    match slot
    case RelationsSlot(_, _) => node.relations.freshness
    case RelationSlot(_, _, r, aspect) =>
      if r in node.relations.value.values then AspectFreshness(node.relations.value.values[r], aspect) else Never
    case _ => Never
  }

  lemma FreshnessIsIn(t: Tree, slot: Slot)
    requires slot.NamespacesSlot? || slot.RelationsSlot? || slot.RelationSlot?
    ensures FreshnessAt(t, slot)
      == if CatalogNodeAt(t, slot.c).Some? then FreshnessIn(CatalogNodeAt(t, slot.c).value, slot) else Never
  {
  }

  lemma RelationInvalidates(node: RelationNode, aspect: Aspect)
    ensures AspectFreshness(node.Invalidate(), aspect) == AspectFreshness(node, aspect).Invalidate()
  {
  }

  lemma NamespaceInvalidates(node: NamespaceNode, slot: Slot)
    ensures FreshnessWithin(node.Invalidate(), slot) == FreshnessWithin(node, slot).Invalidate()
  {
    if slot.RelationSlot? && slot.r in node.relations.value.values {
      RelationInvalidates(node.relations.value.values[slot.r], slot.aspect);
    }
  }

  lemma CatalogInvalidates(node: CatalogNode, slot: Slot)
    ensures FreshnessIn(node.Invalidate(), slot) == FreshnessIn(node, slot).Invalidate()
  {
    if (slot.RelationsSlot? || slot.RelationSlot?) && slot.n in node.namespaces.value.values {
      NamespaceInvalidates(node.namespaces.value.values[slot.n], slot);
    }
  }

  /** Replacing a known catalog changes the freshness of its own slots only. */
  lemma WithCatalogChanges(t: Tree, path: CatalogPath, node: CatalogNode, slot: Slot)
    ensures FreshnessAt(WithCatalog(t, path.catalog, node), slot)
         == if InCatalog(slot, path) then FreshnessIn(node, slot) else FreshnessAt(t, slot)
  {
    if slot.NamespacesSlot? || slot.RelationsSlot? || slot.RelationSlot? {
      FreshnessIsIn(t, slot);
      FreshnessIsIn(WithCatalog(t, path.catalog, node), slot);
    }
  }

  lemma WithNamespaceChanges(t: Tree, path: CatalogPath, node: NamespaceNode, slot: Slot)
    requires NamespaceAt(t, path).Some?
    ensures FreshnessAt(WithNamespace(t, path, node), slot)
         == if InNamespace(slot, path) then FreshnessWithin(node, slot) else FreshnessAt(t, slot)
  {
    var parent := CatalogAt(t, path.catalog).value;
    WithCatalogChanges(t, path, parent.(namespaces := parent.namespaces.(
      value := parent.namespaces.value.Put(MapKey(path.namespace), node))), slot);
    if slot.NamespacesSlot? || slot.RelationsSlot? || slot.RelationSlot? { FreshnessIsIn(t, slot); }
  }

  lemma WithRelationChanges(t: Tree, path: CatalogPath, node: RelationNode, slot: Slot)
    requires RelationAt(t, path).Some?
    ensures FreshnessAt(WithRelation(t, path, node), slot)
         == if InRelation(slot, path) then AspectFreshness(node, slot.aspect) else FreshnessAt(t, slot)
  {
    var parent := NamespaceAt(t, path).value;
    WithNamespaceChanges(t, path, parent.(relations := parent.relations.(
      value := parent.relations.value.Put(path.relation.value, node))), slot);
    if slot.NamespacesSlot? || slot.RelationsSlot? || slot.RelationSlot? { FreshnessIsIn(t, slot); }
  }

  /** Nothing below an unknown node was read. */
  lemma UnknownWasNeverRead(t: Tree, path: CatalogPath, slot: Slot)
    ensures CatalogAt(t, path.catalog).None? && InCatalog(slot, path) ==> FreshnessAt(t, slot) == Never
    ensures NamespaceAt(t, path).None? && InNamespace(slot, path) ==> FreshnessAt(t, slot) == Never
    ensures RelationAt(t, path).None? && InRelation(slot, path) ==> FreshnessAt(t, slot) == Never
  {
  }

  lemma KnownSlot(t: Tree, path: CatalogPath, slot: Slot)
    ensures CatalogAt(t, path.catalog).Some? && InCatalog(slot, path) ==>
      FreshnessAt(t, slot) == FreshnessIn(CatalogAt(t, path.catalog).value, slot)
    ensures NamespaceAt(t, path).Some? && InNamespace(slot, path) ==>
      FreshnessAt(t, slot) == FreshnessWithin(NamespaceAt(t, path).value, slot)
    ensures RelationAt(t, path).Some? && InRelation(slot, path) ==>
      FreshnessAt(t, slot) == AspectFreshness(RelationAt(t, path).value, slot.aspect)
  {
  }

  lemma MarksExactly(t: Tree, scope: CatalogScope, slot: Slot)
    ensures FreshnessAt(Marked(t, scope), slot)
         == if Under(scope, slot) then FreshnessAt(t, slot).Invalidate() else FreshnessAt(t, slot)
  {
    if scope.ServerScope? {
      MarksServer(t, slot);
    } else {
      UnknownWasNeverRead(t, scope.path, slot);
      KnownSlot(t, scope.path, slot);
      if scope.CatalogScope? {
        var node := CatalogAt(t, scope.path.catalog);
        if node.Some? {
          CatalogInvalidates(node.value, slot);
          WithCatalogChanges(t, scope.path, node.value.Invalidate(), slot);
        }
      } else if scope.NamespaceScope? {
        var node := NamespaceAt(t, scope.path);
        if node.Some? {
          NamespaceInvalidates(node.value, slot);
          WithNamespaceChanges(t, scope.path, node.value.Invalidate(), slot);
        }
      } else {
        MarksRelation(t, scope, slot);
      }
    }
  }

  lemma MarksServer(t: Tree, slot: Slot)
    ensures FreshnessAt(Marked(t, ServerScope), slot) == FreshnessAt(t, slot).Invalidate()
  {
    if slot.NamespacesSlot? || slot.RelationsSlot? || slot.RelationSlot? {
      FreshnessIsIn(t, slot);
      FreshnessIsIn(Marked(t, ServerScope), slot);
      if CatalogNodeAt(t, slot.c).Some? { CatalogInvalidates(CatalogNodeAt(t, slot.c).value, slot); }
    }
  }

  lemma MarksRelation(t: Tree, scope: CatalogScope, slot: Slot)
    requires scope.RelationScope? || scope.ConstraintsScope? || scope.IncomingKeysScope? || scope.DefinitionScope?
    ensures FreshnessAt(Marked(t, scope), slot)
         == if Under(scope, slot) then FreshnessAt(t, slot).Invalidate() else FreshnessAt(t, slot)
  {
    var node := RelationAt(t, scope.path);
    UnknownWasNeverRead(t, scope.path, slot);
    KnownSlot(t, scope.path, slot);
    if node.Some? {
      WithRelationChanges(t, scope.path, MarkedNode(node.value, scope), slot);
      if slot.RelationSlot? { MarkedAspect(node.value, scope, slot.aspect); }
    }
  }

  function MarkedNode(node: RelationNode, scope: CatalogScope): RelationNode {
    match scope
    case ConstraintsScope(_) => node.(constraints := node.constraints.Invalidate())
    case IncomingKeysScope(_) => node.(incomingKeys := node.incomingKeys.Invalidate())
    case DefinitionScope(_) => node.(definition := node.definition.Invalidate())
    case _ => node.Invalidate()
  }

  /** Does a scope of one relation take in this aspect of it? */
  predicate TakesIn(scope: CatalogScope, aspect: Aspect) {
    match scope
    case ConstraintsScope(_) => aspect == Constraints
    case IncomingKeysScope(_) => aspect == IncomingKeys
    case DefinitionScope(_) => aspect == Definition
    case _ => true
  }

  lemma MarkedAspect(node: RelationNode, scope: CatalogScope, aspect: Aspect)
    ensures AspectFreshness(MarkedNode(node, scope), aspect)
         == if TakesIn(scope, aspect) then AspectFreshness(node, aspect).Invalidate() else AspectFreshness(node, aspect)
  {
  }

  /** Invalidating marks every node of the subtree that was read, and no other: those are stale
      from then on, at every instant and for every lifetime. */
  lemma InvalidatesExactly(t: Tree, scope: CatalogScope, slot: Slot)
    ensures !Under(scope, slot) ==> FreshnessAt(Marked(t, scope), slot) == FreshnessAt(t, slot)
    ensures Under(scope, slot) && FreshnessAt(t, slot).Never? ==> FreshnessAt(Marked(t, scope), slot).Never?
    ensures Under(scope, slot) && FreshnessAt(t, slot).Known() ==>
      forall now, ttl :: FreshnessAt(Marked(t, scope), slot).StaleAt(now, ttl)
  {
    MarksExactly(t, scope, slot);
  }

  // ---------- forgetting and evicting ----------

  /** The listing that carries the designated node. */
  function ParentListing(scope: CatalogScope): Option<Slot> {
    match scope
    case CatalogScope(_) => Some(CatalogsSlot)
    case NamespaceScope(path) => Some(NamespacesSlot(MapKey(path.catalog)))
    case RelationScope(path) =>
      if path.relation.Some? then Some(RelationsSlot(MapKey(path.catalog), MapKey(path.namespace))) else None
    case _ => None
  }

  /** Forgetting makes the subtree never read, its parent's listing stale, and changes no other
      freshness. */
  lemma ForgetsExactly(t: Tree, scope: CatalogScope, slot: Slot)
    requires !scope.ServerScope?
    ensures FreshnessAt(Forgotten(t, scope), slot)
         == if Under(scope, slot) then Never
            else if ParentListing(scope) == Some(slot) then FreshnessAt(t, slot).Invalidate()
            else FreshnessAt(t, slot)
  {
    var path := scope.path;
    UnknownWasNeverRead(t, path, slot);
    KnownSlot(t, path, slot);
    match scope
    case CatalogScope(_) => ForgetsCatalog(t, path, slot);
    case NamespaceScope(_) => ForgetsNamespace(t, path, slot);
    case RelationScope(_) => ForgetsRelation(t, path, slot);
    case _ => ForgetsAspect(t, scope, slot);
  }

  lemma ForgetsAspect(t: Tree, scope: CatalogScope, slot: Slot)
    requires scope.ConstraintsScope? || scope.IncomingKeysScope? || scope.DefinitionScope?
    ensures FreshnessAt(Forgotten(t, scope), slot) == if Under(scope, slot) then Never else FreshnessAt(t, slot)
  {
    var path := scope.path;
    UnknownWasNeverRead(t, path, slot);
    KnownSlot(t, path, slot);
    var node := RelationAt(t, path);
    if node.Some? {
      WithRelationChanges(t, path, ForgottenNode(node.value, scope), slot);
      if slot.RelationSlot? { ForgottenAspect(node.value, scope, slot.aspect); }
    }
  }

  function ForgottenNode(node: RelationNode, scope: CatalogScope): RelationNode {
    match scope
    case ConstraintsScope(_) => node.(constraints := Unread())
    case IncomingKeysScope(_) => node.(incomingKeys := Unread())
    case _ => node.(definition := Unread())
  }

  lemma ForgottenAspect(node: RelationNode, scope: CatalogScope, aspect: Aspect)
    requires scope.ConstraintsScope? || scope.IncomingKeysScope? || scope.DefinitionScope?
    ensures AspectFreshness(ForgottenNode(node, scope), aspect)
         == if TakesIn(scope, aspect) then Never else AspectFreshness(node, aspect)
  {
  }

  lemma ForgetsCatalog(t: Tree, path: CatalogPath, slot: Slot)
    ensures FreshnessAt(Forgotten(t, CatalogScope(path)), slot)
         == if InCatalog(slot, path) then Never
            else if slot == CatalogsSlot then FreshnessAt(t, slot).Invalidate() else FreshnessAt(t, slot)
  {
    if slot.NamespacesSlot? || slot.RelationsSlot? || slot.RelationSlot? {
      FreshnessIsIn(t, slot);
      FreshnessIsIn(Forgotten(t, CatalogScope(path)), slot);
    }
  }

  lemma ForgetsNamespace(t: Tree, path: CatalogPath, slot: Slot)
    ensures FreshnessAt(Forgotten(t, NamespaceScope(path)), slot)
         == if InNamespace(slot, path) then Never
            else if slot == NamespacesSlot(MapKey(path.catalog)) then FreshnessAt(t, slot).Invalidate()
            else FreshnessAt(t, slot)
  {
    UnknownWasNeverRead(t, path, slot);
    KnownSlot(t, path, slot);
    var node := CatalogAt(t, path.catalog);
    if node.Some? {
      WithCatalogChanges(t, path, node.value.(namespaces :=
        Cached(node.value.namespaces.freshness.Invalidate(),
          node.value.namespaces.value.Drop(MapKey(path.namespace)))), slot);
    }
  }

  lemma ForgetsRelation(t: Tree, path: CatalogPath, slot: Slot)
    ensures FreshnessAt(Forgotten(t, RelationScope(path)), slot)
         == if InRelation(slot, path) then Never
            else if ParentListing(RelationScope(path)) == Some(slot) then FreshnessAt(t, slot).Invalidate()
            else FreshnessAt(t, slot)
  {
    UnknownWasNeverRead(t, path, slot);
    KnownSlot(t, path, slot);
    var node := NamespaceAt(t, path);
    if node.Some? && path.relation.Some? {
      WithNamespaceChanges(t, path, node.value.(relations :=
        Cached(node.value.relations.freshness.Invalidate(), node.value.relations.value.Drop(path.relation.value))),
          slot);
    }
  }

  /** What eviction drops of a subtree: everything, but of a relation only its description. */
  predicate Dropped(scope: CatalogScope, slot: Slot) {
    Under(scope, slot)
      && (scope.RelationScope? ==> slot.aspect == Detail || slot.aspect == Indexes || slot.aspect == ForeignKeys)
  }

  /** What was dropped reads as never fetched, and so does what was left of a relation that goes with
      it, nothing listing it and nothing held of it; no other freshness changes. */
  lemma EvictsExactly(t: Tree, scope: CatalogScope, slot: Slot)
    requires !scope.ServerScope?
    ensures FreshnessAt(Evicted(t, scope), slot)
      == if Dropped(scope, slot) || (Under(scope, slot) && !ListedOrHolds(t, scope)) then Never
        else FreshnessAt(t, slot)
  {
    var path := scope.path;
    match scope
    case CatalogScope(_) => EvictsCatalog(t, path, slot);
    case NamespaceScope(_) => EvictsNamespace(t, path, slot);
    case RelationScope(_) => EvictsRelation(t, path, slot);
    case _ => ForgetsExactly(t, scope, slot);
  }

  /** The relation is carried by a listing, or constraints, incoming keys or a definition are held of it. */
  predicate ListedOrHolds(t: Tree, scope: CatalogScope) {
    scope.RelationScope? && RelationAt(t, scope.path).Some? ==>
      || NamespaceAt(t, scope.path).value.relations.freshness.Known()
      || RelationAt(t, scope.path).value.constraints.value.Some?
      || RelationAt(t, scope.path).value.incomingKeys.value.Some?
      || RelationAt(t, scope.path).value.definition.value.Some?
  }

  lemma EvictsCatalog(t: Tree, path: CatalogPath, slot: Slot)
    ensures FreshnessAt(Evicted(t, CatalogScope(path)), slot)
      == if InCatalog(slot, path) then Never else FreshnessAt(t, slot)
  {
    UnknownWasNeverRead(t, path, slot);
    var node := CatalogAt(t, path.catalog);
    if t.catalogs.freshness == Never {
      if slot.NamespacesSlot? || slot.RelationsSlot? || slot.RelationSlot? {
        FreshnessIsIn(t, slot);
        FreshnessIsIn(Evicted(t, CatalogScope(path)), slot);
      }
    } else if node.Some? {
      WithCatalogChanges(t, path, node.value.(namespaces := Unlisted()), slot);
    }
  }

  lemma EvictsNamespace(t: Tree, path: CatalogPath, slot: Slot)
    ensures FreshnessAt(Evicted(t, NamespaceScope(path)), slot)
      == if InNamespace(slot, path) then Never else FreshnessAt(t, slot)
  {
    UnknownWasNeverRead(t, path, slot);
    KnownSlot(t, path, slot);
    var parent := CatalogAt(t, path.catalog);
    if parent.Some? {
      if parent.value.namespaces.freshness == Never {
        WithCatalogChanges(t, path, parent.value.(namespaces :=
          parent.value.namespaces.(value := parent.value.namespaces.value.Drop(MapKey(path.namespace)))), slot);
      } else if NamespaceAt(t, path).Some? {
        WithNamespaceChanges(t, path, NamespaceAt(t, path).value.(relations := Unlisted()), slot);
      }
    }
  }

  lemma EvictsRelation(t: Tree, path: CatalogPath, slot: Slot)
    ensures var scope := RelationScope(path);
      FreshnessAt(Evicted(t, scope), slot)
      == if Dropped(scope, slot) || (Under(scope, slot) && !ListedOrHolds(t, scope)) then Never
        else FreshnessAt(t, slot)
  {
    UnknownWasNeverRead(t, path, slot);
    KnownSlot(t, path, slot);
    var parent := NamespaceAt(t, path);
    var node := RelationAt(t, path);
    if node.Some? {
      WithRelationChanges(t, path, node.value.(detail := Unread(), indexes := Unread(), foreignKeys := Unread()), slot);
      WithNamespaceChanges(t, path, parent.value.(relations :=
        parent.value.relations.(value := parent.value.relations.value.Drop(path.relation.value))), slot);
    }
  }

  function BareOf<T>(cached: Cached<T>): Cached<T> {
    Cached(Never, cached.value)
  }

  function RelationValues(r: RelationNode): RelationNode {
    RelationNode(r.summary, BareOf(r.detail), BareOf(r.indexes), BareOf(r.foreignKeys),
                 BareOf(r.constraints), BareOf(r.incomingKeys), BareOf(r.definition))
  }

  function NamespaceValues(n: NamespaceNode): NamespaceNode {
    n.(relations := Cached(Never, n.relations.value.Mapped(RelationValues)))
  }

  function CatalogValues(c: CatalogNode): CatalogNode {
    c.(namespaces := Cached(Never, c.namespaces.value.Mapped(NamespaceValues)))
  }

  /** Everything stored, with no freshness. */
  function Values(t: Tree): Tree {
    Tree(BareOf(t.server), Cached(Never, t.catalogs.value.Mapped(CatalogValues)), BareOf(t.resolutionPath))
  }

  lemma MappedTwice<V>(m: OrderedMap<V>, f: V -> V, g: V -> V)
    requires forall v :: g(f(v)) == g(v)
    ensures m.Mapped(f).Mapped(g) == m.Mapped(g)
  {
    assert m.Mapped(f).Mapped(g).values == m.Mapped(g).values;
  }

  lemma NamespaceKeepsValues(n: NamespaceNode)
    ensures NamespaceValues(n.Invalidate()) == NamespaceValues(n)
  {
    MappedTwice(n.relations.value, (r: RelationNode) => r.Invalidate(), RelationValues);
  }

  lemma CatalogKeepsValues(c: CatalogNode)
    ensures CatalogValues(c.Invalidate()) == CatalogValues(c)
  {
    forall n: NamespaceNode ensures NamespaceValues(n.Invalidate()) == NamespaceValues(n) { NamespaceKeepsValues(n); }
    MappedTwice(c.namespaces.value, (n: NamespaceNode) => n.Invalidate(), NamespaceValues);
  }

  lemma WithCatalogKeepsValues(t: Tree, catalog: Option<string>, node: CatalogNode)
    requires CatalogAt(t, catalog).Some? && CatalogValues(node) == CatalogValues(CatalogAt(t, catalog).value)
    ensures Values(WithCatalog(t, catalog, node)) == Values(t)
  {
    PutMapped(t.catalogs.value, MapKey(catalog), node, CatalogValues);
  }

  lemma WithNamespaceKeepsValues(t: Tree, path: CatalogPath, node: NamespaceNode)
    requires NamespaceAt(t, path).Some? && NamespaceValues(node) == NamespaceValues(NamespaceAt(t, path).value)
    ensures Values(WithNamespace(t, path, node)) == Values(t)
  {
    var parent := CatalogAt(t, path.catalog).value;
    PutMapped(parent.namespaces.value, MapKey(path.namespace), node, NamespaceValues);
    WithCatalogKeepsValues(t, path.catalog, parent.(namespaces := parent.namespaces.(
      value := parent.namespaces.value.Put(MapKey(path.namespace), node))));
  }

  lemma WithRelationKeepsValues(t: Tree, path: CatalogPath, node: RelationNode)
    requires RelationAt(t, path).Some? && RelationValues(node) == RelationValues(RelationAt(t, path).value)
    ensures Values(WithRelation(t, path, node)) == Values(t)
  {
    var parent := NamespaceAt(t, path).value;
    PutMapped(parent.relations.value, path.relation.value, node, RelationValues);
    WithNamespaceKeepsValues(t, path, parent.(relations := parent.relations.(
      value := parent.relations.value.Put(path.relation.value, node))));
  }

  /** Invalidating erases nothing. */
  lemma InvalidatingKeepsValues(t: Tree, scope: CatalogScope)
    ensures Values(Marked(t, scope)) == Values(t)
  {
    match scope
    case ServerScope => MarkedServerKeepsValues(t);
    case CatalogScope(path) => MarkedCatalogKeepsValues(t, path);
    case NamespaceScope(path) => MarkedNamespaceKeepsValues(t, path);
    case _ => MarkedRelationKeepsValues(t, scope);
  }

  lemma MarkedServerKeepsValues(t: Tree)
    ensures Values(Marked(t, ServerScope)) == Values(t)
  {
    forall c: CatalogNode ensures CatalogValues(c.Invalidate()) == CatalogValues(c) { CatalogKeepsValues(c); }
    MappedTwice(t.catalogs.value, (c: CatalogNode) => c.Invalidate(), CatalogValues);
  }

  lemma MarkedCatalogKeepsValues(t: Tree, path: CatalogPath)
    ensures Values(Marked(t, CatalogScope(path))) == Values(t)
  {
    var node := CatalogAt(t, path.catalog);
    if node.Some? {
      CatalogKeepsValues(node.value);
      WithCatalogKeepsValues(t, path.catalog, node.value.Invalidate());
    }
  }

  lemma MarkedNamespaceKeepsValues(t: Tree, path: CatalogPath)
    ensures Values(Marked(t, NamespaceScope(path))) == Values(t)
  {
    var node := NamespaceAt(t, path);
    if node.Some? {
      NamespaceKeepsValues(node.value);
      WithNamespaceKeepsValues(t, path, node.value.Invalidate());
    }
  }

  lemma MarkedRelationKeepsValues(t: Tree, scope: CatalogScope)
    requires scope.RelationScope? || scope.ConstraintsScope? || scope.IncomingKeysScope? || scope.DefinitionScope?
    ensures Values(Marked(t, scope)) == Values(t)
  {
    var node := RelationAt(t, scope.path);
    if node.Some? { WithRelationKeepsValues(t, scope.path, MarkedNode(node.value, scope)); }
  }

  // ---------- what has to be read again ----------

  function RelationScopes(node: RelationNode, now: Instant, ttl: Lifetime): seq<CatalogScope> {
    var path := node.summary.Path();
    if node.StaleAt(now, ttl) then [RelationScope(path)]
    else
      (if node.constraints.freshness.StaleAt(now, ttl) then [ConstraintsScope(path)] else [])
      + (if node.incomingKeys.freshness.StaleAt(now, ttl) then [IncomingKeysScope(path)] else [])
      + (if node.definition.freshness.StaleAt(now, ttl) then [DefinitionScope(path)] else [])
  }

  function ScopesOfRelation(relations: OrderedMap<RelationNode>, now: Instant,
                            ttl: Lifetime): string -> seq<CatalogScope> {
    r => if r in relations.values then RelationScopes(relations.values[r], now, ttl) else []
  }

  function NamespaceScopes(c: string, n: string, node: NamespaceNode, now: Instant, ttl: Lifetime): seq<CatalogScope> {
    if node.relations.freshness.StaleAt(now, ttl) then [NamespaceScope(NamespacePlace(c, n))]
    else Flat(node.relations.value.keys, ScopesOfRelation(node.relations.value, now, ttl))
  }

  function ScopesOfNamespace(c: string, spaces: OrderedMap<NamespaceNode>, now: Instant,
                             ttl: Lifetime): string -> seq<CatalogScope> {
    n => if n in spaces.values then NamespaceScopes(c, n, spaces.values[n], now, ttl) else []
  }

  function CatalogScopes(c: string, node: CatalogNode, now: Instant, ttl: Lifetime): seq<CatalogScope> {
    if node.namespaces.freshness.StaleAt(now, ttl) then [CatalogScope(CatalogPlace(c))]
    else Flat(node.namespaces.value.keys, ScopesOfNamespace(c, node.namespaces.value, now, ttl))
  }

  function ScopesOfCatalog(catalogs: OrderedMap<CatalogNode>, now: Instant,
                           ttl: Lifetime): string -> seq<CatalogScope> {
    c => if c in catalogs.values then CatalogScopes(c, catalogs.values[c], now, ttl) else []
  }

  /** The subtrees to reread, in the order of the walk. */
  function StaleScopes(t: Tree, now: Instant, ttl: Lifetime): seq<CatalogScope> {
    if t.server.freshness.StaleAt(now, ttl) || t.catalogs.freshness.StaleAt(now, ttl) then [ServerScope]
    else Flat(t.catalogs.value.keys, ScopesOfCatalog(t.catalogs.value, now, ttl))
  }

  // ---------- the stale nodes, without a walk ----------

  /** A place of the tree a scope can designate. */
  datatype Place =
    | AtServer
    | AtCatalog(c: string)
    | AtNamespace(c: string, n: string)
    | AtRelation(c: string, n: string, r: string)
    | AtConstraints(c: string, n: string, r: string)
    | AtIncomingKeys(c: string, n: string, r: string)
    | AtDefinition(c: string, n: string, r: string)

  function ParentOf(p: Place): Option<Place> {
    match p
    case AtServer => None
    case AtCatalog(_) => Some(AtServer)
    case AtNamespace(c, _) => Some(AtCatalog(c))
    case AtRelation(c, n, _) => Some(AtNamespace(c, n))
    case AtConstraints(c, n, r) => Some(AtRelation(c, n, r))
    case AtIncomingKeys(c, n, r) => Some(AtRelation(c, n, r))
    case AtDefinition(c, n, r) => Some(AtRelation(c, n, r))
  }

  function Depth(p: Place): nat {
    match p
    case AtServer => 0
    case AtCatalog(_) => 1
    case AtNamespace(_, _) => 2
    case AtRelation(_, _, _) => 3
    case _ => 4
  }

  /** `p` is a proper ancestor of `q`. */
  predicate Above(p: Place, q: Place)
    decreases Depth(q)
  {
    ParentOf(q).Some? && (ParentOf(q).value == p || Above(p, ParentOf(q).value))
  }

  function ScopeOf(p: Place): CatalogScope {
    match p
    case AtServer => ServerScope
    case AtCatalog(c) => CatalogScope(CatalogPlace(c))
    case AtNamespace(c, n) => NamespaceScope(NamespacePlace(c, n))
    case AtRelation(c, n, r) => RelationScope(RelationPlace(c, n, r))
    case AtConstraints(c, n, r) => ConstraintsScope(RelationPlace(c, n, r))
    case AtIncomingKeys(c, n, r) => IncomingKeysScope(RelationPlace(c, n, r))
    case AtDefinition(c, n, r) => DefinitionScope(RelationPlace(c, n, r))
  }

  /** What was read at this place, not below it, is stale. */
  predicate IsStale(t: Tree, p: Place, now: Instant, ttl: Lifetime) {
    match p
    case AtServer => FreshnessAt(t, ServerSlot).StaleAt(now, ttl) || FreshnessAt(t, CatalogsSlot).StaleAt(now, ttl)
    case AtCatalog(c) => FreshnessAt(t, NamespacesSlot(c)).StaleAt(now, ttl)
    case AtNamespace(c, n) => FreshnessAt(t, RelationsSlot(c, n)).StaleAt(now, ttl)
    case AtRelation(c, n, r) =>
      || FreshnessAt(t, RelationSlot(c, n, r, Detail)).StaleAt(now, ttl)
      || FreshnessAt(t, RelationSlot(c, n, r, Indexes)).StaleAt(now, ttl)
      || FreshnessAt(t, RelationSlot(c, n, r, ForeignKeys)).StaleAt(now, ttl)
    case AtConstraints(c, n, r) => FreshnessAt(t, RelationSlot(c, n, r, Constraints)).StaleAt(now, ttl)
    case AtIncomingKeys(c, n, r) => FreshnessAt(t, RelationSlot(c, n, r, IncomingKeys)).StaleAt(now, ttl)
    case AtDefinition(c, n, r) => FreshnessAt(t, RelationSlot(c, n, r, Definition)).StaleAt(now, ttl)
  }

  /** Stale, with nothing stale above it. */
  ghost predicate IsStaleRoot(t: Tree, p: Place, now: Instant, ttl: Lifetime) {
    IsStale(t, p, now, ttl) && forall q :: Above(q, p) ==> !IsStale(t, q, now, ttl)
  }

  lemma ScopeOfIsInjective(p: Place, q: Place)
    requires ScopeOf(p) == ScopeOf(q)
    ensures p == q
  {
    FromKeyIsInjective();
  }

  lemma FromKeyIsInjective()
    ensures forall a, b :: FromKey(a) == FromKey(b) ==> a == b
  {
  }

  // The roots of each level, relative to its node.

  predicate RelationRoot(node: RelationNode, p: Place, now: Instant, ttl: Lifetime) {
    match p
    case AtRelation(_, _, _) => node.StaleAt(now, ttl)
    case AtConstraints(_, _, _) => !node.StaleAt(now, ttl) && node.constraints.freshness.StaleAt(now, ttl)
    case AtIncomingKeys(_, _, _) => !node.StaleAt(now, ttl) && node.incomingKeys.freshness.StaleAt(now, ttl)
    case AtDefinition(_, _, _) => !node.StaleAt(now, ttl) && node.definition.freshness.StaleAt(now, ttl)
    case _ => false
  }

  predicate InsideRelation(p: Place) {
    p.AtRelation? || p.AtConstraints? || p.AtIncomingKeys? || p.AtDefinition?
  }

  predicate NamespaceRoot(node: NamespaceNode, p: Place, now: Instant, ttl: Lifetime) {
    if p.AtNamespace? then node.relations.freshness.StaleAt(now, ttl)
    else
      && InsideRelation(p) && !node.relations.freshness.StaleAt(now, ttl)
      && p.r in node.relations.value.values && RelationRoot(node.relations.value.values[p.r], p, now, ttl)
  }

  predicate CatalogRoot(node: CatalogNode, p: Place, now: Instant, ttl: Lifetime) {
    if p.AtCatalog? then node.namespaces.freshness.StaleAt(now, ttl)
    else
      && (p.AtNamespace? || InsideRelation(p)) && !node.namespaces.freshness.StaleAt(now, ttl)
      && p.n in node.namespaces.value.values && NamespaceRoot(node.namespaces.value.values[p.n], p, now, ttl)
  }

  predicate TreeRoot(t: Tree, p: Place, now: Instant, ttl: Lifetime) {
    if p.AtServer? then IsStale(t, AtServer, now, ttl)
    else
      && !IsStale(t, AtServer, now, ttl)
      && p.c in t.catalogs.value.values
      && CatalogRoot(t.catalogs.value.values[p.c], p, now, ttl)
  }

  lemma RelationWalk(node: RelationNode, c: string, n: string, r: string, now: Instant, ttl: Lifetime, sc: CatalogScope)
    returns (p: Place)
    requires RelationAtItsPlace(node, c, n, r) && sc in RelationScopes(node, now, ttl)
    ensures InsideRelation(p) && p.c == c && p.n == n && p.r == r && sc == ScopeOf(p) && RelationRoot(node, p, now, ttl)
  {
    p := if sc.RelationScope? then AtRelation(c, n, r) else if sc.ConstraintsScope? then AtConstraints(c, n, r)
         else if sc.IncomingKeysScope? then AtIncomingKeys(c, n, r) else AtDefinition(c, n, r);
  }

  lemma RelationWalkHas(node: RelationNode, p: Place, now: Instant, ttl: Lifetime)
    requires InsideRelation(p) && RelationAtItsPlace(node, p.c, p.n, p.r) && RelationRoot(node, p, now, ttl)
    ensures ScopeOf(p) in RelationScopes(node, now, ttl)
  {
  }

  lemma NamespaceWalk(node: NamespaceNode, c: string, n: string, now: Instant, ttl: Lifetime, sc: CatalogScope)
    returns (p: Place)
    requires NamespaceAtItsPlace(node, c, n) && sc in NamespaceScopes(c, n, node, now, ttl)
    ensures (p.AtNamespace? || InsideRelation(p)) && p.c == c && p.n == n && sc == ScopeOf(p)
    ensures NamespaceRoot(node, p, now, ttl)
  {
    if node.relations.freshness.StaleAt(now, ttl) {
      p := AtNamespace(c, n);
    } else {
      var relations := node.relations.value;
      FlatIn(relations.keys, ScopesOfRelation(relations, now, ttl), sc);
      var r :| r in relations.keys && sc in ScopesOfRelation(relations, now, ttl)(r);
      p := RelationWalk(relations.values[r], c, n, r, now, ttl, sc);
    }
  }

  lemma NamespaceWalkHas(node: NamespaceNode, p: Place, now: Instant, ttl: Lifetime)
    requires p.AtNamespace? || InsideRelation(p)
    requires NamespaceAtItsPlace(node, p.c, p.n) && NamespaceRoot(node, p, now, ttl)
    ensures ScopeOf(p) in NamespaceScopes(p.c, p.n, node, now, ttl)
  {
    if !p.AtNamespace? {
      var relations := node.relations.value;
      RelationWalkHas(relations.values[p.r], p, now, ttl);
      assert ScopeOf(p) in ScopesOfRelation(relations, now, ttl)(p.r);
      FlatIn(relations.keys, ScopesOfRelation(relations, now, ttl), ScopeOf(p));
    }
  }

  lemma CatalogWalk(node: CatalogNode, c: string, now: Instant, ttl: Lifetime, sc: CatalogScope)
    returns (p: Place)
    requires CatalogAtItsPlace(node, c) && sc in CatalogScopes(c, node, now, ttl)
    ensures !p.AtServer? && p.c == c && sc == ScopeOf(p) && CatalogRoot(node, p, now, ttl)
  {
    if node.namespaces.freshness.StaleAt(now, ttl) {
      p := AtCatalog(c);
    } else {
      var spaces := node.namespaces.value;
      FlatIn(spaces.keys, ScopesOfNamespace(c, spaces, now, ttl), sc);
      var n :| n in spaces.keys && sc in ScopesOfNamespace(c, spaces, now, ttl)(n);
      p := NamespaceWalk(spaces.values[n], c, n, now, ttl, sc);
    }
  }

  lemma CatalogWalkHas(node: CatalogNode, p: Place, now: Instant, ttl: Lifetime)
    requires !p.AtServer? && CatalogAtItsPlace(node, p.c) && CatalogRoot(node, p, now, ttl)
    ensures ScopeOf(p) in CatalogScopes(p.c, node, now, ttl)
  {
    if !p.AtCatalog? {
      var spaces := node.namespaces.value;
      NamespaceWalkHas(spaces.values[p.n], p, now, ttl);
      assert ScopeOf(p) in ScopesOfNamespace(p.c, spaces, now, ttl)(p.n);
      FlatIn(spaces.keys, ScopesOfNamespace(p.c, spaces, now, ttl), ScopeOf(p));
    }
  }

  lemma TreeWalk(t: Tree, now: Instant, ttl: Lifetime, sc: CatalogScope) returns (p: Place)
    requires Valid(t) && sc in StaleScopes(t, now, ttl)
    ensures sc == ScopeOf(p) && TreeRoot(t, p, now, ttl)
  {
    if IsStale(t, AtServer, now, ttl) {
      p := AtServer;
    } else {
      var catalogs := t.catalogs.value;
      FlatIn(catalogs.keys, ScopesOfCatalog(catalogs, now, ttl), sc);
      var c :| c in catalogs.keys && sc in ScopesOfCatalog(catalogs, now, ttl)(c);
      p := CatalogWalk(catalogs.values[c], c, now, ttl, sc);
    }
  }

  lemma TreeWalkHas(t: Tree, p: Place, now: Instant, ttl: Lifetime)
    requires Valid(t) && TreeRoot(t, p, now, ttl)
    ensures ScopeOf(p) in StaleScopes(t, now, ttl)
  {
    if !p.AtServer? {
      var catalogs := t.catalogs.value;
      CatalogWalkHas(catalogs.values[p.c], p, now, ttl);
      assert ScopeOf(p) in ScopesOfCatalog(catalogs, now, ttl)(p.c);
      FlatIn(catalogs.keys, ScopesOfCatalog(catalogs, now, ttl), ScopeOf(p));
    }
  }

  /** The chain of a place's proper ancestors. */
  lemma {:induction false} AboveIsAncestor(p: Place, q: Place)
    requires Above(q, p)
    ensures || q == AtServer
            || (!p.AtServer? && !p.AtCatalog? && q == AtCatalog(p.c))
            || (InsideRelation(p) && q == AtNamespace(p.c, p.n))
            || (InsideRelation(p) && !p.AtRelation? && q == AtRelation(p.c, p.n, p.r))
    decreases Depth(p)
  {
    if ParentOf(p).value != q {
      AboveIsAncestor(ParentOf(p).value, q);
    }
  }

  lemma AncestorsAreAbove(p: Place)
    ensures !p.AtServer? ==> Above(AtServer, p)
    ensures !p.AtServer? && !p.AtCatalog? ==> Above(AtCatalog(p.c), p)
    ensures InsideRelation(p) ==> Above(AtNamespace(p.c, p.n), p)
    ensures InsideRelation(p) && !p.AtRelation? ==> Above(AtRelation(p.c, p.n, p.r), p)
  {
    if InsideRelation(p) {
      var n := AtNamespace(p.c, p.n);
      assert Above(AtCatalog(p.c), n) && Above(AtServer, AtCatalog(p.c)) && Above(AtServer, n);
      var r := AtRelation(p.c, p.n, p.r);
      assert Above(n, r) && Above(AtCatalog(p.c), r) && Above(AtServer, r);
    } else if p.AtNamespace? {
      assert Above(AtServer, AtCatalog(p.c));
    }
  }

  ghost predicate NothingStaleAbove(t: Tree, p: Place, now: Instant, ttl: Lifetime) {
    && (!p.AtServer? ==> !IsStale(t, AtServer, now, ttl))
    && (!p.AtServer? && !p.AtCatalog? ==> !IsStale(t, AtCatalog(p.c), now, ttl))
    && (InsideRelation(p) ==> !IsStale(t, AtNamespace(p.c, p.n), now, ttl))
    && (InsideRelation(p) && !p.AtRelation? ==> !IsStale(t, AtRelation(p.c, p.n, p.r), now, ttl))
  }

  lemma AboveMeansAncestors(t: Tree, p: Place, now: Instant, ttl: Lifetime)
    ensures IsStaleRoot(t, p, now, ttl) <==> IsStale(t, p, now, ttl) && NothingStaleAbove(t, p, now, ttl)
  {
    AncestorsAreAbove(p);
    if NothingStaleAbove(t, p, now, ttl) {
      forall q | Above(q, p) ensures !IsStale(t, q, now, ttl) {
        AboveIsAncestor(p, q);
      }
    }
  }

  /** The roots of the walk are the stale places with nothing stale above them. */
  lemma RootsAgree(t: Tree, p: Place, now: Instant, ttl: Lifetime)
    ensures TreeRoot(t, p, now, ttl) <==> IsStaleRoot(t, p, now, ttl)
  {
    AboveMeansAncestors(t, p, now, ttl);
    if InsideRelation(p) {
      RootsAgreeInside(t, p, now, ttl);
    }
  }

  lemma RootsAgreeInside(t: Tree, p: Place, now: Instant, ttl: Lifetime)
    requires InsideRelation(p)
    ensures TreeRoot(t, p, now, ttl) <==> IsStale(t, p, now, ttl) && NothingStaleAbove(t, p, now, ttl)
  {
  }

  /** What has to be read again is exactly the stale places with nothing stale above them,
      each once. */
  lemma StaleScopesAreTheRoots(t: Tree, now: Instant, ttl: Lifetime, sc: CatalogScope)
    requires Valid(t)
    ensures sc in StaleScopes(t, now, ttl) <==> exists p :: ScopeOf(p) == sc && IsStaleRoot(t, p, now, ttl)
  {
    if sc in StaleScopes(t, now, ttl) {
      var p := TreeWalk(t, now, ttl, sc);
      RootsAgree(t, p, now, ttl);
    }
    if exists p :: ScopeOf(p) == sc && IsStaleRoot(t, p, now, ttl) {
      var p :| ScopeOf(p) == sc && IsStaleRoot(t, p, now, ttl);
      RootsAgree(t, p, now, ttl);
      TreeWalkHas(t, p, now, ttl);
    }
  }

  lemma RelationScopesDistinct(node: RelationNode, now: Instant, ttl: Lifetime)
    ensures Distinct(RelationScopes(node, now, ttl))
  {
  }

  lemma SameRelation(relations: OrderedMap<RelationNode>, c: string, n: string, r: string, q: string,
                     now: Instant, ttl: Lifetime, sc: CatalogScope)
    requires r in relations.values && RelationAtItsPlace(relations.values[r], c, n, r)
    requires q in relations.values && RelationAtItsPlace(relations.values[q], c, n, q)
    requires sc in RelationScopes(relations.values[r], now, ttl) && sc in RelationScopes(relations.values[q], now, ttl)
    ensures r == q
  {
    var p := RelationWalk(relations.values[r], c, n, r, now, ttl, sc);
    var p' := RelationWalk(relations.values[q], c, n, q, now, ttl, sc);
    ScopeOfIsInjective(p, p');
  }

  lemma NamespaceScopesDistinct(node: NamespaceNode, c: string, n: string, now: Instant, ttl: Lifetime)
    requires NamespaceAtItsPlace(node, c, n)
    ensures Distinct(NamespaceScopes(c, n, node, now, ttl))
  {
    var relations := node.relations.value;
    var f := ScopesOfRelation(relations, now, ttl);
    forall r | r in relations.keys ensures Distinct(f(r)) {
      RelationScopesDistinct(relations.values[r], now, ttl);
    }
    forall r, q, sc | r in relations.keys && q in relations.keys && sc in f(r) && sc in f(q) ensures r == q {
      SameRelation(relations, c, n, r, q, now, ttl, sc);
    }
    FlatIsDistinct(relations.keys, f);
  }

  lemma CatalogScopesDistinct(node: CatalogNode, c: string, now: Instant, ttl: Lifetime)
    requires CatalogAtItsPlace(node, c)
    ensures Distinct(CatalogScopes(c, node, now, ttl))
  {
    var spaces := node.namespaces.value;
    var f := ScopesOfNamespace(c, spaces, now, ttl);
    forall n | n in spaces.keys ensures Distinct(f(n)) {
      NamespaceScopesDistinct(spaces.values[n], c, n, now, ttl);
    }
    forall n, m, sc | n in spaces.keys && m in spaces.keys && sc in f(n) && sc in f(m) ensures n == m {
      var p := NamespaceWalk(spaces.values[n], c, n, now, ttl, sc);
      var p' := NamespaceWalk(spaces.values[m], c, m, now, ttl, sc);
      ScopeOfIsInjective(p, p');
    }
    FlatIsDistinct(spaces.keys, f);
  }

  lemma StaleScopesDistinct(t: Tree, now: Instant, ttl: Lifetime)
    requires Valid(t)
    ensures Distinct(StaleScopes(t, now, ttl))
  {
    var catalogs := t.catalogs.value;
    var f := ScopesOfCatalog(catalogs, now, ttl);
    forall c | c in catalogs.keys ensures Distinct(f(c)) {
      CatalogScopesDistinct(catalogs.values[c], c, now, ttl);
    }
    forall c, d, sc | c in catalogs.keys && d in catalogs.keys && sc in f(c) && sc in f(d) ensures c == d {
      var p := CatalogWalk(catalogs.values[c], c, now, ttl, sc);
      var p' := CatalogWalk(catalogs.values[d], d, now, ttl, sc);
      ScopeOfIsInjective(p, p');
    }
    FlatIsDistinct(catalogs.keys, f);
  }

  /** Everything stale lies at or under a returned scope. */
  lemma {:induction false} EverythingStaleIsCovered(t: Tree, now: Instant, ttl: Lifetime, p: Place)
    returns (root: Place)
    requires Valid(t) && IsStale(t, p, now, ttl)
    ensures (root == p || Above(root, p)) && ScopeOf(root) in StaleScopes(t, now, ttl)
    ensures ScopeOf(root).Contains(ScopeOf(p))
    decreases Depth(p)
  {
    AncestorsAreAbove(p);
    if IsStaleRoot(t, p, now, ttl) {
      root := p;
      StaleScopesAreTheRoots(t, now, ttl, ScopeOf(p));
    } else {
      var q :| Above(q, p) && IsStale(t, q, now, ttl);
      AboveIsAncestor(p, q);
      root := EverythingStaleIsCovered(t, now, ttl, q);
      AboveIsTransitive(root, q, p);
    }
    AboveContains(root, p);
  }

  lemma {:induction false} AboveIsTransitive(a: Place, b: Place, c: Place)
    requires (a == b || Above(a, b)) && Above(b, c)
    ensures Above(a, c)
    decreases Depth(c)
  {
    var up := ParentOf(c).value;
    if up != b {
      AboveIsTransitive(a, b, up);
    }
  }

  lemma AboveContains(p: Place, q: Place)
    requires p == q || Above(p, q)
    ensures ScopeOf(p).Contains(ScopeOf(q))
  {
    if p != q { AboveIsAncestor(q, p); }
  }

  // ---------- minimality in terms of `Contains` ----------

  /** No level holds both the missing-level key and a name. */
  ghost predicate Unmixed<V>(m: OrderedMap<V>) {
    forall k :: MISSING_TIER in m.values && k in m.values ==> k == MISSING_TIER
  }

  ghost predicate NoMixing(t: Tree) {
    Unmixed(t.catalogs.value) && forall c :: c in t.catalogs.value.values ==>
      Unmixed(t.catalogs.value.values[c].namespaces.value)
  }

  predicate InTree(t: Tree, p: Place) {
    match p
    case AtServer => true
    case AtCatalog(c) => CatalogNodeAt(t, c).Some?
    case AtNamespace(c, n) => NamespaceNodeAt(t, c, n).Some?
    case _ => RelationNodeAt(t, p.c, p.n, p.r).Some?
  }

  lemma StaleIsInTree(t: Tree, p: Place, now: Instant, ttl: Lifetime)
    requires IsStale(t, p, now, ttl)
    ensures InTree(t, p)
  {
  }

  lemma ContainsIsAbove(t: Tree, p: Place, q: Place)
    requires NoMixing(t) && InTree(t, p) && InTree(t, q) && ScopeOf(p).Contains(ScopeOf(q))
    ensures p == q || Above(p, q)
  {
    AncestorsAreAbove(q);
    FromKeyIsInjective();
    if p.AtConstraints? || p.AtIncomingKeys? || p.AtDefinition? {
      ScopeOfIsInjective(p, q);
    } else if !p.AtServer? {
      assert p.c == q.c;
      if !p.AtCatalog? {
        assert Unmixed(t.catalogs.value.values[p.c].namespaces.value);
        assert p.n == q.n;
      }
    }
  }

  /** No returned scope covers another. */
  ghost predicate IsMinimal(t: Tree, now: Instant, ttl: Lifetime) {
    forall a, b :: a in StaleScopes(t, now, ttl) && b in StaleScopes(t, now, ttl) && a != b ==> !a.Contains(b)
  }

  lemma UnmixedIsMinimal(t: Tree, now: Instant, ttl: Lifetime)
    requires Valid(t) && NoMixing(t)
    ensures IsMinimal(t, now, ttl)
  {
    forall a, b | a in StaleScopes(t, now, ttl) && b in StaleScopes(t, now, ttl) && a != b ensures !a.Contains(b) {
      var p := TreeWalk(t, now, ttl, a);
      var q := TreeWalk(t, now, ttl, b);
      RootsAgree(t, p, now, ttl);
      RootsAgree(t, q, now, ttl);
      StaleIsInTree(t, p, now, ttl);
      StaleIsInTree(t, q, now, ttl);
      if a.Contains(b) { ContainsIsAbove(t, p, q); }
    }
  }
}
