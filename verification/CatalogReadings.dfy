/** What reading the catalog leaves in it, and how long that stays good. */
module CatalogReadings {
  import opened Options
  import opened OrderedMaps
  import opened Paths
  import opened CatalogTree
  import opened CatalogStaleness
  import opened CatalogDefinitions
  import opened CatalogLaws

  // ---------- what is read is read back ----------

  /** What a part of a relation holds. */
  datatype Stored =
    | Nothing
    | Text(content: Content)
    | Described(description: Description)
    | Defined(definition: RelationDefinition)

  function StoredText(cached: Cached<Option<Content>>): Stored {
    if cached.value.Some? then Text(cached.value.value) else Nothing
  }

  function StoredIn(node: RelationNode, aspect: Aspect): Stored {
    match aspect
    case Detail => if node.detail.value.Some? then Described(node.detail.value.value) else Nothing
    case Indexes => StoredText(node.indexes)
    case ForeignKeys => StoredText(node.foreignKeys)
    case Constraints => StoredText(node.constraints)
    case IncomingKeys => StoredText(node.incomingKeys)
    case Definition => if node.definition.value.Some? then Defined(node.definition.value.value) else Nothing
  }

  /** Two states of a relation that differ in these parts at most. */
  ghost predicate SameBut(node: RelationNode, other: RelationNode, parts: set<Aspect>) {
    && node.summary == other.summary
    && forall a: Aspect :: a !in parts ==>
         AspectFreshness(node, a) == AspectFreshness(other, a) && StoredIn(node, a) == StoredIn(other, a)
  }

  lemma RelationReplaced(t: Tree, path: CatalogPath, node: RelationNode, other: CatalogPath)
    requires RelationAt(t, path).Some?
    ensures RelationAt(WithRelation(t, path, node), path) == Some(node)
    ensures !SamePlace(path, other) ==> RelationAt(WithRelation(t, path, node), other) == RelationAt(t, other)
  {
  }

  predicate SamePlace(path: CatalogPath, other: CatalogPath) {
    && MapKey(path.catalog) == MapKey(other.catalog) && MapKey(path.namespace) == MapKey(other.namespace)
    && path.relation == other.relation
  }

  /** Indexes, foreign keys, constraints and incoming keys each come back as themselves, dated when they
      were read; nothing else of the relation changes, and no other relation does. */
  lemma ReadingIsReadBack(t: Tree, path: CatalogPath, aspect: Aspect, content: Content, now: Instant,
                          other: CatalogPath)
    requires RelationAt(t, path).Some? && aspect != Detail && aspect != Definition
    ensures var t' := SetReading(t, path, Reading(aspect, content), now);
      && RelationAt(t', path).Some?
      && StoredIn(RelationAt(t', path).value, aspect) == Text(content)
      && AspectFreshness(RelationAt(t', path).value, aspect) == Fetched(now)
      && SameBut(RelationAt(t', path).value, RelationAt(t, path).value, {aspect})
      && (!SamePlace(path, other) ==> RelationAt(t', other) == RelationAt(t, other))
  {
    RelationReplaced(t, path, WithReading(RelationAt(t, path).value, Reading(aspect, content), now), other);
  }

  /** A definition written does the same to its relation, and to the others at most what trimming does. */
  lemma DefinitionIsReadBack(t: Tree, path: CatalogPath, d: RelationDefinition, now: Instant)
    requires Valid(t) && RelationAt(t, path).Some?
    requires path.catalog != Some(MISSING_TIER) && path.namespace != Some(MISSING_TIER)
    ensures var t' := Published(t, path, d, now);
      && RelationAt(t', path).Some?
      && StoredIn(RelationAt(t', path).value, Definition) == Defined(d)
      && AspectFreshness(RelationAt(t', path).value, Definition) == Fetched(now)
      && SameBut(RelationAt(t', path).value, RelationAt(t, path).value, {Definition})
  {
    PublishedIsFound(t, path, d, now);
    DefinitionWritten(RelationAt(t, path).value, d, now);
  }

  lemma PublishedIsFound(t: Tree, path: CatalogPath, d: RelationDefinition, now: Instant)
    requires Valid(t) && RelationAt(t, path).Some?
    requires path.catalog != Some(MISSING_TIER) && path.namespace != Some(MISSING_TIER)
    ensures RelationAt(Published(t, path, d, now), path)
         == Some(RelationAt(t, path).value.(definition := Cached(Fetched(now), Some(d))))
  {
    ReadingIsValid(t, path, ReadDefinition(d), now);
    ProtectedSurvives(SetReading(t, path, ReadDefinition(d), now), path);
    WrittenIsRead(t, path, d, now);
  }

  lemma DefinitionWritten(node: RelationNode, d: RelationDefinition, now: Instant)
    ensures var node' := node.(definition := Cached(Fetched(now), Some(d)));
      && StoredIn(node', Definition) == Defined(d) && AspectFreshness(node', Definition) == Fetched(now)
      && SameBut(node', node, {Definition})
  {
  }

  /** A description leaves everything else of the relation. */
  lemma DescriptionIsReadBack(t: Tree, path: CatalogPath, kind: nat, description: Description, now: Instant)
    requires path.relation.Some?
    ensures var t' := SetRelation(t, path, kind, description, now);
      && RelationAt(t', path).Some?
      && StoredIn(RelationAt(t', path).value, Detail) == Described(description.Bounded())
      && AspectFreshness(RelationAt(t', path).value, Detail) == Fetched(now)
      && (RelationAt(t, path).Some? ==> SameBut(RelationAt(t', path).value, RelationAt(t, path).value, {Detail}))
      && (RelationAt(t, path).None? ==>
            && RelationAt(t', path).value.summary
               == RelationRef(CatalogPath(path.catalog, path.namespace, None), path.relation.value, kind)
            && forall a: Aspect :: a != Detail ==>
                 AspectFreshness(RelationAt(t', path).value, a) == Never
                   && StoredIn(RelationAt(t', path).value, a) == Nothing)
  {
  }

  /** The server's identity and the resolution path come back as themselves, and nothing else changes. */
  lemma ServerIsReadBack(t: Tree, info: Content, names: seq<string>, now: Instant)
    requires Valid(t)
    ensures var t' := Applied(t, ServerInfoRead(info), now);
      t'.server.value == Some(info) && t'.catalogs == t.catalogs && t'.resolutionPath == t.resolutionPath
    ensures var t' := Applied(t, ResolutionPathRead(names), now);
      t'.resolutionPath.value == Some(names) && t'.catalogs == t.catalogs && t'.server == t.server
  {
  }

  /** Levels missing above a described relation are created with the names of its path, as no listing's; those
      there stay as they were but for what is below. */
  lemma MissingLevelsAreCreated(t: Tree, path: CatalogPath, kind: nat, description: Description, now: Instant)
    requires path.relation.Some?
    ensures var t' := SetRelation(t, path, kind, description, now);
      && CatalogAt(t', path.catalog).Some? && NamespaceAt(t', path).Some?
      && var catalog, space := CatalogAt(t', path.catalog).value, NamespaceAt(t', path).value;
        && t'.catalogs.freshness == t.catalogs.freshness
        && (if CatalogAt(t, path.catalog).Some?
            then (catalog.info, catalog.namespaces.freshness)
                 == (CatalogAt(t, path.catalog).value.info, CatalogAt(t, path.catalog).value.namespaces.freshness)
            else catalog.namespaces.freshness == Never
                 && catalog.info == if path.catalog.Some? then Some(CatalogRef(path.catalog.value, false)) else None)
        && (if NamespaceAt(t, path).Some?
            then (space.info, space.relations.freshness)
                 == (NamespaceAt(t, path).value.info, NamespaceAt(t, path).value.relations.freshness)
            else space.relations.freshness == Never
                 && space.info == if path.namespace.None? then None
                    else Some(NamespaceRef(CatalogPath(path.catalog, None, None), path.namespace.value, false)))
  {
  }

  // ---------- what is dropped is gone ----------

  /** A forgotten node is no longer found, and every other one of its level is found as it was. */
  lemma ForgottenIsGone(t: Tree, scope: CatalogScope, p: CatalogPath)
    ensures scope.CatalogScope? ==>
      CatalogAt(Forgotten(t, scope), p.catalog)
      == if MapKey(p.catalog) == MapKey(scope.path.catalog) then None else CatalogAt(t, p.catalog)
    ensures scope.NamespaceScope? ==>
      NamespaceAt(Forgotten(t, scope), p) == if SameNamespace(p, scope.path) then None else NamespaceAt(t, p)
    ensures scope.RelationScope? && scope.path.relation.Some? ==>
      RelationAt(Forgotten(t, scope), p) == if SamePlace(p, scope.path) then None else RelationAt(t, p)
  {
  }

  predicate SameNamespace(path: CatalogPath, other: CatalogPath) {
    MapKey(path.catalog) == MapKey(other.catalog) && MapKey(path.namespace) == MapKey(other.namespace)
  }

  /** Forgetting one part of a relation leaves nothing of it, and everything else. */
  lemma ForgottenPartIsGone(t: Tree, scope: CatalogScope, part: Aspect, other: CatalogPath)
    requires || (scope.ConstraintsScope? && part == Constraints) || (scope.IncomingKeysScope? && part == IncomingKeys)
             || (scope.DefinitionScope? && part == Definition)
    requires RelationAt(t, scope.path).Some?
    ensures var t' := Forgotten(t, scope);
      && RelationAt(t', scope.path).Some?
      && StoredIn(RelationAt(t', scope.path).value, part) == Nothing
      && SameBut(RelationAt(t', scope.path).value, RelationAt(t, scope.path).value, {part})
      && (!SamePlace(scope.path, other) ==> RelationAt(t', other) == RelationAt(t, other))
  {
    RelationReplaced(t, scope.path, ForgottenNode(RelationAt(t, scope.path).value, scope), other);
  }

  /** An evicted relation loses its description, indexes and foreign keys and nothing else; one that no
      listing carries and that holds nothing more goes. */
  lemma EvictedRelationIsEmpty(t: Tree, path: CatalogPath)
    requires RelationAt(t, path).Some?
    ensures var after, node := RelationAt(Evicted(t, RelationScope(path)), path), RelationAt(t, path).value;
      if NamespaceAt(t, path).value.relations.freshness == Never
         && StoredIn(node, Constraints) == StoredIn(node, IncomingKeys) == StoredIn(node, Definition) == Nothing
      then after.None?
      else
        && after.Some?
        && StoredIn(after.value, Detail) == StoredIn(after.value, Indexes) == StoredIn(after.value, ForeignKeys)
          == Nothing
        && SameBut(after.value, node, {Detail, Indexes, ForeignKeys})
  {
  }

  /** An evicted catalog or namespace holds nothing any more, and keeps its line in the listing; one that no
      listing carries goes. */
  lemma EvictedLevelIsEmpty(t: Tree, path: CatalogPath)
    ensures CatalogAt(t, path.catalog).Some? ==>
      CatalogAt(Evicted(t, CatalogScope(path)), path.catalog) ==
        if t.catalogs.freshness == Never then None
        else Some(CatalogNode(CatalogAt(t, path.catalog).value.info, Cached(Never, Empty())))
    ensures NamespaceAt(t, path).Some? ==>
      NamespaceAt(Evicted(t, NamespaceScope(path)), path) ==
        if CatalogAt(t, path.catalog).value.namespaces.freshness == Never then None
        else Some(NamespaceNode(NamespaceAt(t, path).value.info, Cached(Never, Empty())))
  {
  }

  /** Forgetting or evicting the server leaves nothing at all. */
  lemma DroppedServerIsEmpty(t: Tree, slot: Slot)
    ensures FreshnessAt(Forgotten(t, ServerScope), slot) == FreshnessAt(Evicted(t, ServerScope), slot) == Never
    ensures var t' := Forgotten(t, ServerScope);
      t' == Evicted(t, ServerScope) && t'.server.value == None && t'.resolutionPath.value == None
      && t'.catalogs.value.keys == []
  {
  }

  // ---------- the age of what was read ----------

  /** Where what has a freshness counts for staleness; the resolution path does nowhere. */
  function PlaceOf(slot: Slot): Option<Place> {
    match slot
    case ServerSlot => Some(AtServer)
    case ResolutionSlot => None
    case CatalogsSlot => Some(AtServer)
    case NamespacesSlot(c) => Some(AtCatalog(c))
    case RelationsSlot(c, n) => Some(AtNamespace(c, n))
    case RelationSlot(c, n, r, aspect) =>
      match aspect
      case Constraints => Some(AtConstraints(c, n, r))
      case IncomingKeys => Some(AtIncomingKeys(c, n, r))
      case Definition => Some(AtDefinition(c, n, r))
      case _ => Some(AtRelation(c, n, r))
  }

  /** Read more than the lifetime ago, or invalidated since. */
  predicate Old(freshness: Freshness, now: Instant, limit: nat) {
    freshness.Invalidated? || (freshness.Fetched? && now > freshness.at + limit)
  }

  /** A place is stale exactly when something read there is older than the lifetime, or invalidated. */
  lemma StaleExactlyWhenOld(t: Tree, p: Place, now: Instant, limit: nat)
    ensures IsStale(t, p, now, Within(limit))
      <==> exists slot :: PlaceOf(slot) == Some(p) && Old(FreshnessAt(t, slot), now, limit)
  {
    if IsStale(t, p, now, Within(limit)) {
      var slot := StaleSlot(t, p, now, Within(limit));
      assert PlaceOf(slot) == Some(p) && Old(FreshnessAt(t, slot), now, limit);
    }
    if exists slot :: PlaceOf(slot) == Some(p) && Old(FreshnessAt(t, slot), now, limit) {
      var slot :| PlaceOf(slot) == Some(p) && Old(FreshnessAt(t, slot), now, limit);
      SlotMakesStale(t, p, now, Within(limit), slot);
    }
  }

  lemma StaleSlot(t: Tree, p: Place, now: Instant, ttl: Lifetime) returns (slot: Slot)
    requires IsStale(t, p, now, ttl)
    ensures PlaceOf(slot) == Some(p) && FreshnessAt(t, slot).StaleAt(now, ttl)
  {
    match p
    case AtServer => slot := if FreshnessAt(t, ServerSlot).StaleAt(now, ttl) then ServerSlot else CatalogsSlot;
    case AtCatalog(c) => slot := NamespacesSlot(c);
    case AtNamespace(c, n) => slot := RelationsSlot(c, n);
    case AtRelation(c, n, r) =>
      slot := if FreshnessAt(t, RelationSlot(c, n, r, Detail)).StaleAt(now, ttl) then RelationSlot(c, n, r, Detail)
              else if FreshnessAt(t, RelationSlot(c, n, r, Indexes)).StaleAt(now, ttl)
              then RelationSlot(c, n, r, Indexes)
              else RelationSlot(c, n, r, ForeignKeys);
    case AtConstraints(c, n, r) => slot := RelationSlot(c, n, r, Constraints);
    case AtIncomingKeys(c, n, r) => slot := RelationSlot(c, n, r, IncomingKeys);
    case AtDefinition(c, n, r) => slot := RelationSlot(c, n, r, Definition);
  }

  lemma SlotMakesStale(t: Tree, p: Place, now: Instant, ttl: Lifetime, slot: Slot)
    requires PlaceOf(slot) == Some(p) && FreshnessAt(t, slot).StaleAt(now, ttl)
    ensures IsStale(t, p, now, ttl)
  {
  }

  /** For a lifetime beyond what the clock can represent, only what was invalidated is stale. */
  lemma BeyondTheClockExactly(t: Tree, p: Place, now: Instant)
    ensures IsStale(t, p, now, BeyondTheClock)
      <==> exists slot :: PlaceOf(slot) == Some(p) && FreshnessAt(t, slot) == Invalidated
  {
    if IsStale(t, p, now, BeyondTheClock) {
      var slot := StaleSlot(t, p, now, BeyondTheClock);
      assert PlaceOf(slot) == Some(p) && FreshnessAt(t, slot) == Invalidated;
    }
    if exists slot :: PlaceOf(slot) == Some(p) && FreshnessAt(t, slot) == Invalidated {
      var slot :| PlaceOf(slot) == Some(p) && FreshnessAt(t, slot) == Invalidated;
      SlotMakesStale(t, p, now, BeyondTheClock, slot);
    }
  }

  /** So nothing that was only fetched is ever to be reread then. */
  lemma BeyondTheClockNothingAges(t: Tree, now: Instant)
    requires Valid(t) && forall slot :: FreshnessAt(t, slot) != Invalidated
    ensures StaleScopes(t, now, BeyondTheClock) == []
  {
    if StaleScopes(t, now, BeyondTheClock) != [] {
      var sc := StaleScopes(t, now, BeyondTheClock)[0];
      StaleScopesAreTheRoots(t, now, BeyondTheClock, sc);
      var p :| ScopeOf(p) == sc && IsStaleRoot(t, p, now, BeyondTheClock);
      BeyondTheClockExactly(t, p, now);
    }
  }

  /** Later, or for a shorter lifetime, all that had to be reread still has to be. */
  lemma StalenessGrows(t: Tree, now: Instant, limit: nat, later: Instant, shorter: nat, sc: CatalogScope)
    returns (wider: CatalogScope)
    requires Valid(t) && now <= later && shorter <= limit && sc in StaleScopes(t, now, Within(limit))
    ensures wider in StaleScopes(t, later, Within(shorter)) && wider.Contains(sc)
  {
    StaleScopesAreTheRoots(t, now, Within(limit), sc);
    var p :| ScopeOf(p) == sc && IsStaleRoot(t, p, now, Within(limit));
    StaleExactlyWhenOld(t, p, now, limit);
    var slot :| PlaceOf(slot) == Some(p) && Old(FreshnessAt(t, slot), now, limit);
    OldStaysOld(FreshnessAt(t, slot), now, limit, later, shorter);
    StaleExactlyWhenOld(t, p, later, shorter);
    var root := EverythingStaleIsCovered(t, later, Within(shorter), p);
    wider := ScopeOf(root);
  }

  lemma OldStaysOld(freshness: Freshness, now: Instant, limit: nat, later: Instant, shorter: nat)
    requires Old(freshness, now, limit) && now <= later && shorter <= limit
    ensures Old(freshness, later, shorter)
  {
  }

  // ---------- from the operation to the scopes ----------

  /** Does this operation, carried out on `t`, read what `slot` is about? */
  predicate Dates(t: Tree, op: Operation, slot: Slot) {
    match op
    case ServerInfoRead(_) => slot == ServerSlot
    case ResolutionPathRead(_) => slot == ResolutionSlot
    case CatalogsListed(_) => slot == CatalogsSlot
    case NamespacesListed(catalog, _) => slot == NamespacesSlot(MapKey(catalog))
    case RelationsListed(path, _) =>
      path.relation.None? && slot == RelationsSlot(MapKey(path.catalog), MapKey(path.namespace))
    case RelationDescribed(path, _, _) => SlotOfPart(path, Detail) == Some(slot)
    case RelationRead(path, ReadDefinition(_)) => RelationAt(t, path).Some?
      && SlotOfPart(path, Definition) == Some(slot)
    case RelationRead(path, Reading(aspect, _)) =>
      RelationAt(t, path).Some? && aspect != Detail && aspect != Definition && SlotOfPart(path, aspect) == Some(slot)
    case _ => false
  }

  function SlotOfPart(path: CatalogPath, aspect: Aspect): Option<Slot> {
    if path.relation.None? then None
    else Some(RelationSlot(MapKey(path.catalog), MapKey(path.namespace), path.relation.value, aspect))
  }

  /** What an operation reads is dated with the instant it is given. */
  lemma ReadingIsDated(t: Tree, op: Operation, at: Instant, slot: Slot)
    requires Valid(t) && WellTyped(op) && Dates(t, op, slot)
    ensures FreshnessAt(Applied(t, op, at), slot) == Fetched(at)
  {
    match op
    case RelationDescribed(path, kind, description) =>
      DescriptionIsReadBack(t, path, kind, description, at);
      PartIsAt(Applied(t, op, at), path, Detail);
    case RelationRead(path, ReadDefinition(d)) =>
      DefinitionIsReadBack(t, path, d, at);
      PartIsAt(Applied(t, op, at), path, Definition);
    case RelationRead(path, Reading(aspect, content)) =>
      ReadingIsReadBack(t, path, aspect, content, at, path);
      PartIsAt(Applied(t, op, at), path, aspect);
    case _ => ListingIsDated(t, op, at, slot);
  }

  lemma ListingIsDated(t: Tree, op: Operation, at: Instant, slot: Slot)
    requires Valid(t) && Dates(t, op, slot) && !op.RelationDescribed? && !op.RelationRead?
    ensures FreshnessAt(Applied(t, op, at), slot) == Fetched(at)
  {
    match op
    case NamespacesListed(catalog, spaces) => NamespacesAreDated(t, catalog, spaces, at);
    case RelationsListed(path, relations) => RelationsAreDated(t, path, relations, at);
    case _ =>
  }

  lemma NamespacesAreDated(t: Tree, catalog: Option<string>, spaces: seq<NamespaceRef>, at: Instant)
    ensures FreshnessAt(SetNamespaces(t, catalog, spaces, at), NamespacesSlot(MapKey(catalog))) == Fetched(at)
  {
  }

  lemma RelationsAreDated(t: Tree, path: CatalogPath, relations: seq<RelationRef>, at: Instant)
    ensures FreshnessAt(SetRelations(t, path, relations, at),
                        RelationsSlot(MapKey(path.catalog), MapKey(path.namespace))) == Fetched(at)
  {
  }

  lemma PartIsAt(t: Tree, path: CatalogPath, aspect: Aspect)
    requires RelationAt(t, path).Some?
    ensures path.relation.Some?
    ensures FreshnessAt(t, SlotOfPart(path, aspect).value) == AspectFreshness(RelationAt(t, path).value, aspect)
  {
  }

  /** What an operation read at one instant has to be reread at another exactly when more than the lifetime
      passed in between: with nothing else old, the scopes are then that of its place, and none before. */
  lemma ReadingAges(t: Tree, op: Operation, at: Instant, slot: Slot, p: Place, now: Instant, limit: nat,
                    sc: CatalogScope)
    requires Valid(t) && WellTyped(op) && Dates(t, op, slot) && PlaceOf(slot) == Some(p)
    requires forall other :: other != slot && PlaceOf(other).Some? ==>
      !Old(FreshnessAt(Applied(t, op, at), other), now, limit)
    ensures sc in StaleScopes(Applied(t, op, at), now, Within(limit)) <==> now > at + limit && sc == ScopeOf(p)
  {
    StepKeepsPlaces(t, op, at);
    ReadingIsDated(t, op, at, slot);
    OnlyOneOld(Applied(t, op, at), slot, p, now, limit, sc);
  }

  lemma OnlyOneOld(t: Tree, slot: Slot, p: Place, now: Instant, limit: nat, sc: CatalogScope)
    requires Valid(t) && PlaceOf(slot) == Some(p) && FreshnessAt(t, slot).Fetched?
    requires forall other :: other != slot && PlaceOf(other).Some? ==> !Old(FreshnessAt(t, other), now, limit)
    ensures sc in StaleScopes(t, now, Within(limit)) <==> now > FreshnessAt(t, slot).at + limit && sc == ScopeOf(p)
  {
    forall q ensures IsStale(t, q, now, Within(limit)) <==> q == p && Old(FreshnessAt(t, slot), now, limit) {
      StaleExactlyWhenOld(t, q, now, limit);
    }
    StaleScopesAreTheRoots(t, now, Within(limit), sc);
    AboveIsOther(p);
    assert IsStaleRoot(t, p, now, Within(limit)) <==> Old(FreshnessAt(t, slot), now, limit);
  }

  lemma AboveIsOther(p: Place)
    ensures !Above(p, p)
  {
    AncestorsAreAbove(p);
    if Above(p, p) { AboveIsAncestor(p, p); }
  }
}
