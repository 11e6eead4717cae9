/** Which runs of the cache are sure to get scopes that do not cover one another. */
module CatalogMinimality {
  import opened Options
  import opened OrderedMaps
  import opened Paths
  import opened CatalogTree
  import opened CatalogDefinitions
  import opened CatalogStaleness
  import opened CatalogLaws

  // ---------- the names a caller uses ----------

  /** The keys of the catalogs and namespaces an operation may bring into the tree. */
  ghost predicate Uses(op: Operation, catalogs: set<string>, namespaces: set<string>) {
    match op
    case CatalogsListed(infos) => forall i :: i in infos ==> i.name in catalogs
    case NamespacesListed(catalog, spaces) => MapKey(catalog) in catalogs && forall i :: i in spaces ==>
      i.name in namespaces
    case RelationsListed(path, _) => path.relation.Some?
      || (MapKey(path.catalog) in catalogs && MapKey(path.namespace) in namespaces)
    case RelationDescribed(path, _, _) => path.relation.None?
      || (MapKey(path.catalog) in catalogs && MapKey(path.namespace) in namespaces)
    case _ => true
  }

  ghost predicate RunUses(run: seq<Event>, catalogs: set<string>, namespaces: set<string>) {
    forall e :: e in run ==> WellTyped(e.op) && Uses(e.op, catalogs, namespaces)
  }

  ghost predicate SpacesWithin(spaces: OrderedMap<NamespaceNode>, namespaces: set<string>) {
    forall n :: n in spaces.values ==> n in namespaces
  }

  ghost predicate Within(t: Tree, catalogs: set<string>, namespaces: set<string>) {
    forall c :: c in t.catalogs.value.values ==>
      c in catalogs && SpacesWithin(t.catalogs.value.values[c].namespaces.value, namespaces)
  }

  // ---------- a run stays within the names it uses ----------

  lemma WithCatalogWithin(t: Tree, catalog: Option<string>, node: CatalogNode, catalogs: set<string>,
                          namespaces: set<string>)
    requires Within(t, catalogs, namespaces) && MapKey(catalog) in catalogs
    requires SpacesWithin(node.namespaces.value, namespaces)
    ensures Within(WithCatalog(t, catalog, node), catalogs, namespaces)
  {
  }

  lemma OrNewWithin(t: Tree, catalog: Option<string>, catalogs: set<string>, namespaces: set<string>)
    requires Within(t, catalogs, namespaces)
    ensures SpacesWithin(CatalogOrNew(t, catalog).namespaces.value, namespaces)
    ensures CatalogAt(t, catalog).Some? ==> MapKey(catalog) in catalogs
  {
  }

  lemma WithNamespaceWithin(t: Tree, path: CatalogPath, node: NamespaceNode, catalogs: set<string>,
                            namespaces: set<string>)
    requires Within(t, catalogs, namespaces)
    requires NamespaceAt(t, path).Some? || (MapKey(path.catalog) in catalogs && MapKey(path.namespace) in namespaces)
    ensures Within(WithNamespace(t, path, node), catalogs, namespaces)
  {
    OrNewWithin(t, path.catalog, catalogs, namespaces);
    var parent := CatalogOrNew(t, path.catalog);
    WithCatalogWithin(t, path.catalog, parent.(namespaces := parent.namespaces.(
      value := parent.namespaces.value.Put(MapKey(path.namespace), node))), catalogs, namespaces);
  }

  lemma WithRelationWithin(t: Tree, path: CatalogPath, node: RelationNode, catalogs: set<string>,
                           namespaces: set<string>)
    requires Within(t, catalogs, namespaces) && path.relation.Some?
    requires NamespaceAt(t, path).Some? || (MapKey(path.catalog) in catalogs && MapKey(path.namespace) in namespaces)
    ensures Within(WithRelation(t, path, node), catalogs, namespaces)
  {
    var parent := NamespaceOrNew(t, path);
    WithNamespaceWithin(t, path, parent.(relations := parent.relations.(
      value := parent.relations.value.Put(path.relation.value, node))), catalogs, namespaces);
  }

  lemma ListingWithin(t: Tree, op: Operation, now: Instant, catalogs: set<string>, namespaces: set<string>)
    requires Valid(t) && Within(t, catalogs, namespaces) && Uses(op, catalogs, namespaces)
    requires op.CatalogsListed? || op.NamespacesListed? || op.RelationsListed?
    ensures Within(Applied(t, op, now), catalogs, namespaces)
  {
    match op
    case CatalogsListed(infos) =>
      var level := Relist(t.catalogs.value, infos, (i: CatalogRef) => i.name, RenewCatalog, CreateCatalog).1;
      forall c | c in level.values ensures c in catalogs && SpacesWithin(level.values[c].namespaces.value, namespaces) {
        var item := RelistOrigin(t.catalogs.value, infos, (i: CatalogRef) => i.name, RenewCatalog, CreateCatalog, c);
      }
    case NamespacesListed(catalog, spaces) =>
      OrNewIsValid(t, CatalogPath(catalog, None, None));
      OrNewWithin(t, catalog, catalogs, namespaces);
      var node, items := CatalogOrNew(t, catalog), NamespaceInfos(catalog, spaces);
      var level := Relist(node.namespaces.value, items, (i: NamespaceRef) => i.name, RenewNamespace, CreateNamespace).1;
      forall n | n in level.values ensures n in namespaces {
        var item := RelistOrigin(node.namespaces.value, items, (i: NamespaceRef) => i.name, RenewNamespace,
          CreateNamespace, n);
        var i :| 0 <= i < |items| && items[i] == item;
        assert spaces[i] in spaces;
      }
      WithCatalogWithin(t, catalog, node.(namespaces := Cached(Fetched(now), level)), catalogs, namespaces);
    case RelationsListed(path, relations) =>
      if path.relation.None? {
        var node, items := NamespaceOrNew(t, path), Summaries(path, relations);
        WithNamespaceWithin(t, path, node.(relations := Cached(Fetched(now),
          Relist(node.relations.value, items, (r: RelationRef) => r.name, RenewRelation, NewRelation).1)), catalogs,
            namespaces);
      }
  }

  lemma MarkingWithin(t: Tree, scope: CatalogScope, catalogs: set<string>, namespaces: set<string>)
    requires Within(t, catalogs, namespaces)
    ensures Within(Marked(t, scope), catalogs, namespaces)
  {
    match scope
    case ServerScope =>
    case CatalogScope(path) =>
      OrNewWithin(t, path.catalog, catalogs, namespaces);
      var node := CatalogAt(t, path.catalog);
      if node.Some? { WithCatalogWithin(t, path.catalog, node.value.Invalidate(), catalogs, namespaces); }
    case NamespaceScope(path) =>
      var node := NamespaceAt(t, path);
      if node.Some? { WithNamespaceWithin(t, path, node.value.Invalidate(), catalogs, namespaces); }
    case _ =>
      var node := RelationAt(t, scope.path);
      if node.Some? { WithRelationWithin(t, scope.path, MarkedNode(node.value, scope), catalogs, namespaces); }
  }

  lemma ForgettingWithin(t: Tree, scope: CatalogScope, catalogs: set<string>, namespaces: set<string>)
    requires Within(t, catalogs, namespaces)
    ensures Within(Forgotten(t, scope), catalogs, namespaces)
  {
    match scope
    case ServerScope =>
    case CatalogScope(path) =>
    case NamespaceScope(path) =>
      OrNewWithin(t, path.catalog, catalogs, namespaces);
      var node := CatalogAt(t, path.catalog);
      if node.Some? {
        WithCatalogWithin(t, path.catalog,
          node.value.(namespaces := Cached(node.value.namespaces.freshness.Invalidate(),
          node.value.namespaces.value.Drop(MapKey(path.namespace)))), catalogs, namespaces);
      }
    case RelationScope(path) =>
      var node := NamespaceAt(t, path);
      if node.Some? && path.relation.Some? {
        WithNamespaceWithin(t, path, node.value.(relations := Cached(node.value.relations.freshness.Invalidate(),
          node.value.relations.value.Drop(path.relation.value))), catalogs, namespaces);
      }
    case ConstraintsScope(path) =>
      var node := RelationAt(t, path);
      if node.Some? { WithRelationWithin(t, path, node.value.(constraints := Unread()), catalogs, namespaces); }
    case IncomingKeysScope(path) =>
      var node := RelationAt(t, path);
      if node.Some? { WithRelationWithin(t, path, node.value.(incomingKeys := Unread()), catalogs, namespaces); }
    case DefinitionScope(path) =>
      var node := RelationAt(t, path);
      if node.Some? { WithRelationWithin(t, path, node.value.(definition := Unread()), catalogs, namespaces); }
  }

  lemma EvictingWithin(t: Tree, scope: CatalogScope, catalogs: set<string>, namespaces: set<string>)
    requires Within(t, catalogs, namespaces)
    ensures Within(Evicted(t, scope), catalogs, namespaces)
  {
    match scope
    case ServerScope =>
    case CatalogScope(path) =>
      OrNewWithin(t, path.catalog, catalogs, namespaces);
      var node := CatalogAt(t, path.catalog);
      if node.Some? { WithCatalogWithin(t, path.catalog, node.value.(namespaces := Unlisted()), catalogs, namespaces); }
    case NamespaceScope(path) =>
      OrNewWithin(t, path.catalog, catalogs, namespaces);
      var parent := CatalogAt(t, path.catalog);
      if parent.Some? {
        WithCatalogWithin(t, path.catalog, parent.value.(namespaces :=
          parent.value.namespaces.(value := parent.value.namespaces.value.Drop(MapKey(path.namespace)))), catalogs,
            namespaces);
      }
      if NamespaceAt(t, path).Some? {
        WithNamespaceWithin(t, path, NamespaceAt(t, path).value.(relations := Unlisted()), catalogs, namespaces);
      }
    case RelationScope(path) =>
      var parent, node := NamespaceAt(t, path), RelationAt(t, path);
      if node.Some? {
        WithNamespaceWithin(t, path, parent.value.(relations :=
          parent.value.relations.(value := parent.value.relations.value.Drop(path.relation.value))), catalogs,
            namespaces);
        WithRelationWithin(t, path, node.value.(detail := Unread(), indexes := Unread(), foreignKeys := Unread()),
          catalogs, namespaces);
      }
    case _ => ForgettingWithin(t, scope, catalogs, namespaces);
  }

  lemma SameButDefinitionsWithin(t: Tree, t': Tree, catalogs: set<string>, namespaces: set<string>)
    requires Within(t, catalogs, namespaces) && NoDefinitions(t') == NoDefinitions(t)
    ensures Within(t', catalogs, namespaces)
  {
    var m, m' := t.catalogs.value, t'.catalogs.value;
    var v, v' := NoDefinitions(t).catalogs.value, NoDefinitions(t').catalogs.value;
    assert m'.values.Keys == v'.values.Keys == v.values.Keys == m.values.Keys;
    forall c | c in m'.values ensures c in catalogs && SpacesWithin(m'.values[c].namespaces.value, namespaces) {
      assert v'.values[c].namespaces.value.values.Keys == m'.values[c].namespaces.value.values.Keys;
      assert v.values[c].namespaces.value.values.Keys == m.values[c].namespaces.value.values.Keys;
    }
  }

  lemma StepWithin(t: Tree, op: Operation, now: Instant, catalogs: set<string>, namespaces: set<string>)
    requires Valid(t) && WellTyped(op) && Within(t, catalogs, namespaces) && Uses(op, catalogs, namespaces)
    ensures Within(Applied(t, op, now), catalogs, namespaces)
  {
    match op
    case ServerInfoRead(_) =>
    case ResolutionPathRead(_) =>
    case RelationDescribed(path, kind, description) =>
      if path.relation.Some? {
        WithRelationWithin(t, path, WithDescription(RelationOrNew(t, path, kind), description, now), catalogs,
          namespaces);
      }
    case RelationRead(path, reading) =>
      var node := RelationAt(t, path);
      if node.Some? {
        WithRelationWithin(t, path, WithReading(node.value, reading, now), catalogs, namespaces);
        if reading.ReadDefinition? {
          ReadingIsValid(t, path, ReadDefinition(reading.definition), now);
          TrimmingTouchesOnlyDefinitions(SetReading(t, path, reading, now), path, path);
          SameButDefinitionsWithin(SetReading(t, path, reading, now), Applied(t, op, now), catalogs, namespaces);
        }
      }
    case Invalidates(scope) => MarkingWithin(t, scope, catalogs, namespaces);
    case Forgets(scope) => ForgettingWithin(t, scope, catalogs, namespaces);
    case Evicts(scope) => EvictingWithin(t, scope, catalogs, namespaces);
    case _ => ListingWithin(t, op, now, catalogs, namespaces);
  }

  lemma {:induction false} RunStaysWithin(run: seq<Event>, catalogs: set<string>, namespaces: set<string>)
    requires RunUses(run, catalogs, namespaces)
    ensures Within(TreeAfter(run), catalogs, namespaces)
    decreases |run|
  {
    if run != [] {
      var last := run[|run| - 1];
      RunStaysWithin(run[..|run| - 1], catalogs, namespaces);
      assert last in run;
      StepWithin(TreeAfter(run[..|run| - 1]), last.op, last.now, catalogs, namespaces);
    }
  }

  // ---------- runs that get covering scopes ----------

  const SERVER_MARKED := Event(Invalidates(ServerScope), 0)

  function ListsNamespaces(catalog: Option<string>): Event {
    Event(NamespacesListed(catalog, []), 0)
  }

  function ListsRelations(catalog: Option<string>, namespace: Option<string>): Event {
    Event(RelationsListed(CatalogPath(catalog, namespace, None), []), 0)
  }

  /** Listing under a missing catalog and under a named one. */
  function BothCatalogs(c: string): seq<Event> {
    [ListsNamespaces(None), ListsNamespaces(Some(c))]
  }

  /** Listing under a missing namespace of a catalog and under a named one. */
  function BothNamespaces(catalog: Option<string>, n: string): seq<Event> {
    [ListsRelations(catalog, None), ListsRelations(catalog, Some(n))]
  }

  lemma AfterOneMore(run: seq<Event>, e: Event)
    requires (forall d :: d in run ==> WellTyped(d.op)) && WellTyped(e.op)
    ensures TreeAfter(run + [e]) == Applied(TreeAfter(run), e.op, e.now)
  {
    assert (run + [e])[..|run|] == run;
  }

  lemma AfterTwo(a: Event, b: Event)
    requires WellTyped(a.op) && WellTyped(b.op)
    ensures TreeAfter([a]) == Applied(NEW_TREE, a.op, a.now)
    ensures TreeAfter([a, b]) == Applied(TreeAfter([a]), b.op, b.now)
  {
    AfterOneMore([], a);
    AfterOneMore([a], b);
    assert [] + [a] == [a] && [a] + [b] == [a, b];
  }

  lemma EmptyListing(t: Tree, catalog: Option<string>, now: Instant)
    ensures SetNamespaces(t, catalog, [], now)
      == WithCatalog(t, catalog, CatalogOrNew(t, catalog).(namespaces := Cached(Fetched(now), Empty())))
  {
    assert NamespaceInfos(catalog, []) == [];
  }

  lemma EmptyRelations(t: Tree, path: CatalogPath, now: Instant)
    ensures SetRelations(t, path, [], now)
      == WithNamespace(t, path, NamespaceOrNew(t, path).(relations := Cached(Fetched(now), Empty())))
  {
    assert Summaries(path, []) == [];
  }

  lemma RootsCover(t: Tree, p: Place, q: Place, now: Instant, ttl: Lifetime)
    requires Valid(t) && TreeRoot(t, p, now, ttl) && TreeRoot(t, q, now, ttl)
    requires p != q && ScopeOf(p).Contains(ScopeOf(q))
    ensures !IsMinimal(t, now, ttl)
  {
    TreeWalkHas(t, p, now, ttl);
    TreeWalkHas(t, q, now, ttl);
    if ScopeOf(p) == ScopeOf(q) { ScopeOfIsInjective(p, q); }
  }

  lemma ListedCatalogIsRoot(t: Tree, c: string, now: Instant, ttl: Lifetime)
    requires t.server.freshness == Never && t.catalogs.freshness == Never
    requires CatalogNodeAt(t, c).Some? && CatalogNodeAt(t, c).value.namespaces.freshness.Known()
    ensures TreeRoot(Marked(t, ServerScope), AtCatalog(c), now, ttl)
  {
    assert CatalogNodeAt(Marked(t, ServerScope), c) == Some(CatalogNodeAt(t, c).value.Invalidate());
  }

  lemma ListedNamespaceIsRoot(t: Tree, c: string, n: string, now: Instant, ttl: Lifetime)
    requires t.server.freshness == Never && t.catalogs.freshness == Never
    requires CatalogNodeAt(t, c).Some? && CatalogNodeAt(t, c).value.namespaces.freshness == Never
    requires NamespaceNodeAt(t, c, n).Some? && NamespaceNodeAt(t, c, n).value.relations.freshness.Known()
    ensures TreeRoot(Marked(t, ServerScope), AtNamespace(c, n), now, ttl)
  {
    var t' := Marked(t, ServerScope);
    assert CatalogNodeAt(t', c) == Some(CatalogNodeAt(t, c).value.Invalidate());
    assert NamespaceNodeAt(t', c, n) == Some(NamespaceNodeAt(t, c, n).value.Invalidate());
  }

  /** Two catalogs listed, the server and its catalogs never. */
  predicate CatalogsListedIn(t: Tree, c: string) {
    && t.server.freshness == Never && t.catalogs.freshness == Never
    && CatalogNodeAt(t, MISSING_TIER).Some? && CatalogNodeAt(t, MISSING_TIER).value.namespaces.freshness.Known()
    && CatalogNodeAt(t, c).Some? && CatalogNodeAt(t, c).value.namespaces.freshness.Known()
  }

  /** Two namespaces of `c` listed, nothing above them. */
  predicate NamespacesListedIn(t: Tree, c: string, n: string) {
    && t.server.freshness == Never && t.catalogs.freshness == Never
    && CatalogNodeAt(t, c).Some? && CatalogNodeAt(t, c).value.namespaces.freshness == Never
    && NamespaceNodeAt(t, c, MISSING_TIER).Some?
      && NamespaceNodeAt(t, c, MISSING_TIER).value.relations.freshness.Known()
    && NamespaceNodeAt(t, c, n).Some? && NamespaceNodeAt(t, c, n).value.relations.freshness.Known()
  }

  lemma ListedCatalogsCover(t: Tree, c: string, now: Instant, ttl: Lifetime)
    requires Valid(Marked(t, ServerScope)) && CatalogsListedIn(t, c) && c != MISSING_TIER
    ensures !IsMinimal(Marked(t, ServerScope), now, ttl)
  {
    ListedCatalogIsRoot(t, MISSING_TIER, now, ttl);
    ListedCatalogIsRoot(t, c, now, ttl);
    RootsCover(Marked(t, ServerScope), AtCatalog(MISSING_TIER), AtCatalog(c), now, ttl);
  }

  lemma ListedNamespacesCover(t: Tree, c: string, n: string, now: Instant, ttl: Lifetime)
    requires Valid(Marked(t, ServerScope)) && NamespacesListedIn(t, c, n) && n != MISSING_TIER
    ensures !IsMinimal(Marked(t, ServerScope), now, ttl)
  {
    ListedNamespaceIsRoot(t, c, MISSING_TIER, now, ttl);
    ListedNamespaceIsRoot(t, c, n, now, ttl);
    RootsCover(Marked(t, ServerScope), AtNamespace(c, MISSING_TIER), AtNamespace(c, n), now, ttl);
  }

  lemma TwoCatalogsListed(c: string)
    requires c != MISSING_TIER
    ensures WellTyped(ListsNamespaces(None).op) && WellTyped(ListsNamespaces(Some(c)).op)
    ensures CatalogsListedIn(TreeAfter(BothCatalogs(c)), c)
  {
    AfterTwo(ListsNamespaces(None), ListsNamespaces(Some(c)));
    EmptyListing(NEW_TREE, None, 0);
    EmptyListing(SetNamespaces(NEW_TREE, None, [], 0), Some(c), 0);
  }

  lemma TwoNamespacesListed(catalog: Option<string>, n: string)
    requires catalog != Some(MISSING_TIER) && n != MISSING_TIER
    ensures WellTyped(ListsRelations(catalog, None).op) && WellTyped(ListsRelations(catalog, Some(n)).op)
    ensures NamespacesListedIn(TreeAfter(BothNamespaces(catalog, n)), MapKey(catalog), n)
  {
    var p, q := CatalogPath(catalog, None, None), CatalogPath(catalog, Some(n), None);
    AfterTwo(ListsRelations(catalog, None), ListsRelations(catalog, Some(n)));
    TwoRelationListings(p, q);
  }

  lemma TwoRelationListings(p: CatalogPath, q: CatalogPath)
    requires Named(p) && Named(q) && p.relation.None? && q.relation.None?
    requires p.catalog == q.catalog && p.namespace.None? && q.namespace.Some?
    ensures var first := Applied(NEW_TREE, RelationsListed(p, []), 0);
      Valid(first)
        && NamespacesListedIn(Applied(first, RelationsListed(q, []), 0), MapKey(p.catalog), q.namespace.value)
  {
    var first := Applied(NEW_TREE, RelationsListed(p, []), 0);
    StepKeepsPlaces(NEW_TREE, RelationsListed(p, []), 0);
    EmptyRelations(NEW_TREE, p, 0);
    EmptyRelations(first, q, 0);
  }

  ghost predicate AllWellTyped(run: seq<Event>) {
    forall e :: e in run ==> WellTyped(e.op)
  }

  /** The tree a run ends with, the server invalidated last. */
  ghost function MarkedAfter(run: seq<Event>): (t: Tree)
    requires AllWellTyped(run)
    ensures AllWellTyped(run + [SERVER_MARKED]) && t == TreeAfter(run + [SERVER_MARKED]) && Valid(t)
  {
    AfterOneMore(run, SERVER_MARKED);
    Marked(TreeAfter(run), ServerScope)
  }

  lemma CatalogsCoverAfter(run: seq<Event>, c: string, now: Instant, ttl: Lifetime)
    requires AllWellTyped(run) && CatalogsListedIn(TreeAfter(run), c) && c != MISSING_TIER
    ensures !IsMinimal(MarkedAfter(run), now, ttl)
  {
    ListedCatalogsCover(TreeAfter(run), c, now, ttl);
  }

  lemma NamespacesCoverAfter(run: seq<Event>, c: string, n: string, now: Instant, ttl: Lifetime)
    requires AllWellTyped(run) && NamespacesListedIn(TreeAfter(run), c, n) && n != MISSING_TIER
    ensures !IsMinimal(MarkedAfter(run), now, ttl)
  {
    ListedNamespacesCover(TreeAfter(run), c, n, now, ttl);
  }

  /** A run that lists under a missing catalog and a named one, and invalidates the server, gets two
      scopes, the first covering the second. */
  lemma MixedCatalogsCover(c: string, now: Instant, ttl: Lifetime)
    requires c != MISSING_TIER
    ensures AllWellTyped(BothCatalogs(c)) && !IsMinimal(MarkedAfter(BothCatalogs(c)), now, ttl)
  {
    TwoCatalogsListed(c);
    CatalogsCoverAfter(BothCatalogs(c), c, now, ttl);
  }

  /** So does one that lists under a missing namespace and a named one. */
  lemma MixedNamespacesCover(catalog: Option<string>, n: string, now: Instant, ttl: Lifetime)
    requires catalog != Some(MISSING_TIER) && n != MISSING_TIER
    ensures AllWellTyped(BothNamespaces(catalog, n)) && !IsMinimal(MarkedAfter(BothNamespaces(catalog, n)), now, ttl)
  {
    TwoNamespacesListed(catalog, n);
    NamespacesCoverAfter(BothNamespaces(catalog, n), MapKey(catalog), n, now, ttl);
  }

  /** The missing level and a name, both. */
  ghost predicate Mixes(keys: set<string>) {
    MISSING_TIER in keys && exists k :: k in keys && k != MISSING_TIER
  }

  lemma BothCatalogsUse(c: string, catalogs: set<string>, namespaces: set<string>)
    requires MISSING_TIER in catalogs && c in catalogs && c != MISSING_TIER
    ensures RunUses(BothCatalogs(c) + [SERVER_MARKED], catalogs, namespaces)
  {
  }

  lemma BothNamespacesUse(c: string, n: string, catalogs: set<string>, namespaces: set<string>)
    requires c in catalogs && MISSING_TIER in namespaces && n in namespaces && n != MISSING_TIER
    ensures RunUses(BothNamespaces(FromKey(c), n) + [SERVER_MARKED], catalogs, namespaces)
  {
  }

  /** Some run that uses these names gets scopes one of which covers another. */
  ghost predicate SomeRunCovers(catalogs: set<string>, namespaces: set<string>) {
    exists run, now, ttl :: RunUses(run, catalogs, namespaces) && !IsMinimal(TreeAfter(run), now, ttl)
  }

  lemma RunCovers(run: seq<Event>, catalogs: set<string>, namespaces: set<string>, now: Instant, ttl: Lifetime)
    requires AllWellTyped(run) && RunUses(run + [SERVER_MARKED], catalogs, namespaces)
    requires !IsMinimal(MarkedAfter(run), now, ttl)
    ensures SomeRunCovers(catalogs, namespaces)
  {
  }

  /** Some run that uses these names gets scopes one of which covers another exactly when its catalogs,
      or the namespaces it has of them, mix the missing level with a name; no other run ever does. */
  lemma MinimalExactlyWhenUnmixed(catalogs: set<string>, namespaces: set<string>)
    ensures SomeRunCovers(catalogs, namespaces) <==> Mixes(catalogs) || (catalogs != {} && Mixes(namespaces))
  {
    if Mixes(catalogs) {
      var c :| c in catalogs && c != MISSING_TIER;
      MixedCatalogsCover(c, 0, BeyondTheClock);
      BothCatalogsUse(c, catalogs, namespaces);
      RunCovers(BothCatalogs(c), catalogs, namespaces, 0, BeyondTheClock);
    } else if catalogs != {} && Mixes(namespaces) {
      var c :| c in catalogs;
      var n :| n in namespaces && n != MISSING_TIER;
      MixedNamespacesCover(FromKey(c), n, 0, BeyondTheClock);
      BothNamespacesUse(c, n, catalogs, namespaces);
      RunCovers(BothNamespaces(FromKey(c), n), catalogs, namespaces, 0, BeyondTheClock);
    } else {
      forall run, now, ttl | RunUses(run, catalogs, namespaces) ensures IsMinimal(TreeAfter(run), now, ttl) {
        RunStaysWithin(run, catalogs, namespaces);
        UnmixedIsMinimal(TreeAfter(run), now, ttl);
      }
    }
  }
}
