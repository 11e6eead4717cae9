/** What every run of cache operations keeps, and what re-listing and invalidating do. */
module CatalogLaws {
  import opened Machine
  import opened Options
  import opened OrderedMaps
  import opened Paths
  import Nesting
  import opened CatalogTree
  import opened CatalogDefinitions

  // ---------- listing a level again ----------

  ghost function Names<I>(items: seq<I>, key: I -> string): seq<string> {
    seq(|items|, i requires 0 <= i < |items| => key(items[i]))
  }

  /** `k` is the key of no item before `j`. */
  ghost predicate NotBefore<I>(items: seq<I>, key: I -> string, k: string, j: nat)
    requires j <= |items|
  {
    forall i :: 0 <= i < j ==> key(items[i]) != k
  }

  ghost predicate NotAfter<I>(items: seq<I>, key: I -> string, k: string, j: nat)
    requires j < |items|
  {
    forall i :: j < i < |items| ==> key(items[i]) != k
  }

  /** What is left of the previous level is what no item named. */
  lemma {:induction false} RelistLeaves<I, V>(previous: OrderedMap<V>, items: seq<I>, key: I -> string,
                                              renew: (I, V) -> V, create: I -> V)
    requires previous.Valid()
    ensures var left := Relist(previous, items, key, renew, create).0;
      && left.Valid()
      && (forall k :: k in left.values <==> k in previous.values && NotBefore(items, key, k, |items|))
      && (forall k :: k in left.values ==> left.values[k] == previous.values[k])
    decreases |items|
  {
    if items != [] {
      var n := |items| - 1;
      RelistLeaves(previous, items[..n], key, renew, create);
      forall k ensures NotBefore(items, key, k, |items|) <==> NotBefore(items[..n], key, k, n) && key(items[n]) != k {
        assert forall i :: 0 <= i < n ==> items[..n][i] == items[i];
        if NotBefore(items, key, k, |items|) { assert key(items[n]) != k; }
      }
    }
  }

  /** The keys are the listing's, in its order. */
  lemma {:induction false} RelistKeys<I, V>(previous: OrderedMap<V>, items: seq<I>, key: I -> string,
                                            renew: (I, V) -> V, create: I -> V)
    ensures var level := Relist(previous, items, key, renew, create).1;
      level.Valid() && level.keys == FirstOccurrences(Names(items, key))
    decreases |items|
  {
    if items != [] {
      RelistKeys(previous, items[..|items| - 1], key, renew, create);
      assert Names(items, key)[..|items| - 1] == Names(items[..|items| - 1], key);
    }
  }

  /** The last item of a name is the one kept; it keeps what was known exactly when no
      earlier item took it. */
  lemma {:induction false} RelistValue<I, V>(previous: OrderedMap<V>, items: seq<I>, key: I -> string,
                                             renew: (I, V) -> V, create: I -> V, j: nat)
    requires previous.Valid() && j < |items| && NotAfter(items, key, key(items[j]), j)
    ensures var k := key(items[j]); var level := Relist(previous, items, key, renew, create).1;
      k in level.values && level.values[k] ==
        if k in previous.values && NotBefore(items, key, k, j) then renew(items[j], previous.values[k])
          else create(items[j])
    decreases |items|
  {
    var n := |items| - 1;
    var k, before := key(items[j]), items[..n];
    if j == n {
      RelistLeaves(previous, before, key, renew, create);
      NotBeforeWithout(items, key, k);
    } else {
      NotAfterWithout(items, key, k, j);
      RelistValue(previous, before, key, renew, create, j);
      OthersAreLeft(previous, items, key, renew, create, k);
    }
  }

  lemma OthersAreLeft<I, V>(previous: OrderedMap<V>, items: seq<I>, key: I -> string,
                            renew: (I, V) -> V, create: I -> V, k: string)
    requires items != [] && key(items[|items| - 1]) != k
    ensures Relist(previous, items, key, renew, create).1.Get(k)
         == Relist(previous, items[..|items| - 1], key, renew, create).1.Get(k)
  {
  }

  lemma NotBeforeWithout<I>(items: seq<I>, key: I -> string, k: string)
    requires items != []
    ensures var n := |items| - 1; NotBefore(items[..n], key, k, n) <==> NotBefore(items, key, k, n)
  {
    var before := items[..|items| - 1];
    assert forall i :: 0 <= i < |before| ==> before[i] == items[i];
  }

  lemma NotAfterWithout<I>(items: seq<I>, key: I -> string, k: string, j: nat)
    requires j < |items| - 1 && NotAfter(items, key, k, j)
    ensures var before := items[..|items| - 1];
      key(items[|items| - 1]) != k && NotAfter(before, key, k, j)
        && (NotBefore(before, key, k, j) <==> NotBefore(items, key, k, j))
  {
    var before := items[..|items| - 1];
    assert forall i :: 0 <= i < |before| ==> before[i] == items[i];
  }

  /** A name of the listing keeps what was known of it exactly when the listing names it once
      (or when there was nothing to keep). */
  lemma ListedOnceKeeps<I, V>(previous: OrderedMap<V>, items: seq<I>, key: I -> string,
                              renew: (I, V) -> V, create: I -> V, j: nat)
    requires previous.Valid() && j < |items| && key(items[j]) in previous.values
    requires NotAfter(items, key, key(items[j]), j)
    ensures var k := key(items[j]); var kept := renew(items[j], previous.values[k]);
      && k in Relist(previous, items, key, renew, create).1.values
      && (Relist(previous, items, key, renew, create).1.values[k] == kept
          <==> NotBefore(items, key, k, j) || kept == create(items[j]))
  {
    RelistValue(previous, items, key, renew, create, j);
  }

  lemma LookUpChanged(t: Tree, path: CatalogPath, node: NamespaceNode, r: string)
    requires path.relation.None?
    ensures var t', at := WithNamespace(t, path, node), path.(relation := Some(r));
      && NamespaceAt(t', path) == Some(node)
      && RelationAt(t', at) == node.relations.value.Get(r)
      && RelationAt(t, at) == NamespaceOrNew(t, path).relations.value.Get(r)
  {
  }

  /** With distinct names, a level is its listing, in order, and every name that stays keeps what was
      known of it. */
  lemma DistinctLevel<I, V>(previous: OrderedMap<V>, items: seq<I>, key: I -> string, renew: (I, V) -> V,
                            create: I -> V, j: nat)
    requires previous.Valid() && j < |items| && Distinct(Names(items, key))
    ensures var level, k := Relist(previous, items, key, renew, create).1, key(items[j]);
      && level.keys == Names(items, key)
      && level.Get(k) == Some(if k in previous.values then renew(items[j], previous.values[k]) else create(items[j]))
  {
    assert forall i :: 0 <= i < |items| ==> key(items[i]) == Names(items, key)[i];
    RelistKeys(previous, items, key, renew, create);
    FirstOccurrencesOfDistinct(Names(items, key));
    assert NotAfter(items, key, key(items[j]), j) && NotBefore(items, key, key(items[j]), j);
    RelistValue(previous, items, key, renew, create, j);
  }

  /** The catalogs are the listing, in order, and each that stays keeps its subtree. */
  lemma RelistingKeepsCatalogs(t: Tree, infos: seq<CatalogRef>, now: Instant, j: nat)
    requires Valid(t) && j < |infos| && Distinct(Names(infos, (i: CatalogRef) => i.name))
    ensures var t', at := SetCatalogs(t, infos, now), Some(infos[j].name);
      && t'.catalogs.freshness == Fetched(now)
      && t'.catalogs.value.keys == Names(infos, (i: CatalogRef) => i.name)
      && CatalogAt(t', at) == Some((if CatalogAt(t, at).Some? then CatalogAt(t, at).value
        else CreateCatalog(infos[j])).(info := Some(infos[j])))
      && t'.server == t.server && t'.resolutionPath == t.resolutionPath
  {
    DistinctLevel(t.catalogs.value, infos, (i: CatalogRef) => i.name, RenewCatalog, CreateCatalog, j);
  }

  /** The namespaces of a catalog are the listing, in order, and each that stays keeps its subtree. */
  lemma RelistingKeepsNamespaces(t: Tree, catalog: Option<string>, infos: seq<NamespaceRef>, now: Instant, j: nat)
    requires Valid(t) && j < |infos| && Distinct(Names(infos, (i: NamespaceRef) => i.name))
    ensures var t', at := SetNamespaces(t, catalog, infos, now), CatalogPath(catalog, Some(infos[j].name), None);
      var info := infos[j].(parent := CatalogPath(catalog, None, None));
      && CatalogAt(t', catalog).Some?
      && CatalogAt(t', catalog).value.namespaces.freshness == Fetched(now)
      && CatalogAt(t', catalog).value.namespaces.value.keys == Names(infos, (i: NamespaceRef) => i.name)
      && NamespaceAt(t', at) == Some((if NamespaceAt(t, at).Some? then NamespaceAt(t, at).value
        else CreateNamespace(info)).(info := Some(info)))
      && forall other :: MapKey(other) != MapKey(catalog) ==> CatalogAt(t', other) == CatalogAt(t, other)
  {
    var items, key := NamespaceInfos(catalog, infos), (i: NamespaceRef) => i.name;
    OrNewIsValid(t, CatalogPath(catalog, None, None));
    assert Names(items, key) == Names(infos, key);
    DistinctLevel(CatalogOrNew(t, catalog).namespaces.value, items, key, RenewNamespace, CreateNamespace, j);
  }

  /** The relations of a namespace are the listing, in order, and each that stays keeps everything that
      was read of it. */
  lemma RelistingKeepsDetails(t: Tree, namespace: CatalogPath, relations: seq<RelationRef>, now: Instant, j: nat)
    requires Valid(t) && namespace.relation.None? && j < |relations|
    requires Distinct(Names(relations, (r: RelationRef) => r.name))
    ensures var t', at := SetRelations(t, namespace, relations, now), namespace.(relation := Some(relations[j].name));
      && NamespaceAt(t', namespace).Some?
      && NamespaceAt(t', namespace).value.relations.freshness == Fetched(now)
      && NamespaceAt(t', namespace).value.relations.value.keys == Names(relations, (r: RelationRef) => r.name)
      && RelationAt(t', at) == Some(
           (if RelationAt(t, at).Some? then RelationAt(t, at).value else NewRelation(relations[j])).(
             summary := relations[j].(parent := namespace)))
  {
    var node, items, key := NamespaceOrNew(t, namespace), Summaries(namespace, relations), (r: RelationRef) => r.name;
    var level := Relist(node.relations.value, items, key, RenewRelation, NewRelation).1;
    OrNewIsValid(t, namespace);
    assert Names(items, key) == Names(relations, key);
    DistinctLevel(node.relations.value, items, key, RenewRelation, NewRelation, j);
    LookUpChanged(t, namespace, node.(relations := Cached(Fetched(now), level)), relations[j].name);
  }

  /** Nothing nests this many levels down. */
  ghost predicate NestsWithin(t: Nesting.LogicalType, levels: nat) {
    forall p: Nesting.Position :: Nesting.At(t, p).Some? && |p| >= levels ==> !Nesting.Nests(Nesting.At(t, p).value)
  }

  /** A described relation is found with its description, every type cut at the bound and none nesting
      past it; a type within the bound is stored as it was read. */
  lemma DescribedIsBounded(t: Tree, path: CatalogPath, kind: nat, description: Description, now: Instant, i: nat)
    requires path.relation.Some? && i < |description.fields|
    ensures var node := RelationAt(SetRelation(t, path, kind, description, now), path);
      && node == Some(WithDescription(RelationOrNew(t, path, kind), description, now))
      && node.value.detail.freshness == Fetched(now) && node.value.detail.value.Some?
      && var fields, read := node.value.detail.value.value.fields, description.fields[i];
        && |fields| == |description.fields|
        && NestsWithin(fields[i].logical, 31)
        && fields[i].(logical := read.logical) == read
        && (NestsWithin(read.logical, 31) ==> fields[i] == read)
  {
    Nesting.CutIsWithinBound(description.fields[i].logical, 1);
    if Nesting.WithinBound(description.fields[i].logical, 1) {
      Nesting.WithinBoundIsKept(description.fields[i].logical, 1);
    }
  }

  // ---------- runs ----------

  datatype Operation =
    | ServerInfoRead(info: Content)
    | ResolutionPathRead(names: seq<string>)
    | CatalogsListed(infos: seq<CatalogRef>)
    | NamespacesListed(catalog: Option<string>, spaces: seq<NamespaceRef>)
    | RelationsListed(namespace: CatalogPath, relations: seq<RelationRef>)
    | RelationDescribed(path: CatalogPath, kind: nat, description: Description)
    | RelationRead(path: CatalogPath, reading: Reading)
    | Invalidates(scope: CatalogScope)
    | Forgets(scope: CatalogScope)
    | Evicts(scope: CatalogScope)

  predicate ScopeNamed(scope: CatalogScope) {
    scope.ServerScope? || Named(scope.path)
  }

  /** What the types of the arguments guarantee: no level is named by the empty string. */
  ghost predicate WellTyped(op: Operation) {
    match op
    case CatalogsListed(infos) => forall i :: i in infos ==> i.name != MISSING_TIER
    case NamespacesListed(catalog, spaces) => catalog != Some(MISSING_TIER) && forall i :: i in spaces ==>
      i.name != MISSING_TIER
    case RelationsListed(namespace, relations) => Named(namespace) && forall r :: r in relations ==>
      r.name != MISSING_TIER
    case RelationDescribed(path, _, _) => Named(path)
    case RelationRead(path, _) => Named(path)
    case Invalidates(scope) => ScopeNamed(scope)
    case Forgets(scope) => ScopeNamed(scope)
    case Evicts(scope) => ScopeNamed(scope)
    case _ => true
  }

  /** What an operation makes of the tree at instant `now`; a refused one changes nothing. */
  function Applied(t: Tree, op: Operation, now: Instant): Tree
    requires Valid(t)
  {
    match op
    case ServerInfoRead(info) => t.(server := Cached(Fetched(now), Some(info)))
    case ResolutionPathRead(names) => t.(resolutionPath := Cached(Fetched(now), Some(names)))
    case CatalogsListed(infos) => SetCatalogs(t, infos, now)
    case NamespacesListed(catalog, spaces) => SetNamespaces(t, catalog, spaces, now)
    case RelationsListed(namespace, relations) =>
      if namespace.relation.Some? then t else SetRelations(t, namespace, relations, now)
    case RelationDescribed(path, kind, description) =>
      if path.relation.None? then t else SetRelation(t, path, kind, description, now)
    case RelationRead(path, reading) =>
      if reading.ReadDefinition? then Published(t, path, reading.definition, now) else SetReading(t, path, reading, now)
    case Invalidates(scope) => Marked(t, scope)
    case Forgets(scope) => Forgotten(t, scope)
    case Evicts(scope) => Evicted(t, scope)
  }

  lemma RelistIsValid<I, V>(previous: OrderedMap<V>, items: seq<I>, key: I -> string, renew: (I, V) -> V,
                            create: I -> V,
                            ok: (string, V) -> bool)
    requires previous.Valid()
    requires forall i, v :: i in items && ok(key(i), v) ==> ok(key(i), renew(i, v))
    requires forall i :: i in items ==> ok(key(i), create(i))
    requires forall k :: k in previous.values ==> ok(k, previous.values[k])
    ensures var new_ := Relist(previous, items, key, renew, create).1;
      new_.Valid() && forall k :: k in new_.values ==> ok(k, new_.values[k])
    decreases |items|
  {
    if items != [] {
      var before := items[..|items| - 1];
      RelistIsValid(previous, before, key, renew, create, ok);
      RelistLeaves(previous, before, key, renew, create);
    }
  }

  lemma ListingKeepsPlaces(t: Tree, op: Operation, now: Instant)
    requires Valid(t) && WellTyped(op)
    requires op.CatalogsListed? || op.NamespacesListed? || op.RelationsListed?
    ensures Valid(Applied(t, op, now))
  {
    match op
    case CatalogsListed(infos) =>
      var ok := (c: string, n: CatalogNode) => CatalogAtItsPlace(n, c);
      RelistIsValid(t.catalogs.value, infos, (i: CatalogRef) => i.name, RenewCatalog, CreateCatalog, ok);
    case NamespacesListed(catalog, spaces) =>
      OrNewIsValid(t, CatalogPath(catalog, None, None));
      NamespacesRelisted(CatalogOrNew(t, catalog), catalog, spaces, now);
      WithCatalogIsValid(t, catalog, CatalogAt(Applied(t, op, now), catalog).value);
    case RelationsListed(path, relations) =>
      if path.relation.None? {
        OrNewIsValid(t, path);
        RelationsRelisted(NamespaceOrNew(t, path), path, relations, now);
        WithNamespaceIsValid(t, path, NamespaceAt(Applied(t, op, now), path).value);
      }
  }

  lemma NamespacesRelisted(node: CatalogNode, catalog: Option<string>, spaces: seq<NamespaceRef>, now: Instant)
    requires CatalogAtItsPlace(node, MapKey(catalog)) && WellTyped(NamespacesListed(catalog, spaces))
    ensures var renewed := Relist(node.namespaces.value, NamespaceInfos(catalog, spaces), (i: NamespaceRef) => i.name,
                                  RenewNamespace, CreateNamespace).1;
      CatalogAtItsPlace(node.(namespaces := Cached(Fetched(now), renewed)), MapKey(catalog))
  {
    var ok := (k: string, n: NamespaceNode) => NamespaceAtItsPlace(n, MapKey(catalog), k);
    RelistIsValid(node.namespaces.value, NamespaceInfos(catalog, spaces), (i: NamespaceRef) => i.name,
                  RenewNamespace, CreateNamespace, ok);
  }

  lemma RelationsRelisted(node: NamespaceNode, path: CatalogPath, relations: seq<RelationRef>, now: Instant)
    requires path.relation.None? && WellTyped(RelationsListed(path, relations))
    requires NamespaceAtItsPlace(node, MapKey(path.catalog), MapKey(path.namespace))
    ensures var renewed := Relist(node.relations.value, Summaries(path, relations), (r: RelationRef) => r.name,
                                  RenewRelation, NewRelation).1;
      NamespaceAtItsPlace(node.(relations := Cached(Fetched(now), renewed)), MapKey(path.catalog),
        MapKey(path.namespace))
  {
    var items := Summaries(path, relations);
    var ok := (k: string, n: RelationNode) => RelationAtItsPlace(n, MapKey(path.catalog), MapKey(path.namespace), k);
    forall r | r in items ensures r.name != MISSING_TIER && r.parent == path {
      var i :| 0 <= i < |items| && items[i] == r;
      assert relations[i] in relations;
    }
    RelistIsValid(node.relations.value, items, (r: RelationRef) => r.name, RenewRelation, NewRelation, ok);
  }

  lemma MarkedNamespaceIsAtItsPlace(node: NamespaceNode, c: string, n: string)
    requires NamespaceAtItsPlace(node, c, n)
    ensures NamespaceAtItsPlace(node.Invalidate(), c, n)
  {
  }

  lemma MarkedCatalogIsAtItsPlace(node: CatalogNode, c: string)
    requires CatalogAtItsPlace(node, c)
    ensures CatalogAtItsPlace(node.Invalidate(), c)
  {
    forall n | n in node.namespaces.value.values
      ensures NamespaceAtItsPlace(node.namespaces.value.values[n].Invalidate(), c, n) {
      MarkedNamespaceIsAtItsPlace(node.namespaces.value.values[n], c, n);
    }
  }

  lemma InvalidatingKeepsPlaces(t: Tree, scope: CatalogScope)
    requires Valid(t) && ScopeNamed(scope)
    ensures Valid(Marked(t, scope))
  {
    match scope
    case ServerScope =>
      forall c | c in t.catalogs.value.values ensures CatalogAtItsPlace(t.catalogs.value.values[c].Invalidate(), c) {
        MarkedCatalogIsAtItsPlace(t.catalogs.value.values[c], c);
      }
    case CatalogScope(path) =>
      var node := CatalogAt(t, path.catalog);
      if node.Some? {
        MarkedCatalogIsAtItsPlace(node.value, MapKey(path.catalog));
        WithCatalogIsValid(t, path.catalog, node.value.Invalidate());
      }
    case NamespaceScope(path) =>
      var node := NamespaceAt(t, path);
      if node.Some? {
        assert CatalogAtItsPlace(CatalogAt(t, path.catalog).value, MapKey(path.catalog));
        MarkedNamespaceIsAtItsPlace(node.value, MapKey(path.catalog), MapKey(path.namespace));
        WithNamespaceIsValid(t, path, node.value.Invalidate());
      }
    case _ =>
      var node := RelationAt(t, scope.path);
      if node.Some? { RelationChangeIsValid(t, scope.path, Marked(t, scope)); }
  }

  /** Changing what was read of a known relation, and nothing else, keeps every path. */
  lemma RelationChangeIsValid(t: Tree, path: CatalogPath, t': Tree)
    requires Valid(t) && Named(path) && RelationAt(t, path).Some?
    requires exists node: RelationNode ::
      node.summary == RelationAt(t, path).value.summary && t' == WithRelation(t, path, node)
    ensures Valid(t')
  {
    var node: RelationNode :| node.summary == RelationAt(t, path).value.summary && t' == WithRelation(t, path, node);
    WithRelationIsValid(t, path, node);
  }

  lemma ForgettingNamespaceKeepsPlaces(t: Tree, path: CatalogPath)
    requires Valid(t) && Named(path)
    ensures Valid(Forgotten(t, NamespaceScope(path)))
  {
    var parent := CatalogAt(t, path.catalog);
    if parent.Some? {
      WithoutNamespaceIsValid(t, path, parent.value.namespaces.freshness.Invalidate());
    }
  }

  lemma EvictingNamespaceKeepsPlaces(t: Tree, path: CatalogPath)
    requires Valid(t) && Named(path)
    ensures Valid(Evicted(t, NamespaceScope(path)))
  {
    var parent := CatalogAt(t, path.catalog);
    if parent.Some? {
      WithoutNamespaceIsValid(t, path, parent.value.namespaces.freshness);
    }
    var node := NamespaceAt(t, path);
    if node.Some? {
      EmptiedNamespaceIsAtItsPlace(t, path);
      WithNamespaceIsValid(t, path, node.value.(relations := Unlisted()));
    }
  }

  lemma EmptiedNamespaceIsAtItsPlace(t: Tree, path: CatalogPath)
    requires Valid(t) && NamespaceAt(t, path).Some?
    ensures NamespaceAtItsPlace(NamespaceAt(t, path).value.(relations := Unlisted()),
                                MapKey(path.catalog), MapKey(path.namespace))
  {
    assert CatalogAtItsPlace(CatalogAt(t, path.catalog).value, MapKey(path.catalog));
  }

  lemma WithoutNamespaceIsValid(t: Tree, path: CatalogPath, freshness: Freshness)
    requires Valid(t) && CatalogAt(t, path.catalog).Some?
    ensures var parent := CatalogAt(t, path.catalog).value;
      var dropped := parent.namespaces.value.Drop(MapKey(path.namespace));
      Valid(WithCatalog(t, path.catalog, parent.(namespaces := Cached(freshness, dropped))))
  {
    var parent := CatalogAt(t, path.catalog).value;
    DroppedIsAtItsPlace(parent, MapKey(path.catalog), MapKey(path.namespace), freshness);
    WithCatalogIsValid(t, path.catalog,
      parent.(namespaces := Cached(freshness, parent.namespaces.value.Drop(MapKey(path.namespace)))));
  }

  lemma DroppedIsAtItsPlace(node: CatalogNode, c: string, n: string, freshness: Freshness)
    requires CatalogAtItsPlace(node, c)
    ensures CatalogAtItsPlace(node.(namespaces := Cached(freshness, node.namespaces.value.Drop(n))), c)
  {
  }

  lemma ForgettingRelationKeepsPlaces(t: Tree, path: CatalogPath)
    requires Valid(t) && Named(path)
    ensures Valid(Forgotten(t, RelationScope(path)))
  {
    var parent := NamespaceAt(t, path);
    if path.relation.Some? && parent.Some? {
      WithoutRelationIsValid(t, path, parent.value.relations.freshness.Invalidate());
    }
  }

  lemma EvictingRelationKeepsPlaces(t: Tree, path: CatalogPath)
    requires Valid(t) && Named(path)
    ensures Valid(Evicted(t, RelationScope(path)))
  {
    var node := RelationAt(t, path);
    if node.Some? {
      WithoutRelationIsValid(t, path, NamespaceAt(t, path).value.relations.freshness);
      KnownIsAtItsPlace(t, path);
      WithRelationIsValid(t, path, node.value.(detail := Unread(), indexes := Unread(), foreignKeys := Unread()));
    }
  }

  lemma WithoutRelationIsValid(t: Tree, path: CatalogPath, freshness: Freshness)
    requires Valid(t) && NamespaceAt(t, path).Some? && path.relation.Some?
    ensures var parent := NamespaceAt(t, path).value;
      var dropped := parent.relations.value.Drop(path.relation.value);
      Valid(WithNamespace(t, path, parent.(relations := Cached(freshness, dropped))))
  {
    var parent := NamespaceAt(t, path).value;
    assert CatalogAtItsPlace(CatalogAt(t, path.catalog).value, MapKey(path.catalog));
    WithNamespaceIsValid(t, path,
      parent.(relations := Cached(freshness, parent.relations.value.Drop(path.relation.value))));
  }

  lemma DroppingKeepsPlaces(t: Tree, scope: CatalogScope)
    requires Valid(t) && ScopeNamed(scope)
    ensures Valid(Forgotten(t, scope)) && Valid(Evicted(t, scope))
  {
    match scope
    case ServerScope =>
    case CatalogScope(path) =>
      if CatalogAt(t, path.catalog).Some? {
        WithCatalogIsValid(t, path.catalog, CatalogAt(t, path.catalog).value.(namespaces := Unlisted()));
      }
    case NamespaceScope(path) =>
      ForgettingNamespaceKeepsPlaces(t, path);
      EvictingNamespaceKeepsPlaces(t, path);
    case RelationScope(path) =>
      ForgettingRelationKeepsPlaces(t, path);
      EvictingRelationKeepsPlaces(t, path);
    case _ =>
      var node := RelationAt(t, scope.path);
      if node.Some? { RelationChangeIsValid(t, scope.path, Forgotten(t, scope)); }
  }

  lemma ReadingKeepsPlaces(t: Tree, path: CatalogPath, reading: Reading, now: Instant)
    requires Valid(t) && Named(path)
    ensures Valid(Applied(t, RelationRead(path, reading), now))
  {
    if reading.ReadDefinition? {
      PublishedIsValid(t, path, reading.definition, now);
    } else {
      ReadingIsValid(t, path, reading, now);
    }
  }

  lemma StepKeepsPlaces(t: Tree, op: Operation, now: Instant)
    requires Valid(t) && WellTyped(op)
    ensures Valid(Applied(t, op, now))
  {
    match op
    case Invalidates(scope) => InvalidatingKeepsPlaces(t, scope);
    case Forgets(scope) => DroppingKeepsPlaces(t, scope);
    case Evicts(scope) => DroppingKeepsPlaces(t, scope);
    case RelationDescribed(path, kind, description) =>
      if path.relation.Some? {
        OrNewIsValid(t, path);
        WithRelationIsValid(t, path, WithDescription(RelationOrNew(t, path, kind), description, now));
      }
    case RelationRead(path, reading) => ReadingKeepsPlaces(t, path, reading, now);
    case ServerInfoRead(_) =>
    case ResolutionPathRead(_) =>
    case _ => ListingKeepsPlaces(t, op, now);
  }

  /** A run: operations, each with the instant the clock showed (it may go backwards). */
  datatype Event = Event(op: Operation, now: Instant)

  ghost function TreeAfter(run: seq<Event>): (t: Tree)
    requires forall e :: e in run ==> WellTyped(e.op)
    ensures Valid(t)
    decreases |run|
  {
    if run == [] then NEW_TREE
    else
      var before, last := TreeAfter(run[..|run| - 1]), run[|run| - 1];
      StepKeepsPlaces(before, last.op, last.now);
      Applied(before, last.op, last.now)
  }

  /** After any run, a relation found at a path carries that path, so looking a node up by the
      path it carries finds it; so do a namespace and a catalog. */
  lemma NodesAreAtTheirPaths(run: seq<Event>, path: CatalogPath)
    requires (forall e :: e in run ==> WellTyped(e.op)) && Named(path)
    ensures var t := TreeAfter(run);
      && (RelationAt(t, path).Some? ==> RelationAt(t, path).value.summary.Path() == path)
      && (NamespaceAt(t, path).Some? && NamespaceAt(t, path).value.info.Some? ==>
            NamespaceAt(t, path).value.info.value == NamespaceRef(
              CatalogPath(path.catalog, None, None), MapKey(path.namespace),
                NamespaceAt(t, path).value.info.value.isSystem)
            && path.namespace.Some?)
      && (CatalogAt(t, path.catalog).Some? && CatalogAt(t, path.catalog).value.info.Some? ==>
            path.catalog == Some(CatalogAt(t, path.catalog).value.info.value.name))
  {
    var t := TreeAfter(run);
    var c, n := MapKey(path.catalog), MapKey(path.namespace);
    if RelationAt(t, path).Some? {
      SummaryIsPath(t, path);
    }
    if CatalogAt(t, path.catalog).Some? {
      assert CatalogAtItsPlace(t.catalogs.value.values[c], c);
    }
    if NamespaceAt(t, path).Some? {
      assert NamespaceAtItsPlace(NamespaceAt(t, path).value, c, n);
    }
  }

  // ---------- the store of definitions over a run ----------

  function DefinitionIn(relations: OrderedMap<RelationNode>, r: string): Option<RelationDefinition> {
    if r in relations.values then relations.values[r].definition.value else None
  }

  function DefinitionUnder(spaces: OrderedMap<NamespaceNode>, n: string, r: string): Option<RelationDefinition> {
    if n in spaces.values then DefinitionIn(spaces.values[n].relations.value, r) else None
  }

  function DefinitionAt(t: Tree, c: string, n: string, r: string): Option<RelationDefinition> {
    if c in t.catalogs.value.values then DefinitionUnder(t.catalogs.value.values[c].namespaces.value, n, r) else None
  }

  ghost predicate NoneNewIn(relations: OrderedMap<RelationNode>, before: OrderedMap<RelationNode>) {
    forall r :: DefinitionIn(relations, r).Some? ==> DefinitionIn(relations, r) == DefinitionIn(before, r)
  }

  ghost predicate NoneNewUnder(spaces: OrderedMap<NamespaceNode>, before: OrderedMap<NamespaceNode>) {
    forall n, r :: DefinitionUnder(spaces, n, r).Some? ==>
      DefinitionUnder(spaces, n, r) == DefinitionUnder(before, n, r)
  }

  /** Every definition of the new tree was in the old one, at the same place. */
  ghost predicate NoneNew(t': Tree, t: Tree) {
    forall c, n, r :: DefinitionAt(t', c, n, r).Some? ==> DefinitionAt(t', c, n, r) == DefinitionAt(t, c, n, r)
  }

  lemma CatalogBringsNone(t: Tree, catalog: Option<string>, node: CatalogNode)
    requires NoneNewUnder(node.namespaces.value, CatalogOrNew(t, catalog).namespaces.value)
    ensures NoneNew(WithCatalog(t, catalog, node), t)
  {
  }

  lemma NamespaceBringsNone(t: Tree, path: CatalogPath, node: NamespaceNode)
    requires NoneNewIn(node.relations.value, NamespaceOrNew(t, path).relations.value)
    ensures NoneNew(WithNamespace(t, path, node), t)
  {
    var parent := CatalogOrNew(t, path.catalog);
    CatalogBringsNone(t, path.catalog, parent.(namespaces := parent.namespaces.(
      value := parent.namespaces.value.Put(MapKey(path.namespace), node))));
  }

  lemma RelationBringsNone(t: Tree, path: CatalogPath, node: RelationNode)
    requires path.relation.Some?
    requires node.definition.value.Some? ==>
      node.definition.value == DefinitionIn(NamespaceOrNew(t, path).relations.value, path.relation.value)
    ensures NoneNew(WithRelation(t, path, node), t)
  {
    var parent := NamespaceOrNew(t, path);
    NamespaceBringsNone(t, path, parent.(relations := parent.relations.(
      value := parent.relations.value.Put(path.relation.value, node))));
  }

  lemma {:induction false} RelistOrigin<I, V>(previous: OrderedMap<V>, items: seq<I>, key: I -> string,
                                              renew: (I, V) -> V, create: I -> V, k: string) returns (item: I)
    requires previous.Valid() && k in Relist(previous, items, key, renew, create).1.values
    ensures var v := Relist(previous, items, key, renew, create).1.values[k];
      item in items && key(item) == k
        && (v == create(item) || (k in previous.values && v == renew(item, previous.values[k])))
    decreases |items|
  {
    var n := |items| - 1;
    RelistLeaves(previous, items[..n], key, renew, create);
    if key(items[n]) == k {
      item := items[n];
    } else {
      item := RelistOrigin(previous, items[..n], key, renew, create, k);
    }
  }

  lemma ListingBringsNone(t: Tree, op: Operation, now: Instant)
    requires Valid(t) && (op.CatalogsListed? || op.NamespacesListed? || op.RelationsListed?)
    ensures NoneNew(Applied(t, op, now), t)
  {
    match op
    case CatalogsListed(infos) =>
      var level := Relist(t.catalogs.value, infos, (i: CatalogRef) => i.name, RenewCatalog, CreateCatalog).1;
      forall c, n, r | DefinitionAt(Applied(t, op, now), c, n, r).Some?
        ensures DefinitionAt(Applied(t, op, now), c, n, r) == DefinitionAt(t, c, n, r)
      {
        var item := RelistOrigin(t.catalogs.value, infos, (i: CatalogRef) => i.name, RenewCatalog, CreateCatalog, c);
      }
    case NamespacesListed(catalog, spaces) =>
      OrNewIsValid(t, CatalogPath(catalog, None, None));
      var node, items := CatalogOrNew(t, catalog), NamespaceInfos(catalog, spaces);
      var level := Relist(node.namespaces.value, items, (i: NamespaceRef) => i.name, RenewNamespace, CreateNamespace).1;
      forall n, r | DefinitionUnder(level, n, r).Some?
        ensures DefinitionUnder(level, n, r) == DefinitionUnder(node.namespaces.value, n, r)
      {
        var item := RelistOrigin(node.namespaces.value, items, (i: NamespaceRef) => i.name, RenewNamespace,
          CreateNamespace, n);
      }
      CatalogBringsNone(t, catalog, node.(namespaces := Cached(Fetched(now), level)));
    case RelationsListed(path, relations) =>
      if path.relation.None? {
        OrNewIsValid(t, path);
        var node, items := NamespaceOrNew(t, path), Summaries(path, relations);
        var level := Relist(node.relations.value, items, (r: RelationRef) => r.name, RenewRelation, NewRelation).1;
        forall r | DefinitionIn(level, r).Some?
          ensures DefinitionIn(level, r) == DefinitionIn(node.relations.value, r) {
          var item := RelistOrigin(node.relations.value, items, (r: RelationRef) => r.name, RenewRelation, NewRelation,
            r);
        }
        NamespaceBringsNone(t, path, node.(relations := Cached(Fetched(now), level)));
      }
  }

  lemma InvalidatingBringsNone(t: Tree, scope: CatalogScope)
    ensures NoneNew(Marked(t, scope), t)
  {
    match scope
    case ServerScope =>
    case CatalogScope(path) =>
      var node := CatalogAt(t, path.catalog);
      if node.Some? { CatalogBringsNone(t, path.catalog, node.value.Invalidate()); }
    case NamespaceScope(path) =>
      var node := NamespaceAt(t, path);
      if node.Some? { NamespaceBringsNone(t, path, node.value.Invalidate()); }
    case RelationScope(path) =>
      var node := RelationAt(t, path);
      if node.Some? { RelationBringsNone(t, path, node.value.Invalidate()); }
    case ConstraintsScope(path) =>
      var node := RelationAt(t, path);
      if node.Some? { RelationBringsNone(t, path, node.value.(constraints := node.value.constraints.Invalidate())); }
    case IncomingKeysScope(path) =>
      var node := RelationAt(t, path);
      if node.Some? { RelationBringsNone(t, path, node.value.(incomingKeys := node.value.incomingKeys.Invalidate())); }
    case DefinitionScope(path) =>
      var node := RelationAt(t, path);
      if node.Some? { RelationBringsNone(t, path, node.value.(definition := node.value.definition.Invalidate())); }
  }

  lemma ForgettingBringsNone(t: Tree, scope: CatalogScope)
    ensures NoneNew(Forgotten(t, scope), t)
  {
    match scope
    case ServerScope =>
    case CatalogScope(path) =>
    case NamespaceScope(path) =>
      var node := CatalogAt(t, path.catalog);
      if node.Some? {
        CatalogBringsNone(t, path.catalog, node.value.(namespaces :=
          Cached(node.value.namespaces.freshness.Invalidate(),
            node.value.namespaces.value.Drop(MapKey(path.namespace)))));
      }
    case RelationScope(path) =>
      var node := NamespaceAt(t, path);
      if path.relation.Some? && node.Some? {
        NamespaceBringsNone(t, path, node.value.(relations :=
          Cached(node.value.relations.freshness.Invalidate(), node.value.relations.value.Drop(path.relation.value))));
      }
    case ConstraintsScope(path) =>
      var node := RelationAt(t, path);
      if node.Some? { RelationBringsNone(t, path, node.value.(constraints := Unread())); }
    case IncomingKeysScope(path) =>
      var node := RelationAt(t, path);
      if node.Some? { RelationBringsNone(t, path, node.value.(incomingKeys := Unread())); }
    case DefinitionScope(path) =>
      var node := RelationAt(t, path);
      if node.Some? { RelationBringsNone(t, path, node.value.(definition := Unread())); }
  }

  lemma EvictingBringsNone(t: Tree, scope: CatalogScope)
    ensures NoneNew(Evicted(t, scope), t)
  {
    match scope
    case ServerScope =>
    case CatalogScope(path) =>
      var node := CatalogAt(t, path.catalog);
      if node.Some? { CatalogBringsNone(t, path.catalog, node.value.(namespaces := Unlisted())); }
    case NamespaceScope(path) =>
      var parent := CatalogAt(t, path.catalog);
      if parent.Some? {
        CatalogBringsNone(t, path.catalog, parent.value.(namespaces :=
          parent.value.namespaces.(value := parent.value.namespaces.value.Drop(MapKey(path.namespace)))));
      }
      if NamespaceAt(t, path).Some? {
        NamespaceBringsNone(t, path, NamespaceAt(t, path).value.(relations := Unlisted()));
      }
    case RelationScope(path) =>
      var parent := NamespaceAt(t, path);
      var node := RelationAt(t, path);
      if node.Some? {
        NamespaceBringsNone(t, path, parent.value.(relations :=
          parent.value.relations.(value := parent.value.relations.value.Drop(path.relation.value))));
        RelationBringsNone(t, path, node.value.(detail := Unread(), indexes := Unread(), foreignKeys := Unread()));
      }
    case _ => ForgettingBringsNone(t, scope);
  }

  lemma DescribingBringsNone(t: Tree, path: CatalogPath, kind: nat, description: Description, now: Instant)
    requires path.relation.Some?
    ensures NoneNew(SetRelation(t, path, kind, description, now), t)
  {
    if RelationAt(t, path).Some? { KnownDefinition(t, path); }
    RelationBringsNone(t, path, WithDescription(RelationOrNew(t, path, kind), description, now));
  }

  lemma ReadingBringsNone(t: Tree, path: CatalogPath, reading: Reading, now: Instant)
    requires Valid(t) && !reading.ReadDefinition?
    ensures NoneNew(SetReading(t, path, reading, now), t)
  {
    var node := RelationAt(t, path);
    if node.Some? {
      KnownDefinition(t, path);
      ReadingLeavesDefinition(node.value, reading, now);
      RelationBringsNone(t, path, WithReading(node.value, reading, now));
    }
  }

  lemma KnownDefinition(t: Tree, path: CatalogPath)
    requires RelationAt(t, path).Some?
    ensures path.relation.Some?
    ensures DefinitionIn(NamespaceOrNew(t, path).relations.value, path.relation.value)
         == RelationAt(t, path).value.definition.value
  {
  }

  lemma ReadingLeavesDefinition(node: RelationNode, reading: Reading, now: Instant)
    requires !reading.ReadDefinition?
    ensures WithReading(node, reading, now).definition == node.definition
  {
  }

  /** No operation but publishing a definition makes one appear or changes its text. */
  lemma OthersBringNone(t: Tree, op: Operation, now: Instant)
    requires Valid(t) && !(op.RelationRead? && op.reading.ReadDefinition?)
    ensures NoneNew(Applied(t, op, now), t)
  {
    match op
    case Invalidates(scope) => InvalidatingBringsNone(t, scope);
    case Forgets(scope) => ForgettingBringsNone(t, scope);
    case Evicts(scope) => EvictingBringsNone(t, scope);
    case RelationDescribed(path, kind, description) =>
      if path.relation.Some? { DescribingBringsNone(t, path, kind, description, now); }
    case RelationRead(path, reading) => ReadingBringsNone(t, path, reading, now);
    case ServerInfoRead(_) =>
    case ResolutionPathRead(_) =>
    case _ => ListingBringsNone(t, op, now);
  }

  function ExactBytes(held: seq<Held>): nat {
    if held == [] then 0 else ExactBytes(held[..|held| - 1]) + held[|held| - 1].bytes
  }

  lemma {:induction false} SaturationIsExact(held: seq<Held>)
    ensures TotalBytes(held) == if ExactBytes(held) > USIZE_MAX then USIZE_MAX else ExactBytes(held)
    decreases |held|
  {
    if held != [] {
      SaturationIsExact(held[..|held| - 1]);
    }
  }

  lemma {:induction false} ExactWithout(held: seq<Held>, i: nat)
    requires i < |held|
    ensures ExactBytes(held) == ExactBytes(held[..i] + held[i + 1..]) + held[i].bytes
    decreases |held|
  {
    var n := |held| - 1;
    var without := held[..i] + held[i + 1..];
    if i == n {
      assert without == held[..n];
    } else {
      assert without[..n - 1] == held[..n][..i] + held[..n][i + 1..];
      ExactWithout(held[..n], i);
    }
  }

  ghost predicate HasLike(xs: seq<Held>, y: Held) {
    exists i :: 0 <= i < |xs| && xs[i].path == y.path && xs[i].bytes == y.bytes
  }

  lemma {:induction false} FewerAndSmaller(ys: seq<Held>, xs: seq<Held>)
    requires forall i, j :: 0 <= i < j < |ys| ==> ys[i].path != ys[j].path
    requires forall i :: 0 <= i < |ys| ==> HasLike(xs, ys[i])
    ensures |ys| <= |xs| && ExactBytes(ys) <= ExactBytes(xs)
    decreases |ys|
  {
    if ys != [] {
      var n := |ys| - 1;
      var i :| 0 <= i < |xs| && xs[i].path == ys[n].path && xs[i].bytes == ys[n].bytes;
      var rest := xs[..i] + xs[i + 1..];
      forall j | 0 <= j < n ensures HasLike(rest, ys[..n][j]) {
        assert HasLike(xs, ys[j]);
        var k :| 0 <= k < |xs| && xs[k].path == ys[j].path && xs[k].bytes == ys[j].bytes;
        assert k != i;
        assert rest[if k < i then k else k - 1] == xs[k];
      }
      FewerAndSmaller(ys[..n], rest);
      ExactWithout(xs, i);
    }
  }

  lemma OneLikeIt(t': Tree, t: Tree, h: Held)
    requires Valid(t') && Valid(t) && NoneNew(t', t) && h in HeldIn(t')
    ensures HasLike(HeldIn(t), h)
  {
    HeldIsAt(t', h);
    var c, n, r := MapKey(h.path.catalog), MapKey(h.path.namespace), h.path.relation.value;
    assert DefinitionAt(t', c, n, r).Some?;
    SummaryIsPath(t', h.path);
    SummaryIsPath(t, h.path);
    var like := HeldBy(RelationAt(t, h.path).value)[0];
    AtIsHeld(t, like);
    var i :| 0 <= i < |HeldIn(t)| && HeldIn(t)[i] == like;
  }

  lemma FewerHeld(t': Tree, t: Tree)
    requires Valid(t') && Valid(t) && NoneNew(t', t)
    ensures |HeldIn(t')| <= |HeldIn(t)| && TotalBytes(HeldIn(t')) <= TotalBytes(HeldIn(t))
  {
    var ys := HeldIn(t');
    HeldOnce(t');
    forall i | 0 <= i < |ys| ensures HasLike(HeldIn(t), ys[i]) {
      OneLikeIt(t', t, ys[i]);
    }
    forall i, j | 0 <= i < j < |ys| ensures ys[i].path != ys[j].path {
      assert ys[i] in ys && ys[j] in ys;
    }
    FewerAndSmaller(ys, HeldIn(t));
    SaturationIsExact(ys);
    SaturationIsExact(HeldIn(t));
  }

  predicate PublishesValidated(op: Operation) {
    op.RelationRead? && op.reading.ReadDefinition? ==> Validated(op.reading.definition)
  }

  lemma StoreStepBounded(t: Tree, op: Operation, now: Instant)
    requires Valid(t) && WellTyped(op) && PublishesValidated(op) && WithinLimits(HeldIn(t))
    ensures WithinLimits(HeldIn(Applied(t, op, now)))
  {
    if op.RelationRead? && op.reading.ReadDefinition? {
      if RelationAt(t, op.path).Some? {
        ValidatedAlwaysFits(t, op.path, op.reading.definition, now);
      }
    } else {
      StepKeepsPlaces(t, op, now);
      OthersBringNone(t, op, now);
      FewerHeld(Applied(t, op, now), t);
    }
  }

  /** Over every run in which the definitions published were validated, the store holds at
      most 16 of them and at most 16 MiB, whatever else was listed, read, invalidated,
      forgotten or evicted in between. */
  lemma {:induction false} StoreStaysBounded(run: seq<Event>)
    requires forall e :: e in run ==> WellTyped(e.op) && PublishesValidated(e.op)
    ensures |HeldIn(TreeAfter(run))| <= 16 && TotalBytes(HeldIn(TreeAfter(run))) <= 16_777_216
    decreases |run|
  {
    if run == [] {
      assert HeldIn(NEW_TREE) == [];
    } else {
      var last := run[|run| - 1];
      assert last in run;
      StoreStaysBounded(run[..|run| - 1]);
      StoreStepBounded(TreeAfter(run[..|run| - 1]), last.op, last.now);
    }
  }
}
