/** The cache of a connection's metadata, updated in place.

    Each method is tied to what it makes of the tree; CatalogLaws, CatalogStaleness and
    CatalogDefinitions say what those trees satisfy.
  */
module Cache {
  import opened Machine
  import opened Options
  import opened OrderedMaps
  import opened Paths
  import Nesting
  import opened CatalogTree
  import opened CatalogStaleness
  import opened CatalogDefinitions
  import opened CatalogLaws

  class CatalogCache {
    var server: Cached<Option<Content>>
    var catalogs: Cached<OrderedMap<CatalogNode>>
    var resolutionPath: Cached<Option<seq<string>>>

    constructor ()
      ensures Contents() == NEW_TREE
    {
      server, catalogs, resolutionPath := Unread(), Unlisted(), Unread();
    }

    function Contents(): Tree
      reads this
    {
      Tree(server, catalogs, resolutionPath)
    }

    /** Every node is at the place its path names. */
    ghost predicate AtTheirPlaces()
      reads this
    {
      Valid(Contents())
    }

    method SetServerInfo(info: Content, now: Instant)
      requires AtTheirPlaces()
      modifies this
      ensures AtTheirPlaces() && Contents() == Applied(old(Contents()), ServerInfoRead(info), now)
    {
      server := Cached(Fetched(now), Some(info));
    }

    method SetResolutionPath(names: seq<string>, now: Instant)
      requires AtTheirPlaces()
      modifies this
      ensures AtTheirPlaces() && Contents() == Applied(old(Contents()), ResolutionPathRead(names), now)
    {
      resolutionPath := Cached(Fetched(now), Some(names));
    }

    /** The listing decides which catalogs there are; what was read under a listed one stays. */
    method SetCatalogs(infos: seq<CatalogRef>, now: Instant)
      requires AtTheirPlaces() && WellTyped(CatalogsListed(infos))
      modifies this
      ensures AtTheirPlaces() && Contents() == Applied(old(Contents()), CatalogsListed(infos), now)
    {
      StepKeepsPlaces(Contents(), CatalogsListed(infos), now);
      var previous, level := catalogs.value, Empty<CatalogNode>();
      ghost var key := (i: CatalogRef) => i.name;
      for i := 0 to |infos|
        invariant (previous, level) == Relist(old(catalogs.value), infos[..i], key, RenewCatalog, CreateCatalog)
        invariant Contents() == old(Contents())
      {
        assert infos[..i + 1][..i] == infos[..i];
        var info := infos[i];
        var node;
        if info.name in previous.values {
          node := previous.values[info.name].(info := Some(info));
        } else {
          node := CatalogNode(Some(info), Unlisted());
        }
        previous, level := previous.Drop(info.name), level.Put(info.name, node);
      }
      assert infos[..|infos|] == infos;
      catalogs := Cached(Fetched(now), level);
    }

    /** As for the catalogs, one level down; the names are placed under this catalog, held or not. */
    method SetNamespaces(catalog: Option<string>, spaces: seq<NamespaceRef>, now: Instant)
      requires AtTheirPlaces() && WellTyped(NamespacesListed(catalog, spaces))
      modifies this
      ensures AtTheirPlaces() && Contents() == Applied(old(Contents()), NamespacesListed(catalog, spaces), now)
    {
      StepKeepsPlaces(Contents(), NamespacesListed(catalog, spaces), now);
      var node := CatalogOrNew(Contents(), catalog);
      var level := RelistNamespaces(node.namespaces.value, catalog, spaces);
      node := node.(namespaces := Cached(Fetched(now), level));
      catalogs := catalogs.(value := catalogs.value.Put(MapKey(catalog), node));
    }

    static method RelistNamespaces(known: OrderedMap<NamespaceNode>, catalog: Option<string>, spaces: seq<NamespaceRef>)
      returns (level: OrderedMap<NamespaceNode>)
      ensures level == Relist(known, NamespaceInfos(catalog, spaces), (i: NamespaceRef) => i.name, RenewNamespace,
        CreateNamespace).1
    {
      var previous;
      previous, level := known, Empty<NamespaceNode>();
      ghost var items, key := NamespaceInfos(catalog, spaces), (i: NamespaceRef) => i.name;
      for i := 0 to |spaces|
        invariant (previous, level) == Relist(known, items[..i], key, RenewNamespace, CreateNamespace)
      {
        RelistStep(known, items, key, RenewNamespace, CreateNamespace, i);
        var info := spaces[i].(parent := CatalogPath(catalog, None, None));
        var child;
        if info.name in previous.values {
          child := previous.values[info.name].(info := Some(info));
        } else {
          child := NamespaceNode(Some(info), Unlisted());
        }
        previous, level := previous.Drop(info.name), level.Put(info.name, child);
      }
      assert items[..|spaces|] == items;
    }

    /** As for the catalogs, two levels down; a path that goes to a relation is refused. */
    method SetRelations(namespace: CatalogPath, relations: seq<RelationRef>, now: Instant)
      returns (r: Result<(), CacheError>)
      requires AtTheirPlaces() && WellTyped(RelationsListed(namespace, relations))
      modifies this
      ensures AtTheirPlaces() && Contents() == Applied(old(Contents()), RelationsListed(namespace, relations), now)
      ensures r == if namespace.relation.Some? then Err(NotANamespace) else Ok(())
    {
      if namespace.relation.Some? {
        return Err(NotANamespace);
      }
      StepKeepsPlaces(Contents(), RelationsListed(namespace, relations), now);
      var node := NamespaceOrNew(Contents(), namespace);
      var level := RelistRelations(node.relations.value, namespace, relations);
      PutNamespace(namespace, node.(relations := Cached(Fetched(now), level)));
      return Ok(());
    }

    static method RelistRelations(known: OrderedMap<RelationNode>, namespace: CatalogPath, relations: seq<RelationRef>)
      returns (level: OrderedMap<RelationNode>)
      ensures level
        == Relist(known, Summaries(namespace, relations), (s: RelationRef) => s.name, RenewRelation, NewRelation).1
    {
      var previous := known;
      level := Empty();
      ghost var items, key := Summaries(namespace, relations), (s: RelationRef) => s.name;
      for i := 0 to |relations|
        invariant (previous, level) == Relist(known, items[..i], key, RenewRelation, NewRelation)
      {
        RelistStep(known, items, key, RenewRelation, NewRelation, i);
        var summary := relations[i].(parent := namespace);
        var child;
        if summary.name in previous.values {
          child := previous.values[summary.name].(summary := summary);
        } else {
          child := NewRelation(summary);
        }
        previous, level := previous.Drop(summary.name), level.Put(summary.name, child);
      }
      assert items[..|relations|] == items;
    }

    method PutNamespace(path: CatalogPath, node: NamespaceNode)
      modifies this
      ensures Contents() == WithNamespace(old(Contents()), path, node)
    {
      var parent := CatalogOrNew(Contents(), path.catalog);
      parent := parent.(namespaces := parent.namespaces.(
        value := parent.namespaces.value.Put(MapKey(path.namespace), node)));
      catalogs := catalogs.(value := catalogs.value.Put(MapKey(path.catalog), parent));
    }

    method PutRelation(path: CatalogPath, node: RelationNode)
      requires path.relation.Some?
      modifies this
      ensures Contents() == WithRelation(old(Contents()), path, node)
    {
      var parent := NamespaceOrNew(Contents(), path);
      PutNamespace(path,
        parent.(relations := parent.relations.(value := parent.relations.value.Put(path.relation.value, node))));
    }

    /** Missing levels, and the relation itself, are created. */
    method SetRelation(path: CatalogPath, kind: nat, description: Description, now: Instant)
      returns (r: Result<(), CacheError>)
      requires AtTheirPlaces() && WellTyped(RelationDescribed(path, kind, description))
      modifies this
      ensures AtTheirPlaces() && Contents() == Applied(old(Contents()), RelationDescribed(path, kind, description), now)
      ensures r == if path.relation.None? then Err(NotARelation) else Ok(())
    {
      var bounded, cuts, dropped := Nesting.Bound(description.fields);
      if path.relation.None? {
        return Err(NotARelation);
      }
      StepKeepsPlaces(Contents(), RelationDescribed(path, kind, description), now);
      var node := RelationOrNew(Contents(), path, kind);
      assert bounded == description.Bounded().fields;
      PutRelation(path, node.(detail := Cached(Fetched(now), Some(description.(fields := bounded)))));
      return Ok(());
    }

    /** Records indexes, keys, constraints or a definition of a relation already known. */
    method SetReading(path: CatalogPath, reading: Reading, now: Instant) returns (r: Result<(), CacheError>)
      requires AtTheirPlaces() && WellTyped(RelationRead(path, reading))
      modifies this
      ensures AtTheirPlaces() && Contents() == Applied(old(Contents()), RelationRead(path, reading), now)
      ensures r == if path.relation.None? then Err(NotARelation)
                   else if RelationAt(old(Contents()), path).None? then Err(UnknownRelation) else Ok(())
    {
      if path.relation.None? {
        return Err(NotARelation);
      }
      var node := RelationAt(Contents(), path);
      if node.None? {
        return Err(UnknownRelation);
      }
      StepKeepsPlaces(Contents(), RelationRead(path, reading), now);
      if reading.ReadDefinition? {
        ReadingIsValid(Contents(), path, ReadDefinition(reading.definition), now);
        PutRelation(path, node.value.(definition := Cached(Fetched(now), Some(reading.definition))));
        EvictDefinitions(path);
      } else {
        PutRelation(path, WithReading(node.value, reading, now));
      }
      return Ok(());
    }

    static ghost predicate Tallied(held: seq<Held>, count: nat, bytes: nat) {
      count == |held| && bytes == TotalBytes(held)
    }

    /** Collects what is held, in the order of the walk. */
    method CollectDefinitions() returns (held: seq<Held>, count: nat, bytes: nat)
      requires AtTheirPlaces()
      ensures held == HeldIn(Contents()) && Tallied(held, count, bytes)
    {
      held, count, bytes := [], 0, 0;
      var listed := catalogs.value;
      for i := 0 to |listed.keys|
        invariant held == Flat(listed.keys[..i], CatalogHeld(listed))
        invariant Tallied(held, count, bytes)
      {
        var c := listed.keys[i];
        CatalogIsWalkable(listed.values[c], c);
        FlatStep(listed.keys, CatalogHeld(listed), i);
        held, count, bytes := CollectNamespaces(listed.values[c].namespaces.value, held, count, bytes);
      }
      assert listed.keys[..|listed.keys|] == listed.keys;
    }

    static lemma CatalogIsWalkable(node: CatalogNode, c: string)
      requires CatalogAtItsPlace(node, c)
      ensures var spaces := node.namespaces.value;
        spaces.Walkable() && forall i :: 0 <= i < |spaces.keys| ==>
          spaces.values[spaces.keys[i]].relations.value.Walkable()
    {
      var spaces := node.namespaces.value;
      forall i | 0 <= i < |spaces.keys| ensures spaces.values[spaces.keys[i]].relations.value.Walkable() {
        assert NamespaceAtItsPlace(spaces.values[spaces.keys[i]], c, spaces.keys[i]);
      }
    }

    static method CollectNamespaces(spaces: OrderedMap<NamespaceNode>, before: seq<Held>, count0: nat, bytes0: nat)
      returns (held: seq<Held>, count: nat, bytes: nat)
      requires spaces.Walkable() && Tallied(before, count0, bytes0)
      requires forall i :: 0 <= i < |spaces.keys| ==> spaces.values[spaces.keys[i]].relations.value.Walkable()
      ensures held == before + Flat(spaces.keys, NamespaceHeld(spaces)) && Tallied(held, count, bytes)
    {
      held, count, bytes := before, count0, bytes0;
      ghost var f := NamespaceHeld(spaces);
      for j := 0 to |spaces.keys|
        invariant held == before + Flat(spaces.keys[..j], f) && Tallied(held, count, bytes)
      {
        var relations := spaces.values[spaces.keys[j]].relations.value;
        ghost var walked := held;
        held, count, bytes := CollectRelations(relations, held, count, bytes);
        AppendNamespace(spaces, j, before, walked, held);
      }
      assert spaces.keys[..|spaces.keys|] == spaces.keys;
    }

    static lemma AppendNamespace(spaces: OrderedMap<NamespaceNode>, j: nat, before: seq<Held>, walked: seq<Held>,
                                 held: seq<Held>)
      requires j < |spaces.keys| && spaces.keys[j] in spaces.values
      requires walked == before + Flat(spaces.keys[..j], NamespaceHeld(spaces))
      requires var relations := spaces.values[spaces.keys[j]].relations.value;
        held == walked + Flat(relations.keys, RelationHeld(relations))
      ensures held == before + Flat(spaces.keys[..j + 1], NamespaceHeld(spaces))
    {
      FlatStep(spaces.keys, NamespaceHeld(spaces), j);
    }

    static method CollectRelations(relations: OrderedMap<RelationNode>, before: seq<Held>, count0: nat, bytes0: nat)
      returns (held: seq<Held>, count: nat, bytes: nat)
      requires relations.Walkable() && Tallied(before, count0, bytes0)
      ensures held == before + Flat(relations.keys, RelationHeld(relations)) && Tallied(held, count, bytes)
    {
      held, count, bytes := before, count0, bytes0;
      ghost var f := RelationHeld(relations);
      for k := 0 to |relations.keys|
        invariant held == before + Flat(relations.keys[..k], f) && Tallied(held, count, bytes)
      {
        FlatStep(relations.keys, f, k);
        ghost var walked := Flat(relations.keys[..k], f);
        held, count, bytes := CollectRelation(relations.values[relations.keys[k]], held, count, bytes);
        assert before + walked + f(relations.keys[k]) == before + (walked + f(relations.keys[k]));
      }
      assert relations.keys[..|relations.keys|] == relations.keys;
    }

    static method CollectRelation(node: RelationNode, before: seq<Held>, count0: nat, bytes0: nat)
      returns (held: seq<Held>, count: nat, bytes: nat)
      requires Tallied(before, count0, bytes0)
      ensures held == before + HeldBy(node) && Tallied(held, count, bytes)
    {
      held, count, bytes := before, count0, bytes0;
      if node.definition.value.Some? {
        var size := DefinitionBytes(node.definition.value.value);
        held := held + [Held(node.summary.Path(), node.definition.freshness.FetchedAt(), size)];
        assert held[..|before|] == before;
        count, bytes := count + 1, SaturatingAdd(bytes, size);
      }
    }

    /** Forgets definitions, oldest first and never the protected one, until both limits hold. */
    method EvictDefinitions(protected: CatalogPath)
      requires AtTheirPlaces()
      modifies this
      ensures AtTheirPlaces() && Contents() == Trimmed(old(Contents()), protected)
    {
      while true
        invariant AtTheirPlaces() && Trimmed(Contents(), protected) == Trimmed(old(Contents()), protected)
        decreases |HeldIn(Contents())|
      {
        var candidates, count, bytes := CollectDefinitions();
        if count <= MAX_DEFINITIONS && bytes <= MAX_DEFINITION_BYTES {
          return;
        }
        var oldest := Oldest(candidates, protected);
        if oldest.None? {
          return;
        }
        HeldIsAt(Contents(), oldest.value);
        DroppingRemoves(Contents(), oldest.value);
        DroppingIsValid(Contents(), oldest.value.path);
        var node := RelationAt(Contents(), oldest.value.path);
        if node.None? {
          return;
        }
        PutRelation(oldest.value.path, node.value.(definition := Unread()));
      }
    }

    // ---------- staleness ----------

    /** The subtrees to reread, without one that another covers. */
    method StaleAt(now: Instant, ttl: Lifetime) returns (stale: seq<CatalogScope>)
      requires AtTheirPlaces()
      ensures stale == StaleScopes(Contents(), now, ttl)
    {
      if server.freshness.StaleAt(now, ttl) || catalogs.freshness.StaleAt(now, ttl) {
        return [ServerScope];
      }
      stale := [];
      var listed := catalogs.value;
      for i := 0 to |listed.keys|
        invariant stale == Flat(listed.keys[..i], ScopesOfCatalog(listed, now, ttl))
      {
        var c := listed.keys[i];
        assert listed.keys[..i + 1][..i] == listed.keys[..i];
        assert CatalogAtItsPlace(listed.values[c], c);
        var node := listed.values[c];
        if node.namespaces.freshness.StaleAt(now, ttl) {
          stale := stale + [CatalogScope(CatalogPath(FromKey(c), None, None))];
        } else {
          var below := StaleInCatalog(c, node, now, ttl);
          stale := stale + below;
        }
      }
      assert listed.keys[..|listed.keys|] == listed.keys;
    }

    static method StaleInCatalog(c: string, node: CatalogNode, now: Instant, ttl: Lifetime)
      returns (stale: seq<CatalogScope>)
      requires CatalogAtItsPlace(node, c)
      ensures stale == Flat(node.namespaces.value.keys, ScopesOfNamespace(c, node.namespaces.value, now, ttl))
    {
      stale := [];
      var spaces := node.namespaces.value;
      for j := 0 to |spaces.keys|
        invariant stale == Flat(spaces.keys[..j], ScopesOfNamespace(c, spaces, now, ttl))
      {
        var n := spaces.keys[j];
        FlatStep(spaces.keys, ScopesOfNamespace(c, spaces, now, ttl), j);
        assert NamespaceAtItsPlace(spaces.values[n], c, n);
        if spaces.values[n].relations.freshness.StaleAt(now, ttl) {
          stale := stale + [NamespaceScope(CatalogPath(FromKey(c), FromKey(n), None))];
        } else {
          var below := StaleInNamespace(spaces.values[n].relations.value, now, ttl);
          stale := stale + below;
        }
      }
      assert spaces.keys[..|spaces.keys|] == spaces.keys;
    }

    static method StaleInNamespace(relations: OrderedMap<RelationNode>, now: Instant, ttl: Lifetime)
      returns (stale: seq<CatalogScope>)
      requires relations.Valid()
      ensures stale == Flat(relations.keys, ScopesOfRelation(relations, now, ttl))
    {
      stale := [];
      for k := 0 to |relations.keys|
        invariant stale == Flat(relations.keys[..k], ScopesOfRelation(relations, now, ttl))
      {
        FlatStep(relations.keys, ScopesOfRelation(relations, now, ttl), k);
        var below := StaleInRelation(relations.values[relations.keys[k]], now, ttl);
        stale := stale + below;
      }
      assert relations.keys[..|relations.keys|] == relations.keys;
    }

    static method StaleInRelation(node: RelationNode, now: Instant, ttl: Lifetime) returns (stale: seq<CatalogScope>)
      ensures stale == RelationScopes(node, now, ttl)
    {
      stale := [];
      if node.StaleAt(now, ttl) {
        stale := stale + [RelationScope(node.summary.Path())];
      } else {
        if node.constraints.freshness.StaleAt(now, ttl) {
          stale := stale + [ConstraintsScope(node.summary.Path())];
        }
        if node.incomingKeys.freshness.StaleAt(now, ttl) {
          stale := stale + [IncomingKeysScope(node.summary.Path())];
        }
        if node.definition.freshness.StaleAt(now, ttl) {
          stale := stale + [DefinitionScope(node.summary.Path())];
        }
      }
    }

    // ---------- invalidating, forgetting, evicting ----------

    /** Makes everything read in a subtree stale; the values stay readable. */
    method Invalidate(scope: CatalogScope)
      requires AtTheirPlaces() && ScopeNamed(scope)
      modifies this
      ensures AtTheirPlaces() && Contents() == Marked(old(Contents()), scope)
    {
      InvalidatingKeepsPlaces(Contents(), scope);
      match scope {
        case ServerScope =>
          InvalidateServer();
        case CatalogScope(path) =>
          var node := CatalogAt(Contents(), path.catalog);
          if node.Some? {
            var marked := InvalidateCatalog(node.value);
            catalogs := catalogs.(value := catalogs.value.Put(MapKey(path.catalog), marked));
          }
        case NamespaceScope(path) =>
          var node := NamespaceAt(Contents(), path);
          if node.Some? {
            var marked := InvalidateNamespace(node.value);
            PutNamespace(path, marked);
          }
        case RelationScope(path) =>
          var node := RelationAt(Contents(), path);
          if node.Some? { PutRelation(path, node.value.Invalidate()); }
        case ConstraintsScope(path) =>
          var node := RelationAt(Contents(), path);
          if node.Some? { PutRelation(path, node.value.(constraints := node.value.constraints.Invalidate())); }
        case IncomingKeysScope(path) =>
          var node := RelationAt(Contents(), path);
          if node.Some? { PutRelation(path, node.value.(incomingKeys := node.value.incomingKeys.Invalidate())); }
        case DefinitionScope(path) =>
          var node := RelationAt(Contents(), path);
          if node.Some? { PutRelation(path, node.value.(definition := node.value.definition.Invalidate())); }
      }
    }

    method InvalidateServer()
      requires AtTheirPlaces()
      modifies this
      ensures Contents() == Marked(old(Contents()), ServerScope)
    {
      server := server.Invalidate();
      resolutionPath := resolutionPath.Invalidate();
      forall c | c in catalogs.value.values ensures WalkableCatalog(catalogs.value.values[c]) {
        assert CatalogAtItsPlace(catalogs.value.values[c], c);
      }
      var marked := InvalidateCatalogs(catalogs.value);
      catalogs := Cached(catalogs.freshness.Invalidate(), marked);
    }

    /** The orders of the keys below a catalog are the orders of its nodes. */
    static ghost predicate WalkableCatalog(node: CatalogNode) {
      node.namespaces.value.Valid()
      && forall n :: n in node.namespaces.value.values ==> node.namespaces.value.values[n].relations.value.Valid()
    }

    static method InvalidateCatalogs(known: OrderedMap<CatalogNode>) returns (marked: OrderedMap<CatalogNode>)
      requires known.Valid() && forall c :: c in known.values ==> WalkableCatalog(known.values[c])
      ensures marked == known.Mapped((c: CatalogNode) => c.Invalidate())
    {
      ghost var f := (c: CatalogNode) => c.Invalidate();
      var keys, values := known.keys, known.values;
      for i := 0 to |keys|
        invariant MappedUpTo(known, values, f, i)
      {
        MappedNext(known, values, f, i);
        var node := InvalidateCatalog(values[keys[i]]);
        values := values[keys[i] := node];
      }
      MappedAll(known, values, f);
      marked := OrderedMap(keys, values);
    }

    static method InvalidateCatalog(node: CatalogNode) returns (marked: CatalogNode)
      requires WalkableCatalog(node)
      ensures marked == node.Invalidate()
    {
      ghost var f := (n: NamespaceNode) => n.Invalidate();
      ghost var known := node.namespaces.value;
      var keys, values := node.namespaces.value.keys, node.namespaces.value.values;
      for i := 0 to |keys|
        invariant MappedUpTo(known, values, f, i)
      {
        MappedNext(known, values, f, i);
        var space := InvalidateNamespace(values[keys[i]]);
        values := values[keys[i] := space];
      }
      MappedAll(known, values, f);
      marked := node.(namespaces := Cached(node.namespaces.freshness.Invalidate(), OrderedMap(keys, values)));
    }

    static method InvalidateNamespace(node: NamespaceNode) returns (marked: NamespaceNode)
      requires node.relations.value.Valid()
      ensures marked == node.Invalidate()
    {
      ghost var f := (r: RelationNode) => r.Invalidate();
      ghost var known := node.relations.value;
      var keys, values := node.relations.value.keys, node.relations.value.values;
      for i := 0 to |keys|
        invariant MappedUpTo(known, values, f, i)
      {
        MappedNext(known, values, f, i);
        values := values[keys[i] := values[keys[i]].Invalidate()];
      }
      MappedAll(known, values, f);
      marked := node.(relations := Cached(node.relations.freshness.Invalidate(), OrderedMap(keys, values)));
    }

    /** Takes a subtree out of the tree, and makes the listing that named it stale. */
    method Forget(scope: CatalogScope)
      requires AtTheirPlaces() && ScopeNamed(scope)
      modifies this
      ensures AtTheirPlaces() && Contents() == Forgotten(old(Contents()), scope)
    {
      DroppingKeepsPlaces(Contents(), scope);
      match scope {
        case ServerScope =>
          server, catalogs, resolutionPath := Unread(), Unlisted(), Unread();
        case CatalogScope(path) =>
          catalogs := Cached(catalogs.freshness.Invalidate(), catalogs.value.Drop(MapKey(path.catalog)));
        case NamespaceScope(path) =>
          var node := CatalogAt(Contents(), path.catalog);
          if node.Some? {
            var spaces := node.value.namespaces;
            var left := Cached(spaces.freshness.Invalidate(), spaces.value.Drop(MapKey(path.namespace)));
            catalogs := catalogs.(value := catalogs.value.Put(MapKey(path.catalog), node.value.(namespaces := left)));
          }
        case RelationScope(path) =>
          if path.relation.None? {
            return;
          }
          var node := NamespaceAt(Contents(), path);
          if node.Some? {
            var relations := node.value.relations;
            var left := Cached(relations.freshness.Invalidate(), relations.value.Drop(path.relation.value));
            PutNamespace(path, node.value.(relations := left));
          }
        case ConstraintsScope(path) =>
          var node := RelationAt(Contents(), path);
          if node.Some? { PutRelation(path, node.value.(constraints := Unread())); }
        case IncomingKeysScope(path) =>
          var node := RelationAt(Contents(), path);
          if node.Some? { PutRelation(path, node.value.(incomingKeys := Unread())); }
        case DefinitionScope(path) =>
          var node := RelationAt(Contents(), path);
          if node.Some? { PutRelation(path, node.value.(definition := Unread())); }
      }
    }

    /** Empties a subtree of its values; only nodes that no listing names go with them. */
    method Evict(scope: CatalogScope)
      requires AtTheirPlaces() && ScopeNamed(scope)
      modifies this
      ensures AtTheirPlaces() && Contents() == Evicted(old(Contents()), scope)
    {
      DroppingKeepsPlaces(Contents(), scope);
      match scope {
        case ServerScope =>
          server, catalogs, resolutionPath := Unread(), Unlisted(), Unread();
        case CatalogScope(path) =>
          var node := CatalogAt(Contents(), path.catalog);
          if catalogs.freshness == Never {
            catalogs := catalogs.(value := catalogs.value.Drop(MapKey(path.catalog)));
          } else if node.Some? {
            catalogs := catalogs.(value := catalogs.value.Put(MapKey(path.catalog),
              node.value.(namespaces := Unlisted())));
          }
        case NamespaceScope(path) =>
          var parent, node := CatalogAt(Contents(), path.catalog), NamespaceAt(Contents(), path);
          if parent.None? {
            return;
          }
          var spaces := parent.value.namespaces;
          if spaces.freshness == Never {
            var left := spaces.(value := spaces.value.Drop(MapKey(path.namespace)));
            catalogs := catalogs.(value := catalogs.value.Put(MapKey(path.catalog), parent.value.(namespaces := left)));
          } else if node.Some? {
            PutNamespace(path, node.value.(relations := Unlisted()));
          }
        case RelationScope(path) =>
          EvictRelation(path);
        case _ => Forget(scope);
      }
    }

    method EvictRelation(path: CatalogPath)
      modifies this
      ensures Contents() == Evicted(old(Contents()), RelationScope(path))
    {
      var parent, node := NamespaceAt(Contents(), path), RelationAt(Contents(), path);
      if node.None? {
        return;
      }
      var left := node.value.(detail := Unread(), indexes := Unread(), foreignKeys := Unread());
      var listed := parent.value.relations.freshness != Never;
      var empty := left.constraints.value.None? && left.incomingKeys.value.None? && left.definition.value.None?;
      if !listed && empty {
        var relations := parent.value.relations;
        PutNamespace(path, parent.value.(relations := relations.(value := relations.value.Drop(path.relation.value))));
      } else {
        PutRelation(path, left);
      }
    }
  }
}
