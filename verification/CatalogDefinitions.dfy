/** The bounded store of object definitions inside the catalog tree. */
module CatalogDefinitions {
  import opened Machine
  import opened Options
  import opened OrderedMaps
  import opened Paths
  import opened CatalogTree

  const MAX_DEFINITIONS: nat := 16
  const MAX_DEFINITION_BYTES: nat := 16 * 1024 * 1024

  // ---------- sizes ----------

  function NotesBytes(total: nat, notes: seq<seq<bv8>>): nat {
    if notes == [] then total else SaturatingAdd(NotesBytes(total, notes[..|notes| - 1]), |notes[|notes| - 1]|)
  }

  function DefinitionBytes(d: RelationDefinition): nat {
    NotesBytes(|d.sql|, d.notes)
  }

  // ---------- what is held ----------

  datatype Held = Held(path: CatalogPath, fetchedAt: Option<Instant>, bytes: nat)

  function HeldBy(r: RelationNode): seq<Held> {
    if r.definition.value.None? then []
    else [Held(r.summary.Path(), r.definition.freshness.FetchedAt(), DefinitionBytes(r.definition.value.value))]
  }

  function RelationHeld(relations: OrderedMap<RelationNode>): string -> seq<Held> {
    r => if r in relations.values then HeldBy(relations.values[r]) else []
  }

  function NamespaceHeld(spaces: OrderedMap<NamespaceNode>): string -> seq<Held> {
    n => if n in spaces.values
         then Flat(spaces.values[n].relations.value.keys, RelationHeld(spaces.values[n].relations.value)) else []
  }

  function CatalogHeld(catalogs: OrderedMap<CatalogNode>): string -> seq<Held> {
    c => if c in catalogs.values
         then Flat(catalogs.values[c].namespaces.value.keys, NamespaceHeld(catalogs.values[c].namespaces.value)) else []
  }

  /** The definitions held, in the order the tree is walked. */
  function HeldIn(t: Tree): seq<Held> {
    Flat(t.catalogs.value.keys, CatalogHeld(t.catalogs.value))
  }

  function TotalBytes(held: seq<Held>): nat {
    if held == [] then 0 else SaturatingAdd(TotalBytes(held[..|held| - 1]), held[|held| - 1].bytes)
  }

  predicate WithinLimits(held: seq<Held>) {
    |held| <= MAX_DEFINITIONS && TotalBytes(held) <= MAX_DEFINITION_BYTES
  }

  // ---------- the oldest one ----------

  /** Invalidated definitions come before every dated one. */
  predicate NoYounger(a: Option<Instant>, b: Option<Instant>) {
    a.None? || (b.Some? && a.value <= b.value)
  }

  /** The first of the oldest definitions that are not protected. */
  function Oldest(held: seq<Held>, protected: CatalogPath): (r: Option<Held>)
    ensures r.None? <==> forall h :: h in held ==> h.path == protected
    ensures r.Some? ==> r.value in held && r.value.path != protected
    ensures r.Some? ==> forall h :: h in held && h.path != protected ==> NoYounger(r.value.fetchedAt, h.fetchedAt)
  {
    if held == [] then None
    else
      var before, last := Oldest(held[..|held| - 1], protected), held[|held| - 1];
      if last.path == protected then before
      else if before.Some? && NoYounger(before.value.fetchedAt, last.fetchedAt) then before
      else Some(last)
  }

  function WithoutDefinition(t: Tree, path: CatalogPath): Tree {
    var node := RelationAt(t, path);
    if node.Some? then WithRelation(t, path, node.value.(definition := Unread())) else t
  }

  // ---------- walking and looking up agree ----------

  ghost predicate HoldsAt(t: Tree, h: Held) {
    && h.path.relation.Some?
    && RelationAt(t, h.path).Some?
    && HeldBy(RelationAt(t, h.path).value) == [h]
  }

  lemma FindRelation(node: NamespaceNode, c: string, n: string, h: Held) returns (r: string)
    requires NamespaceAtItsPlace(node, c, n)
    requires h in Flat(node.relations.value.keys, RelationHeld(node.relations.value))
    ensures r in node.relations.value.values && HeldBy(node.relations.value.values[r]) == [h]
    ensures h.path == RelationPlace(c, n, r)
  {
    var relations := node.relations.value;
    FlatIn(relations.keys, RelationHeld(relations), h);
    r :| r in relations.keys && h in RelationHeld(relations)(r);
    assert RelationAtItsPlace(relations.values[r], c, n, r);
  }

  lemma FindNamespace(node: CatalogNode, c: string, h: Held) returns (n: string, r: string)
    requires CatalogAtItsPlace(node, c)
    requires h in Flat(node.namespaces.value.keys, NamespaceHeld(node.namespaces.value))
    ensures n in node.namespaces.value.values
    ensures var relations := node.namespaces.value.values[n].relations.value;
      r in relations.values && HeldBy(relations.values[r]) == [h]
    ensures h.path == RelationPlace(c, n, r)
  {
    var spaces := node.namespaces.value;
    FlatIn(spaces.keys, NamespaceHeld(spaces), h);
    n :| n in spaces.keys && h in NamespaceHeld(spaces)(n);
    r := FindRelation(spaces.values[n], c, n, h);
  }

  lemma LookUpAtPlace(t: Tree, c: string, n: string, r: string)
    requires c in t.catalogs.value.values && n in t.catalogs.value.values[c].namespaces.value.values
    ensures RelationAt(t, RelationPlace(c, n, r))
         == t.catalogs.value.values[c].namespaces.value.values[n].relations.value.Get(r)
  {
    assert MapKey(FromKey(c)) == c && MapKey(FromKey(n)) == n;
  }

  lemma HeldIsAt(t: Tree, h: Held)
    requires Valid(t) && h in HeldIn(t)
    ensures HoldsAt(t, h) && h.path.catalog != Some(MISSING_TIER) && h.path.namespace != Some(MISSING_TIER)
  {
    var c := FindCatalog(t, h);
    var n, r := FindNamespace(t.catalogs.value.values[c], c, h);
    LookUpAtPlace(t, c, n, r);
  }

  lemma FindCatalog(t: Tree, h: Held) returns (c: string)
    requires Valid(t) && h in HeldIn(t)
    ensures c in t.catalogs.value.values && CatalogAtItsPlace(t.catalogs.value.values[c], c)
    ensures var spaces := t.catalogs.value.values[c].namespaces.value;
      h in Flat(spaces.keys, NamespaceHeld(spaces))
  {
    var catalogs := t.catalogs.value;
    FlatIn(catalogs.keys, CatalogHeld(catalogs), h);
    c :| c in catalogs.keys && h in CatalogHeld(catalogs)(c);
    assert CatalogAtItsPlace(catalogs.values[c], c);
  }

  lemma AtIsHeld(t: Tree, h: Held)
    requires Valid(t) && HoldsAt(t, h)
    ensures h in HeldIn(t)
  {
    var catalogs := t.catalogs.value;
    var c, n, r := MapKey(h.path.catalog), MapKey(h.path.namespace), h.path.relation.value;
    var spaces := catalogs.values[c].namespaces.value;
    var relations := spaces.values[n].relations.value;
    assert CatalogAtItsPlace(catalogs.values[c], c) && NamespaceAtItsPlace(spaces.values[n], c, n);
    assert h in RelationHeld(relations)(r);
    FlatIn(relations.keys, RelationHeld(relations), h);
    assert h in NamespaceHeld(spaces)(n);
    FlatIn(spaces.keys, NamespaceHeld(spaces), h);
    assert h in CatalogHeld(catalogs)(c);
    FlatIn(catalogs.keys, CatalogHeld(catalogs), h);
  }

  lemma OneRemoved(h: Held)
    ensures Removed([h], h, [])
  {
    var one := [h];
    assert one[0] == h && [] == one[..0] + one[1..];
  }

  lemma RemovedInRelations(before: OrderedMap<RelationNode>, after: OrderedMap<RelationNode>, r: string, h: Held)
    requires before.Valid() && r in before.values && HeldBy(before.values[r]) == [h]
    requires after == before.Put(r, before.values[r].(definition := Unread()))
    ensures Removed(Flat(before.keys, RelationHeld(before)), h, Flat(after.keys, RelationHeld(after)))
  {
    OneRemoved(h);
    assert RelationHeld(before)(r) == [h] && RelationHeld(after)(r) == [];
    FlatRemoved(before.keys, RelationHeld(before), RelationHeld(after), r, h);
  }

  lemma RemovedInNamespaces(before: OrderedMap<NamespaceNode>, after: OrderedMap<NamespaceNode>, n: string, r: string,
                            h: Held)
    requires before.Valid() && n in before.values
    requires var relations := before.values[n].relations.value;
      && relations.Valid() && r in relations.values && HeldBy(relations.values[r]) == [h]
      && after == before.Put(n, before.values[n].(relations := before.values[n].relations.(
                    value := relations.Put(r, relations.values[r].(definition := Unread())))))
    ensures Removed(Flat(before.keys, NamespaceHeld(before)), h, Flat(after.keys, NamespaceHeld(after)))
  {
    RemovedInRelations(before.values[n].relations.value, after.values[n].relations.value, r, h);
    FlatRemoved(before.keys, NamespaceHeld(before), NamespaceHeld(after), n, h);
  }

  lemma RemovedIsShorter<E>(xs: seq<E>, e: E, ys: seq<E>)
    requires Removed(xs, e, ys)
    ensures |ys| == |xs| - 1 && e in xs && forall x :: x in ys ==> x in xs
    ensures forall x :: x in xs && x != e ==> x in ys
  {
    var i :| 0 <= i < |xs| && xs[i] == e && ys == xs[..i] + xs[i + 1..];
    forall x | x in xs && x != e ensures x in ys {
      var j :| 0 <= j < |xs| && xs[j] == x;
      assert ys[if j < i then j else j - 1] == x;
    }
  }

  /** Dropping a held definition takes exactly it out of the walk. */
  lemma DroppingRemoves(t: Tree, h: Held)
    requires Valid(t) && HoldsAt(t, h)
    ensures Removed(HeldIn(t), h, HeldIn(WithoutDefinition(t, h.path)))
    ensures |HeldIn(WithoutDefinition(t, h.path))| == |HeldIn(t)| - 1
  {
    var c, n, r := MapKey(h.path.catalog), MapKey(h.path.namespace), h.path.relation.value;
    var before, after := t.catalogs.value, WithoutDefinition(t, h.path).catalogs.value;
    assert CatalogAtItsPlace(before.values[c], c);
    assert NamespaceAtItsPlace(before.values[c].namespaces.value.values[n], c, n);
    RemovedInCatalogs(before, after, c, n, r, h);
    RemovedIsShorter(HeldIn(t), h, HeldIn(WithoutDefinition(t, h.path)));
  }

  lemma RemovedInCatalogs(before: OrderedMap<CatalogNode>, after: OrderedMap<CatalogNode>, c: string, n: string,
                          r: string, h: Held)
    requires before.Valid() && c in before.values
    requires before.values[c].namespaces.value.Valid() && n in before.values[c].namespaces.value.values
    requires var relations := before.values[c].namespaces.value.values[n].relations.value;
      relations.Valid() && r in relations.values && HeldBy(relations.values[r]) == [h]
    requires
      var spaces := before.values[c].namespaces.value;
      var relations := spaces.values[n].relations.value;
      after == before.Put(c, before.values[c].(namespaces := before.values[c].namespaces.(
        value := spaces.Put(n, spaces.values[n].(relations := spaces.values[n].relations.(
          value := relations.Put(r, relations.values[r].(definition := Unread()))))))))
    ensures Removed(Flat(before.keys, CatalogHeld(before)), h, Flat(after.keys, CatalogHeld(after)))
  {
    RemovedInNamespaces(before.values[c].namespaces.value, after.values[c].namespaces.value, n, r, h);
    FlatRemoved(before.keys, CatalogHeld(before), CatalogHeld(after), c, h);
  }

  // ---------- evicting ----------

  /** The tree once the oldest definitions went until the rest fits. */
  function Trimmed(t: Tree, protected: CatalogPath): Tree
    requires Valid(t)
    decreases |HeldIn(t)|
  {
    var held := HeldIn(t);
    var oldest := Oldest(held, protected);
    if WithinLimits(held) || oldest.None? then t
    else
      HeldIsAt(t, oldest.value);
      DroppingRemoves(t, oldest.value);
      DroppingIsValid(t, oldest.value.path);
      Trimmed(WithoutDefinition(t, oldest.value.path), protected)
  }

  lemma DroppingIsValid(t: Tree, path: CatalogPath)
    requires Valid(t)
    ensures Valid(WithoutDefinition(t, path))
  {
    var node := RelationAt(t, path);
    if node.Some? {
      KnownIsAtItsPlace(t, path);
      WithRelationIsValid(t, path, node.value.(definition := Unread()));
    }
  }

  lemma KnownIsAtItsPlace(t: Tree, path: CatalogPath)
    requires Valid(t) && RelationAt(t, path).Some?
    ensures path.relation.Some?
    ensures RelationAtItsPlace(RelationAt(t, path).value, MapKey(path.catalog), MapKey(path.namespace),
      path.relation.value)
  {
    var c, n := MapKey(path.catalog), MapKey(path.namespace);
    assert CatalogAtItsPlace(t.catalogs.value.values[c], c);
    assert NamespaceAtItsPlace(t.catalogs.value.values[c].namespaces.value.values[n], c, n);
  }

  // ---------- what evicting does ----------

  function BareRelation(r: RelationNode): RelationNode {
    r.(definition := Unread())
  }

  function BareNamespace(n: NamespaceNode): NamespaceNode {
    n.(relations := n.relations.(value := n.relations.value.Mapped(BareRelation)))
  }

  function BareCatalog(c: CatalogNode): CatalogNode {
    c.(namespaces := c.namespaces.(value := c.namespaces.value.Mapped(BareNamespace)))
  }

  /** The tree with every definition unread: everything but the definitions. */
  function NoDefinitions(t: Tree): Tree {
    t.(catalogs := t.catalogs.(value := t.catalogs.value.Mapped(BareCatalog)))
  }

  lemma DroppingKeepsTheRest(t: Tree, path: CatalogPath)
    ensures NoDefinitions(WithoutDefinition(t, path)) == NoDefinitions(t)
  {
    if RelationAt(t, path).Some? {
      var c, n, r := MapKey(path.catalog), MapKey(path.namespace), path.relation.value;
      var before, after := t.catalogs.value, WithoutDefinition(t, path).catalogs.value;
      var spaces, spaces' := before.values[c].namespaces.value, after.values[c].namespaces.value;
      var relations, relations' := spaces.values[n].relations.value, spaces'.values[n].relations.value;
      PutMapped(relations, r, relations'.values[r], BareRelation);
      PutMapped(spaces, n, spaces'.values[n], BareNamespace);
      PutMapped(before, c, after.values[c], BareCatalog);
    }
  }

  lemma DroppingTouchesOneDefinition(t: Tree, path: CatalogPath, p: CatalogPath)
    ensures RelationAt(t, path).Some? && SamePlace(p, path) ==>
      RelationAt(WithoutDefinition(t, path), p) == Some(RelationAt(t, path).value.(definition := Unread()))
    ensures !SamePlace(p, path) ==> RelationAt(WithoutDefinition(t, path), p) == RelationAt(t, p)
  {
  }

  /** Two paths lead to the same node. */
  predicate SamePlace(p: CatalogPath, q: CatalogPath) {
    MapKey(p.catalog) == MapKey(q.catalog) && MapKey(p.namespace) == MapKey(q.namespace) && p.relation == q.relation
  }

  lemma SamePlaceSameNode(t: Tree, p: CatalogPath, q: CatalogPath)
    ensures SamePlace(p, q) ==> RelationAt(t, p) == RelationAt(t, q)
  {
  }

  /** Nothing but definitions changes, and each definition stays or becomes unread. */
  lemma {:induction false} TrimmingTouchesOnlyDefinitions(t: Tree, protected: CatalogPath, p: CatalogPath)
    requires Valid(t)
    ensures var t' := Trimmed(t, protected);
      && Valid(t') && NoDefinitions(t') == NoDefinitions(t)
      && (RelationAt(t', p) == RelationAt(t, p)
          || (RelationAt(t, p).Some? && RelationAt(t', p) == Some(RelationAt(t, p).value.(definition := Unread()))))
    decreases |HeldIn(t)|
  {
    var held := HeldIn(t);
    var oldest := Oldest(held, protected);
    if !WithinLimits(held) && oldest.Some? {
      var next := WithoutDefinition(t, oldest.value.path);
      HeldIsAt(t, oldest.value);
      DroppingRemoves(t, oldest.value);
      DroppingIsValid(t, oldest.value.path);
      DroppingKeepsTheRest(t, oldest.value.path);
      DroppingTouchesOneDefinition(t, oldest.value.path, p);
      TrimmingTouchesOnlyDefinitions(next, protected, p);
      SamePlaceSameNode(t, p, oldest.value.path);
    }
  }

  /** The protected definition survives. */
  lemma {:induction false} ProtectedSurvives(t: Tree, protected: CatalogPath)
    requires Valid(t) && protected.catalog != Some(MISSING_TIER) && protected.namespace != Some(MISSING_TIER)
    ensures RelationAt(Trimmed(t, protected), protected) == RelationAt(t, protected)
    decreases |HeldIn(t)|
  {
    var held := HeldIn(t);
    var oldest := Oldest(held, protected);
    if !WithinLimits(held) && oldest.Some? {
      HeldIsAt(t, oldest.value);
      DroppingRemoves(t, oldest.value);
      DroppingIsValid(t, oldest.value.path);
      DroppingTouchesOneDefinition(t, oldest.value.path, protected);
      ProtectedSurvives(WithoutDefinition(t, oldest.value.path), protected);
    }
  }

  /** What is left was there, and no unprotected definition that is left is older than one
      that went; invalidated ones go first. */
  lemma {:induction false} OldestGoFirst(t: Tree, protected: CatalogPath)
    requires Valid(t)
    ensures var after := HeldIn(Trimmed(t, protected));
      && (forall h :: h in after ==> h in HeldIn(t))
      && OldestWent(HeldIn(t), after, protected)
    decreases |HeldIn(t)|
  {
    var held := HeldIn(t);
    var oldest := Oldest(held, protected);
    if !WithinLimits(held) && oldest.Some? {
      var next := WithoutDefinition(t, oldest.value.path);
      HeldIsAt(t, oldest.value);
      DroppingRemoves(t, oldest.value);
      DroppingIsValid(t, oldest.value.path);
      OldestGoFirst(next, protected);
      OldestGoesFirst(held, HeldIn(next), HeldIn(Trimmed(t, protected)), protected, oldest.value);
    }
  }

  /** No unprotected definition that is left is older than one that went. */
  ghost predicate OldestWent(before: seq<Held>, after: seq<Held>, protected: CatalogPath) {
    forall e, s :: e in before && e !in after && s in after && s.path != protected ==>
      e.fetchedAt.None? || (s.fetchedAt.Some? && e.fetchedAt.value <= s.fetchedAt.value)
  }

  lemma OldestGoesFirst(held: seq<Held>, next: seq<Held>, after: seq<Held>, protected: CatalogPath, oldest: Held)
    requires Oldest(held, protected) == Some(oldest) && Removed(held, oldest, next)
    requires (forall h :: h in after ==> h in next) && OldestWent(next, after, protected)
    ensures (forall h :: h in after ==> h in held) && OldestWent(held, after, protected)
  {
    RemovedIsShorter(held, oldest, next);
  }

  /** The rest fits, or nothing but the protected definition is left. */
  lemma {:induction false} TrimmedFits(t: Tree, protected: CatalogPath)
    requires Valid(t)
    ensures var after := HeldIn(Trimmed(t, protected));
      WithinLimits(after) || forall h :: h in after ==> h.path == protected
    decreases |HeldIn(t)|
  {
    var held := HeldIn(t);
    var oldest := Oldest(held, protected);
    if !WithinLimits(held) && oldest.Some? {
      HeldIsAt(t, oldest.value);
      DroppingRemoves(t, oldest.value);
      DroppingIsValid(t, oldest.value.path);
      TrimmedFits(WithoutDefinition(t, oldest.value.path), protected);
    }
  }

  /** No definition is walked twice. */
  lemma HeldOnce(t: Tree)
    requires Valid(t)
    ensures Distinct(HeldIn(t))
    ensures forall g, h :: g in HeldIn(t) && h in HeldIn(t) && g.path == h.path ==> g == h
  {
    var catalogs := t.catalogs.value;
    forall c | c in catalogs.keys ensures Distinct(CatalogHeld(catalogs)(c)) {
      assert CatalogAtItsPlace(catalogs.values[c], c);
      HeldOnceInCatalog(catalogs.values[c], c);
    }
    forall c, d, h | c in catalogs.keys && d in catalogs.keys && h in CatalogHeld(catalogs)(c)
      && h in CatalogHeld(catalogs)(d)
      ensures c == d
    {
      assert CatalogAtItsPlace(catalogs.values[c], c) && CatalogAtItsPlace(catalogs.values[d], d);
      var n, r := FindNamespace(catalogs.values[c], c, h);
      var n', r' := FindNamespace(catalogs.values[d], d, h);
    }
    FlatIsDistinct(catalogs.keys, CatalogHeld(catalogs));
    forall g, h | g in HeldIn(t) && h in HeldIn(t) && g.path == h.path ensures g == h {
      HeldIsAt(t, g);
      HeldIsAt(t, h);
      assert [g][0] == [h][0];
    }
  }

  lemma HeldOnceInCatalog(node: CatalogNode, c: string)
    requires CatalogAtItsPlace(node, c)
    ensures Distinct(Flat(node.namespaces.value.keys, NamespaceHeld(node.namespaces.value)))
  {
    var spaces := node.namespaces.value;
    forall n | n in spaces.keys ensures Distinct(NamespaceHeld(spaces)(n)) {
      assert NamespaceAtItsPlace(spaces.values[n], c, n);
      HeldOnceInNamespace(spaces.values[n], c, n);
    }
    forall n, m, h | n in spaces.keys && m in spaces.keys && h in NamespaceHeld(spaces)(n)
      && h in NamespaceHeld(spaces)(m)
      ensures n == m
    {
      HeldInOneNamespace(node, c, n, m, h);
    }
    FlatIsDistinct(spaces.keys, NamespaceHeld(spaces));
  }

  lemma HeldInOneNamespace(node: CatalogNode, c: string, n: string, m: string, h: Held)
    requires CatalogAtItsPlace(node, c) && n in node.namespaces.value.values && m in node.namespaces.value.values
    requires h in NamespaceHeld(node.namespaces.value)(n) && h in NamespaceHeld(node.namespaces.value)(m)
    ensures n == m
  {
    var r := FindRelation(node.namespaces.value.values[n], c, n, h);
    var q := FindRelation(node.namespaces.value.values[m], c, m, h);
  }

  lemma HeldOnceInNamespace(node: NamespaceNode, c: string, n: string)
    requires NamespaceAtItsPlace(node, c, n)
    ensures Distinct(Flat(node.relations.value.keys, RelationHeld(node.relations.value)))
  {
    var relations := node.relations.value;
    forall r, q, h | r in relations.keys && q in relations.keys && h in RelationHeld(relations)(r)
      && h in RelationHeld(relations)(q)
      ensures r == q
    {
      assert RelationAtItsPlace(relations.values[r], c, n, r) && RelationAtItsPlace(relations.values[q], c, n, q);
    }
    FlatIsDistinct(relations.keys, RelationHeld(relations));
  }

  lemma {:induction false} TotalCoversEach(held: seq<Held>, h: Held)
    requires h in held && h.bytes <= USIZE_MAX
    ensures h.bytes <= TotalBytes(held)
    decreases |held|
  {
    var n := |held| - 1;
    if h in held[..n] {
      TotalCoversEach(held[..n], h);
    } else {
      assert held[n] == h;
    }
  }

  lemma {:induction false} NotesAreBounded(total: nat, notes: seq<seq<bv8>>)
    requires total <= USIZE_MAX
    ensures total <= NotesBytes(total, notes) <= USIZE_MAX
    decreases |notes|
  {
    if notes != [] {
      NotesAreBounded(total, notes[..|notes| - 1]);
    }
  }

  /** What publishing a definition makes of the tree. */
  function Published(t: Tree, path: CatalogPath, d: RelationDefinition, now: Instant): Tree
    requires Valid(t)
  {
    var t' := SetReading(t, path, ReadDefinition(d), now);
    ReadingIsValid(t, path, ReadDefinition(d), now);
    if RelationAt(t, path).Some? then Trimmed(t', path) else t
  }

  lemma ReadingIsValid(t: Tree, path: CatalogPath, reading: Reading, now: Instant)
    requires Valid(t)
    ensures Valid(SetReading(t, path, reading, now))
  {
    var node := RelationAt(t, path);
    if node.Some? {
      KnownIsAtItsPlace(t, path);
      WithRelationIsValid(t, path, WithReading(node.value, reading, now));
    }
  }

  function NoteLengths(notes: seq<seq<bv8>>): nat {
    if notes == [] then 0 else NoteLengths(notes[..|notes| - 1]) + |notes[|notes| - 1]|
  }

  /** A definition weighs its text and its notes, up to what the machine counts to. */
  lemma DefinitionWeighs(d: RelationDefinition)
    requires |d.sql| <= USIZE_MAX
    ensures var exact := |d.sql| + NoteLengths(d.notes);
      DefinitionBytes(d) == if exact > USIZE_MAX then USIZE_MAX else exact
  {
    NotesWeigh(|d.sql|, d.notes);
  }

  lemma {:induction false} NotesWeigh(total: nat, notes: seq<seq<bv8>>)
    requires total <= USIZE_MAX
    ensures NotesBytes(total, notes)
         == if total + NoteLengths(notes) > USIZE_MAX then USIZE_MAX else total + NoteLengths(notes)
    decreases |notes|
  {
    if notes != [] { NotesWeigh(total, notes[..|notes| - 1]); }
  }

  lemma PublishedIsValid(t: Tree, path: CatalogPath, d: RelationDefinition, now: Instant)
    requires Valid(t)
    ensures Valid(Published(t, path, d, now))
  {
    ReadingIsValid(t, path, ReadDefinition(d), now);
    TrimmingTouchesOnlyDefinitions(SetReading(t, path, ReadDefinition(d), now), path, path);
  }

  /** The definition just written is the one read back. At most 16 are left, and they exceed
      the byte limit exactly when the one just written does so alone. */
  lemma PublishedFits(t: Tree, path: CatalogPath, d: RelationDefinition, now: Instant)
    requires Valid(t) && RelationAt(t, path).Some? && |d.sql| <= USIZE_MAX
    requires path.catalog != Some(MISSING_TIER) && path.namespace != Some(MISSING_TIER)
    ensures var t' := Published(t, path, d, now);
      && HasJustRead(t', path, d, now)
      && |HeldIn(t')| <= MAX_DEFINITIONS
      && (TotalBytes(HeldIn(t')) > MAX_DEFINITION_BYTES <==> DefinitionBytes(d) > MAX_DEFINITION_BYTES)
  {
    ReadingIsValid(t, path, ReadDefinition(d), now);
    WrittenIsRead(t, path, d, now);
    WrittenFits(SetReading(t, path, ReadDefinition(d), now), path, d, now);
  }

  lemma WrittenFits(written: Tree, path: CatalogPath, d: RelationDefinition, now: Instant)
    requires Valid(written) && HasJustRead(written, path, d, now) && |d.sql| <= USIZE_MAX
    requires path.catalog != Some(MISSING_TIER) && path.namespace != Some(MISSING_TIER)
    ensures var t' := Trimmed(written, path);
      && HasJustRead(t', path, d, now)
      && |HeldIn(t')| <= MAX_DEFINITIONS
      && (TotalBytes(HeldIn(t')) > MAX_DEFINITION_BYTES <==> DefinitionBytes(d) > MAX_DEFINITION_BYTES)
  {
    ProtectedSurvives(written, path);
    TrimmedFits(written, path);
    TrimmingTouchesOnlyDefinitions(written, path, path);
    JustReadIsHeld(Trimmed(written, path), path, d, now);
  }

  predicate HasJustRead(t: Tree, path: CatalogPath, d: RelationDefinition, now: Instant) {
    RelationAt(t, path).Some? && RelationAt(t, path).value.definition == Cached(Fetched(now), Some(d))
  }

  /** A store that fits, or that holds nothing but one definition. */
  lemma JustReadIsHeld(t: Tree, path: CatalogPath, d: RelationDefinition, now: Instant)
    requires Valid(t) && HasJustRead(t, path, d, now) && |d.sql| <= USIZE_MAX
    requires path.catalog != Some(MISSING_TIER) && path.namespace != Some(MISSING_TIER)
    requires WithinLimits(HeldIn(t)) || forall h :: h in HeldIn(t) ==> h.path == path
    ensures |HeldIn(t)| <= MAX_DEFINITIONS
    ensures TotalBytes(HeldIn(t)) > MAX_DEFINITION_BYTES <==> DefinitionBytes(d) > MAX_DEFINITION_BYTES
  {
    var own := Held(path, Some(now), DefinitionBytes(d));
    NotesAreBounded(|d.sql|, d.notes);
    SummaryIsPath(t, path);
    AtIsHeld(t, own);
    HeldOnce(t);
    OwnDecides(HeldIn(t), own);
  }

  lemma OwnDecides(held: seq<Held>, own: Held)
    requires Distinct(held) && own in held && own.bytes <= USIZE_MAX
    requires forall g, h :: g in held && h in held && g.path == h.path ==> g == h
    requires WithinLimits(held) || forall h :: h in held ==> h.path == own.path
    ensures |held| <= MAX_DEFINITIONS
    ensures TotalBytes(held) > MAX_DEFINITION_BYTES <==> own.bytes > MAX_DEFINITION_BYTES
  {
    TotalCoversEach(held, own);
    if !WithinLimits(held) {
      OnlyOne(held, own);
    }
  }

  lemma WrittenIsRead(t: Tree, path: CatalogPath, d: RelationDefinition, now: Instant)
    requires RelationAt(t, path).Some?
    ensures RelationAt(SetReading(t, path, ReadDefinition(d), now), path)
         == Some(RelationAt(t, path).value.(definition := Cached(Fetched(now), Some(d))))
  {
  }

  lemma SummaryIsPath(t: Tree, path: CatalogPath)
    requires Valid(t) && RelationAt(t, path).Some?
    requires path.catalog != Some(MISSING_TIER) && path.namespace != Some(MISSING_TIER)
    ensures RelationAt(t, path).value.summary.Path() == path
  {
    KnownIsAtItsPlace(t, path);
  }

  lemma OnlyOne(held: seq<Held>, own: Held)
    requires Distinct(held) && own in held && forall h :: h in held ==> h.path == own.path
    requires forall g, h :: g in held && h in held && g.path == h.path ==> g == h
    ensures held == [own] && TotalBytes(held) == SaturatingAdd(0, own.bytes)
  {
    assert forall i :: 0 <= i < |held| ==> held[i] in held;
    var last := |held| - 1;
    assert held[0] == held[last] == own;
  }

  /** The largest definition the driver and bus boundaries let through. */
  predicate Validated(d: RelationDefinition) {
    0 < |d.sql| <= 1_048_576 && |d.notes| <= 32 && NotesBytes(0, d.notes) <= 65_536
  }

  lemma {:induction false} NotesAdd(total: nat, notes: seq<seq<bv8>>)
    requires total <= USIZE_MAX
    ensures NotesBytes(total, notes) <= total + NotesBytes(0, notes)
    decreases |notes|
  {
    if notes != [] {
      NotesAdd(total, notes[..|notes| - 1]);
      NotesAreBounded(total, notes[..|notes| - 1]);
      NotesAreBounded(0, notes[..|notes| - 1]);
    }
  }

  /** A validated definition always leaves the store within both limits. */
  lemma ValidatedAlwaysFits(t: Tree, path: CatalogPath, d: RelationDefinition, now: Instant)
    requires Valid(t) && RelationAt(t, path).Some? && Validated(d)
    requires path.catalog != Some(MISSING_TIER) && path.namespace != Some(MISSING_TIER)
    ensures WithinLimits(HeldIn(Published(t, path, d, now)))
  {
    PublishedFits(t, path, d, now);
    NotesAdd(|d.sql|, d.notes);
  }
}
