/** Ranking what a search found, and keeping the first of it. */
module SearchRanking {
  import opened Options
  import opened Paths
  import opened Insertion
  import opened SearchScores

  // ---------- the order ----------

  /** A missing level comes before any name. */
  predicate LevelBelow(a: Option<string>, b: Option<string>) {
    b.Some? && (a.None? || Below(a.value, b.value))
  }

  predicate PathBelow(a: CatalogPath, b: CatalogPath) {
    || LevelBelow(a.catalog, b.catalog)
    || (a.catalog == b.catalog && LevelBelow(a.namespace, b.namespace))
    || (a.catalog == b.catalog && a.namespace == b.namespace && LevelBelow(a.relation, b.relation))
  }

  /** Paths are ordered by catalog, then namespace, then relation, a missing level first. */
  lemma PathsAreOrderedByLevel(a: CatalogPath, b: CatalogPath)
    ensures a.catalog != b.catalog ==> (PathBelow(a, b) <==> LevelBelow(a.catalog, b.catalog))
    ensures a.catalog == b.catalog && a.namespace != b.namespace ==>
      (PathBelow(a, b) <==> LevelBelow(a.namespace, b.namespace))
    ensures a.catalog == b.catalog && a.namespace == b.namespace ==>
      (PathBelow(a, b) <==> LevelBelow(a.relation, b.relation))
    ensures a.relation.None? && b.relation.Some? && a.catalog == b.catalog && a.namespace == b.namespace ==>
      PathBelow(a, b)
  {
    LevelIsStrictTotal(a.catalog, b.catalog, b.catalog);
    LevelIsStrictTotal(a.namespace, b.namespace, b.namespace);
  }

  datatype Key = Key(path: CatalogPath, score: real)

  /** The order of the results: by score downwards, then by path upwards. */
  predicate Outranks(a: Key, b: Key) {
    a.score > b.score || (a.score == b.score && PathBelow(a.path, b.path))
  }

  lemma LevelIsStrictTotal(a: Option<string>, b: Option<string>, c: Option<string>)
    ensures !LevelBelow(a, a)
    ensures LevelBelow(a, b) || a == b || LevelBelow(b, a)
    ensures LevelBelow(a, b) && LevelBelow(b, c) ==> LevelBelow(a, c)
  {
    if a.Some? { BelowIsStrict(a.value); }
    if a.Some? && b.Some? { BelowIsTotal(a.value, b.value); }
    if a.Some? && b.Some? && c.Some? && Below(a.value, b.value) && Below(b.value, c.value) {
      BelowIsTransitive(a.value, b.value, c.value);
    }
  }

  /** The ranking is a strict total order on candidates of different paths. */
  lemma OutranksIsStrictTotal(a: Key, b: Key, c: Key)
    ensures !Outranks(a, a)
    ensures a.path != b.path ==> Outranks(a, b) || Outranks(b, a)
    ensures Outranks(a, b) && Outranks(b, c) ==> Outranks(a, c)
  {
    LevelIsStrictTotal(a.path.catalog, b.path.catalog, c.path.catalog);
    LevelIsStrictTotal(a.path.namespace, b.path.namespace, c.path.namespace);
    LevelIsStrictTotal(a.path.relation, b.path.relation, c.path.relation);
  }

  ghost predicate Ranked(keys: seq<Key>) {
    forall i, j :: 0 <= i < j < |keys| ==> Outranks(keys[i], keys[j])
  }

  lemma RankedHeadIsBest(keys: seq<Key>, k: Key)
    requires Ranked(keys) && k in keys && k != keys[0]
    ensures Outranks(keys[0], k)
  {
  }

  /** There is one ranking of the same candidates. */
  lemma {:induction false} RankingIsUnique(a: seq<Key>, b: seq<Key>)
    requires Ranked(a) && Ranked(b) && multiset(a) == multiset(b)
    ensures a == b
    decreases |a|
  {
    SameLength(a, b);
    if a != [] {
      HeadsAgree(a, b);
      TailKeys(a);
      TailKeys(b);
      RankingIsUnique(a[1..], b[1..]);
      assert a == [a[0]] + a[1..] && b == [b[0]] + b[1..];
    }
  }

  /** The first of a ranking is the best there is. */
  lemma HeadsAgree(a: seq<Key>, b: seq<Key>)
    requires Ranked(a) && Ranked(b) && multiset(a) == multiset(b) && a != [] && b != []
    ensures a[0] == b[0]
  {
    assert a[0] in multiset(b) && b[0] in multiset(a);
    if a[0] != b[0] {
      RankedHeadIsBest(b, a[0]);
      RankedHeadIsBest(a, b[0]);
      OutranksIsStrictTotal(a[0], b[0], a[0]);
    }
  }

  lemma TailKeys(keys: seq<Key>)
    requires keys != []
    ensures multiset(keys[1..]) == multiset(keys) - multiset{keys[0]}
    ensures Ranked(keys) ==> Ranked(keys[1..])
  {
    assert keys == [keys[0]] + keys[1..];
  }

  lemma SameLength(a: seq<Key>, b: seq<Key>)
    requires multiset(a) == multiset(b)
    ensures |a| == |b|
  {
    assert |multiset(a)| == |a| && |multiset(b)| == |b|;
  }

  // ---------- sorting ----------

  function KeyOf(hit: SearchHit): Key {
    Key(hit.path, hit.score)
  }

  function Keys(hits: seq<SearchHit>): (keys: seq<Key>)
    ensures |keys| == |hits| && forall i :: 0 <= i < |hits| ==> keys[i] == KeyOf(hits[i])
  {
    seq(|hits|, i requires 0 <= i < |hits| => KeyOf(hits[i]))
  }

  function Insert(hit: SearchHit, sorted: seq<SearchHit>): (r: seq<SearchHit>)
    ensures multiset(r) == multiset(sorted) + multiset{hit}
  {
    if sorted == [] || Outranks(KeyOf(hit), KeyOf(sorted[0])) then
      [hit] + sorted
    else
      assert sorted == [sorted[0]] + sorted[1..];
      [sorted[0]] + Insert(hit, sorted[1..])
  }

  function Sorted(hits: seq<SearchHit>): (r: seq<SearchHit>)
    ensures multiset(r) == multiset(hits)
  {
    if hits == [] then []
    else
      assert hits == hits[..|hits| - 1] + [hits[|hits| - 1]];
      Insert(hits[|hits| - 1], Sorted(hits[..|hits| - 1]))
  }

  ghost predicate RankedHits(hits: seq<SearchHit>) {
    forall i, j :: 0 <= i < j < |hits| ==> Outranks(KeyOf(hits[i]), KeyOf(hits[j]))
  }

  lemma {:induction false} InsertKeepsRanking(hit: SearchHit, sorted: seq<SearchHit>)
    requires RankedHits(sorted) && forall other :: other in sorted ==> other.path != hit.path
    ensures RankedHits(Insert(hit, sorted))
    decreases |sorted|
  {
    var r := Insert(hit, sorted);
    if sorted != [] {
      var head, rest := sorted[0], sorted[1..];
      OutranksIsStrictTotal(KeyOf(hit), KeyOf(head), KeyOf(hit));
      if Outranks(KeyOf(hit), KeyOf(head)) {
        forall j | 0 < j < |r| ensures Outranks(KeyOf(hit), KeyOf(r[j])) {
          if j > 1 { OutranksIsStrictTotal(KeyOf(hit), KeyOf(head), KeyOf(r[j])); }
        }
      } else {
        InsertKeepsRanking(hit, rest);
        var tail := Insert(hit, rest);
        forall j | 0 <= j < |tail| ensures Outranks(KeyOf(head), KeyOf(tail[j])) {
          assert tail[j] in multiset(tail);
          assert tail[j] == hit || tail[j] in rest;
        }
      }
    }
  }

  lemma SortedHas(hits: seq<SearchHit>, hit: SearchHit)
    requires hit in Sorted(hits)
    ensures hit in hits
  {
    assert hit in multiset(Sorted(hits));
  }

  lemma {:induction false} SortedIsRanked(hits: seq<SearchHit>)
    requires forall i, j :: 0 <= i < j < |hits| ==> hits[i].path != hits[j].path
    ensures RankedHits(Sorted(hits))
  {
    if hits != [] {
      var n := |hits| - 1;
      SortedIsRanked(hits[..n]);
      forall other | other in Sorted(hits[..n]) ensures other.path != hits[n].path {
        SortedHas(hits[..n], other);
        var i :| 0 <= i < n && hits[..n][i] == other;
      }
      InsertKeepsRanking(hits[n], Sorted(hits[..n]));
    }
  }

  lemma PermutationRest<T>(a: seq<T>, b: seq<T>, i: nat)
    requires multiset(a) == multiset(b) && a != [] && i < |b| && b[i] == a[|a| - 1]
    ensures multiset(b[..i] + b[i + 1..]) == multiset(a[..|a| - 1])
  {
    assert a == a[..|a| - 1] + [a[|a| - 1]];
    assert b == b[..i] + [b[i]] + b[i + 1..];
    assert multiset(b[..i] + b[i + 1..]) == multiset(b) - multiset{b[i]};
  }

  lemma KeysConcat(a: seq<SearchHit>, b: seq<SearchHit>)
    ensures Keys(a + b) == Keys(a) + Keys(b)
  {
  }

  lemma KeysWithout(s: seq<SearchHit>, i: nat)
    requires i < |s|
    ensures multiset(Keys(s)) == multiset(Keys(s[..i] + s[i + 1..])) + multiset{KeyOf(s[i])}
  {
    assert s == s[..i] + [s[i]] + s[i + 1..];
    KeysConcat(s[..i], [s[i]]);
    KeysConcat(s[..i] + [s[i]], s[i + 1..]);
    KeysConcat(s[..i], s[i + 1..]);
  }

  lemma {:induction false} KeysOfPermutation(a: seq<SearchHit>, b: seq<SearchHit>)
    requires multiset(a) == multiset(b)
    ensures multiset(Keys(a)) == multiset(Keys(b))
    decreases |a|
  {
    if a == [] {
      assert |multiset(b)| == |b|;
    } else {
      var n := |a| - 1;
      assert a[n] in multiset(a) && a[n] in multiset(b);
      var i :| 0 <= i < |b| && b[i] == a[n];
      PermutationRest(a, b, i);
      KeysOfPermutation(a[..n], b[..i] + b[i + 1..]);
      KeysWithout(a, n);
      KeysWithout(b, i);
      assert a[..n] + a[n + 1..] == a[..n];
    }
  }

  // ---------- the search ----------

  datatype SearchOptions = SearchOptions(limit: nat, minScore: real, accepts: CatalogPath -> bool)

  predicate IsCandidate(relation: Relation, terms: seq<Term>, options: SearchOptions)
    requires terms != []
  {
    && options.accepts(relation.path)
    && Total(relation, terms) > 0.0
    && Total(relation, terms) / |terms| as real >= options.minScore
  }

  function KeyFor(relation: Relation, terms: seq<Term>): Key
    requires terms != []
  {
    Key(relation.path, Total(relation, terms) / |terms| as real)
  }

  /** What answers, with its score, in the order of the catalog's iteration. */
  function Candidates(relations: seq<Relation>, terms: seq<Term>, options: SearchOptions): seq<Key>
    requires terms != []
  {
    if relations == [] then []
    else
      var n := |relations| - 1;
      Candidates(relations[..n], terms, options) +
      (if IsCandidate(relations[n], terms, options) then [KeyFor(relations[n], terms)] else [])
  }

  ghost predicate UniquePaths(relations: seq<Relation>) {
    forall i, j :: 0 <= i < j < |relations| ==> relations[i].path != relations[j].path
  }

  /** The first `limit` of the ranking of the candidates. */
  ghost predicate IsTop(keys: seq<Key>, candidates: seq<Key>, limit: nat) {
    exists ranking: seq<Key> :: IsTopOf(keys, ranking, candidates, limit)
  }

  ghost predicate IsTopOf(keys: seq<Key>, ranking: seq<Key>, candidates: seq<Key>, limit: nat) {
    && Ranked(ranking) && multiset(ranking) == multiset(candidates)
    && keys == if limit < |ranking| then ranking[..limit] else ranking
  }

  ghost predicate AnswersSome(hit: SearchHit, relations: seq<Relation>, terms: seq<Term>)
    requires terms != []
  {
    exists k :: 0 <= k < |relations| && Answering(hit, relations[k], terms)
  }

  /** Rates every relation of an accepted kind and keeps what scores enough. */
  method Hits(relations: seq<Relation>, terms: seq<Term>, options: SearchOptions) returns (hits: seq<SearchHit>)
    requires terms != []
    ensures Keys(hits) == Candidates(relations, terms, options)
    ensures forall hit :: hit in hits ==> AnswersSome(hit, relations, terms)
  {
    hits := [];
    for n := 0 to |relations|
      invariant Keys(hits) == Candidates(relations[..n], terms, options)
      invariant forall hit :: hit in hits ==> AnswersSome(hit, relations, terms)
    {
      assert relations[..n + 1][..n] == relations[..n];
      TotalBounds(relations[n], terms);
      if options.accepts(relations[n].path) {
        var hit := Rate(relations[n], terms);
        if hit.Some? && hit.value.score >= options.minScore {
          assert Answering(hit.value, relations[n], terms);
          KeysConcat(hits, [hit.value]);
          hits := hits + [hit.value];
        }
      }
    }
    assert relations[..|relations|] == relations;
  }

  lemma {:induction false} CandidatePaths(relations: seq<Relation>, terms: seq<Term>, options: SearchOptions)
    requires terms != [] && UniquePaths(relations)
    ensures forall i, j :: 0 <= i < j < |Candidates(relations, terms, options)| ==>
      Candidates(relations, terms, options)[i].path != Candidates(relations, terms, options)[j].path
    ensures forall key :: key in Candidates(relations, terms, options) ==>
      exists k :: 0 <= k < |relations| && relations[k].path == key.path
  {
    if relations != [] {
      var n := |relations| - 1;
      CandidatePaths(relations[..n], terms, options);
      var before := Candidates(relations[..n], terms, options);
      forall i | 0 <= i < |before| ensures before[i].path != relations[n].path {
        assert before[i] in before;
        var k :| 0 <= k < n && relations[..n][k].path == before[i].path;
      }
      forall key | key in before ensures exists k :: 0 <= k < |relations| && relations[k].path == key.path {
        var k :| 0 <= k < n && relations[..n][k].path == key.path;
        assert relations[k].path == key.path;
      }
    }
  }

  /** A relation is a candidate exactly when its kind is accepted, it answers some term, and the mean of its
      answers reaches the threshold. */
  lemma {:induction false} CandidatesExactly(relations: seq<Relation>, terms: seq<Term>, options: SearchOptions,
                                             key: Key)
    requires terms != []
    ensures key in Candidates(relations, terms, options) <==>
      exists k :: 0 <= k < |relations| && relations[k].path == key.path && options.accepts(key.path)
        && key.score == Total(relations[k], terms) / |terms| as real
        && (exists i: nat :: i < |terms| && AnswersTerm(relations[k], terms[i]))
        && key.score >= options.minScore
  {
    if relations != [] {
      var n := |relations| - 1;
      CandidatesExactly(relations[..n], terms, options, key);
      TotalBounds(relations[n], terms);
      forall k | 0 <= k < n ensures relations[..n][k] == relations[k] {}
    }
  }

  method Search(relations: seq<Relation>, terms: seq<Term>, options: SearchOptions) returns (results: seq<SearchHit>)
    requires UniquePaths(relations)
    ensures terms == [] ==> results == []
    ensures terms != [] ==> IsTop(Keys(results), Candidates(relations, terms, options), options.limit)
    ensures terms != [] ==> forall hit :: hit in results ==> AnswersSome(hit, relations, terms)
  {
    if terms == [] {
      return [];
    }
    var hits := Hits(relations, terms, options);
    CandidatePaths(relations, terms, options);
    HitsHaveDistinctPaths(hits);
    results := Sorted(hits);
    SortingRanks(hits, Candidates(relations, terms, options));
    forall hit | hit in results ensures hit in hits { SortedHas(hits, hit); }
    if options.limit < |results| {
      KeysOfFirst(results, options.limit);
      results := results[..options.limit];
    }
    assert IsTopOf(Keys(results), Keys(Sorted(hits)), Candidates(relations, terms, options), options.limit);
  }

  lemma HitsHaveDistinctPaths(hits: seq<SearchHit>)
    requires forall i, j :: 0 <= i < j < |hits| ==> Keys(hits)[i].path != Keys(hits)[j].path
    ensures forall i, j :: 0 <= i < j < |hits| ==> hits[i].path != hits[j].path
  {
    forall i, j | 0 <= i < j < |hits| ensures hits[i].path != hits[j].path {
      assert Keys(hits)[i].path != Keys(hits)[j].path;
    }
  }

  lemma SortingRanks(hits: seq<SearchHit>, candidates: seq<Key>)
    requires Keys(hits) == candidates && forall i, j :: 0 <= i < j < |hits| ==> hits[i].path != hits[j].path
    ensures Ranked(Keys(Sorted(hits))) && multiset(Keys(Sorted(hits))) == multiset(candidates)
  {
    SortedIsRanked(hits);
    KeysOfPermutation(Sorted(hits), hits);
  }

  lemma KeysOfFirst(hits: seq<SearchHit>, n: nat)
    requires n <= |hits|
    ensures Keys(hits[..n]) == Keys(hits)[..n]
  {
  }

  /** Everything kept outranks everything left, and as much as allowed is kept. */
  lemma TopIsBest(keys: seq<Key>, candidates: seq<Key>, limit: nat, kept: Key, other: Key)
    requires IsTop(keys, candidates, limit)
    ensures Ranked(keys) && |keys| == if limit < |candidates| then limit else |candidates|
    ensures kept in keys ==> kept in candidates
    ensures kept in keys && other in candidates && other !in keys ==> Outranks(kept, other)
  {
    var ranking: seq<Key> :| IsTopOf(keys, ranking, candidates, limit);
    SameLength(ranking, candidates);
    if kept in keys { assert kept in multiset(ranking); }
    if kept in keys && other in candidates && other !in keys {
      assert other in multiset(ranking);
      var i :| 0 <= i < |keys| && keys[i] == kept;
      var j :| 0 <= j < |ranking| && ranking[j] == other;
      assert ranking[i] == kept && j >= |keys|;
    }
  }

  lemma {:induction false} CandidatesOfPermutation(a: seq<Relation>, b: seq<Relation>, terms: seq<Term>,
                                                   options: SearchOptions)
    requires terms != [] && multiset(a) == multiset(b)
    ensures multiset(Candidates(a, terms, options)) == multiset(Candidates(b, terms, options))
    decreases |a|
  {
    if a == [] {
      assert |multiset(b)| == |b|;
    } else {
      var n := |a| - 1;
      assert a[n] in multiset(a) && a[n] in multiset(b);
      var i :| 0 <= i < |b| && b[i] == a[n];
      PermutationRest(a, b, i);
      CandidatesOfPermutation(a[..n], b[..i] + b[i + 1..], terms, options);
      CandidatesWithout(a, n, terms, options);
      CandidatesWithout(b, i, terms, options);
      assert a[..n] + a[n + 1..] == a[..n];
    }
  }

  lemma CandidatesWithout(s: seq<Relation>, i: nat, terms: seq<Term>, options: SearchOptions)
    requires terms != [] && i < |s|
    ensures multiset(Candidates(s, terms, options)) ==
      multiset(Candidates(s[..i] + s[i + 1..], terms, options)) + multiset(Candidates([s[i]], terms, options))
  {
    assert s == s[..i] + [s[i]] + s[i + 1..];
    CandidatesConcat(s[..i], [s[i]], terms, options);
    CandidatesConcat(s[..i] + [s[i]], s[i + 1..], terms, options);
    CandidatesConcat(s[..i], s[i + 1..], terms, options);
  }

  lemma {:induction false} CandidatesConcat(a: seq<Relation>, b: seq<Relation>, terms: seq<Term>,
                                            options: SearchOptions)
    requires terms != []
    ensures Candidates(a + b, terms, options) == Candidates(a, terms, options) + Candidates(b, terms, options)
    decreases |b|
  {
    if b == [] {
      assert a + b == a;
    } else {
      var n := |b| - 1;
      assert (a + b)[..|a + b| - 1] == a + b[..n];
      CandidatesConcat(a, b[..n], terms, options);
    }
  }

  /** The result does not depend on the order the catalog is walked in. */
  lemma ResultIgnoresIterationOrder(a: seq<Relation>, b: seq<Relation>, terms: seq<Term>, options: SearchOptions,
                                    first: seq<Key>, second: seq<Key>)
    requires terms != [] && multiset(a) == multiset(b)
    requires IsTop(first, Candidates(a, terms, options), options.limit)
    requires IsTop(second, Candidates(b, terms, options), options.limit)
    ensures first == second
  {
    CandidatesOfPermutation(a, b, terms, options);
    var one: seq<Key> :| IsTopOf(first, one, Candidates(a, terms, options), options.limit);
    var two: seq<Key> :| IsTopOf(second, two, Candidates(b, terms, options), options.limit);
    RankingIsUnique(one, two);
  }
}
