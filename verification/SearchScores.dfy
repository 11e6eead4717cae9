/** Scoring a relation against the terms of a query, and ranking what answered.

    Names come in lower-cased and cut into words; scores are exact fractions.
  */
module SearchScores {
  import opened Options
  import opened OrderedMaps
  import opened Paths
  import opened Insertion

  const SCORE_EXACT: real := 1.0
  const SCORE_PREFIX: real := 0.85
  const SCORE_WORD_EXACT: real := 0.75
  const SCORE_WORD_PREFIX: real := 0.6
  const FIELD_FACTOR: real := 0.6
  const SCORE_COMMENT: real := 0.25

  datatype Term = Term(text: string, words: seq<string>, prefixAllowed: bool)

  datatype Ident = Ident(name: string, whole: string, words: seq<string>)

  // ---------- matching words ----------

  /** The words from `i` are the term's words. */
  predicate RunAt(words: seq<string>, term: Term, i: nat) {
    i + |term.words| <= |words| && words[i..i + |term.words|] == term.words
  }

  /** The same, but for the last word, which the term's last word begins. */
  predicate PrefixRunAt(words: seq<string>, term: Term, i: nat) {
    var n := |term.words|;
    && n > 0 && i + n <= |words|
    && words[i..i + n - 1] == term.words[..n - 1]
    && term.words[n - 1] <= words[i + n - 1]
  }

  predicate HasRun(words: seq<string>, term: Term) {
    term.words != [] && exists i: nat :: i < |words| && RunAt(words, term, i)
  }

  predicate HasPrefixRun(words: seq<string>, term: Term) {
    term.prefixAllowed && exists i: nat :: i < |words| && PrefixRunAt(words, term, i)
  }

  function RunLevel(words: seq<string>, term: Term): real {
    if HasRun(words, term) then SCORE_WORD_EXACT
    else if HasPrefixRun(words, term) then SCORE_WORD_PREFIX
    else 0.0
  }

  /** The best level at which a run of consecutive words answers the term. */
  method RunScore(words: seq<string>, term: Term) returns (best: real)
    ensures best == RunLevel(words, term)
  {
    best := 0.0;
    var n := |term.words|;
    if n == 0 {
      return;
    }
    var i := 0;
    while i + n <= |words|
      invariant forall k: nat :: k < i ==> !RunAt(words, term, k)
      invariant best ==
        if term.prefixAllowed && exists k: nat :: k < i && PrefixRunAt(words, term, k) then SCORE_WORD_PREFIX else 0.0
      invariant i <= |words|
    {
      var leadsMatch := words[i..i + n - 1] == term.words[..n - 1];
      var tail, last := words[i + n - 1], term.words[n - 1];
      RunIsLeadsAndTail(words, term, i);
      if leadsMatch && tail == last {
        return SCORE_WORD_EXACT;
      }
      if leadsMatch && term.prefixAllowed && last <= tail {
        assert PrefixRunAt(words, term, i);
        best := SCORE_WORD_PREFIX;
      }
      i := i + 1;
    }
  }

  lemma RunIsLeadsAndTail(words: seq<string>, term: Term, i: nat)
    requires term.words != [] && i + |term.words| <= |words|
    ensures var n := |term.words|;
      RunAt(words, term, i) <==> words[i..i + n - 1] == term.words[..n - 1] && words[i + n - 1] == term.words[n - 1]
  {
    var n := |term.words|;
    assert words[i..i + n] == words[i..i + n - 1] + [words[i + n - 1]];
    assert term.words == term.words[..n - 1] + [term.words[n - 1]];
  }

  function NameLevel(name: Ident, term: Term): real {
    if name.whole == term.text then SCORE_EXACT
    else if term.prefixAllowed && term.text <= name.whole then SCORE_PREFIX
    else RunLevel(name.words, term)
  }

  method ScoreName(name: Ident, term: Term) returns (score: real)
    ensures score == NameLevel(name, term)
  {
    if name.whole == term.text {
      return SCORE_EXACT;
    }
    if term.prefixAllowed && term.text <= name.whole {
      return SCORE_PREFIX;
    }
    score := RunScore(name.words, term);
  }

  // ---------- rating a relation ----------

  datatype MatchKind = RelationName | FieldName | Comment

  datatype Relation = Relation(path: CatalogPath, name: Ident, fields: seq<Ident>, comment: seq<string>)

  datatype SearchHit = SearchHit(path: CatalogPath, score: real, matched: MatchKind, matchedFields: seq<string>)

  function FieldLevel(fields: seq<Ident>, term: Term): real {
    if fields == [] then 0.0
    else
      var n := |fields| - 1;
      var before, last := FieldLevel(fields[..n], term), NameLevel(fields[n], term) * FIELD_FACTOR;
      if last > before then last else before
  }

  /** The best a relation answers a term with, and what answered. */
  function TermLevel(relation: Relation, term: Term): real {
    var named := NameLevel(relation.name, term);
    var best := if FieldLevel(relation.fields, term) > named then FieldLevel(relation.fields, term) else named;
    if SCORE_COMMENT > best && RunLevel(relation.comment, term) > 0.0 then SCORE_COMMENT else best
  }

  function TermOrigin(relation: Relation, term: Term): MatchKind {
    var named := NameLevel(relation.name, term);
    var best := if FieldLevel(relation.fields, term) > named then FieldLevel(relation.fields, term) else named;
    if SCORE_COMMENT > best && RunLevel(relation.comment, term) > 0.0 then Comment
    else if FieldLevel(relation.fields, term) > named then FieldName
    else RelationName
  }

  function Total(relation: Relation, terms: seq<Term>): real {
    if terms == [] then 0.0
    else Total(relation, terms[..|terms| - 1]) + TermLevel(relation, terms[|terms| - 1])
  }

  predicate Answers(name: Ident, term: Term) {
    NameLevel(name, term) > 0.0
  }

  lemma {:induction false} FieldLevelBounds(fields: seq<Ident>, term: Term)
    ensures 0.0 <= FieldLevel(fields, term) <= FIELD_FACTOR
  {
    if fields != [] { FieldLevelBounds(fields[..|fields| - 1], term); }
  }

  lemma TermLevelBounds(relation: Relation, term: Term)
    ensures 0.0 <= TermLevel(relation, term) <= SCORE_EXACT
  {
    FieldLevelBounds(relation.fields, term);
  }

  lemma {:induction false} TotalBounds(relation: Relation, terms: seq<Term>)
    ensures 0.0 <= Total(relation, terms) <= |terms| as real
    ensures Total(relation, terms) > 0.0 <==> exists i: nat :: i < |terms| && AnswersTerm(relation, terms[i])
  {
    if terms != [] {
      var n := |terms| - 1;
      TotalBounds(relation, terms[..n]);
      TermLevelBounds(relation, terms[n]);
      if i: nat :| i < |terms| && AnswersTerm(relation, terms[i]) {
        if i < n { assert AnswersTerm(relation, terms[..n][i]); }
      }
      if Total(relation, terms[..n]) > 0.0 {
        var i: nat :| i < n && AnswersTerm(relation, terms[..n][i]);
        assert AnswersTerm(relation, terms[i]);
      }
    }
  }

  predicate AnswersTerm(relation: Relation, term: Term) {
    TermLevel(relation, term) > 0.0
  }

  /** The fields that answer a term, added to those that answered before; and the best of them. */
  method RateFields(fields: seq<Ident>, term: Term, named: real, kept: seq<string>)
    returns (score: real, origin: MatchKind, names: seq<string>)
    requires Distinct(kept) && named >= 0.0
    ensures var best := FieldLevel(fields, term);
      score == (if best > named then best else named) && origin == (if best > named then FieldName else RelationName)
    ensures Distinct(names)
    ensures forall name :: name in names <==> name in kept || AnsweredIn(fields, |fields|, term, name)
  {
    score, origin, names := named, RelationName, kept;
    for i := 0 to |fields|
      invariant var best := FieldLevel(fields[..i], term);
        score == (if best > named then best else named) && origin == (if best > named then FieldName else RelationName)
      invariant Distinct(names)
      invariant forall name :: name in names <==> name in kept || AnsweredIn(fields, i, term, name)
    {
      assert fields[..i + 1][..i] == fields[..i];
      var level := ScoreName(fields[i], term);
      var ofField := level * FIELD_FACTOR;
      if ofField > score {
        score, origin := ofField, FieldName;
      }
      AnsweredOneMore(fields, i, term);
      if ofField > 0.0 && fields[i].name !in names {
        names := names + [fields[i].name];
      }
    }
    assert fields[..|fields|] == fields;
  }

  predicate AnsweredIn(fields: seq<Ident>, n: nat, term: Term, name: string)
    requires n <= |fields|
  {
    exists i: nat :: i < n && fields[i].name == name && Answers(fields[i], term)
  }

  lemma AnsweredOneMore(fields: seq<Ident>, n: nat, term: Term)
    requires n < |fields|
    ensures forall name :: AnsweredIn(fields, n + 1, term, name) <==>
      AnsweredIn(fields, n, term, name) || (fields[n].name == name && Answers(fields[n], term))
  {
    forall name | AnsweredIn(fields, n, term, name) || (fields[n].name == name && Answers(fields[n], term))
      ensures AnsweredIn(fields, n + 1, term, name)
    {
      if fields[n].name != name || !Answers(fields[n], term) {
        var i: nat :| i < n && fields[i].name == name && Answers(fields[i], term);
        assert i < n + 1 && fields[i].name == name && Answers(fields[i], term);
      }
    }
  }

  /** Some field of that name answers one of the first `n` terms. */
  predicate FieldAnswersOne(relation: Relation, terms: seq<Term>, n: nat, name: string)
    requires n <= |terms|
  {
    exists j: nat :: j < n && AnsweredIn(relation.fields, |relation.fields|, terms[j], name)
  }

  /** Of the first `n` terms, one is answered best, and by that. */
  ghost predicate BestAnswer(relation: Relation, terms: seq<Term>, n: nat, best: real, origin: MatchKind)
    requires n <= |terms|
  {
    && (forall j: nat :: j < n ==> TermLevel(relation, terms[j]) <= best)
    && (best > 0.0 ==>
      exists j: nat :: j < n && TermLevel(relation, terms[j]) == best && TermOrigin(relation, terms[j]) == origin)
  }

  /** The hit says how well and by what the relation answers the terms: its score is the mean of the
      best answers, what it matched by is what gave the best of them, and its fields are those that
      answer, once each. */
  ghost predicate Answering(hit: SearchHit, relation: Relation, terms: seq<Term>)
    requires terms != []
  {
    && hit.path == relation.path
    && hit.score == Total(relation, terms) / |terms| as real
    && Distinct(hit.matchedFields)
    && (forall name :: name in hit.matchedFields <==> FieldAnswersOne(relation, terms, |terms|, name))
    && exists best :: best > 0.0 && BestAnswer(relation, terms, |terms|, best, hit.matched)
  }

  /** Scores a relation: the mean of its best answers term by term, or nothing when no term is answered. */
  method Rate(relation: Relation, terms: seq<Term>) returns (hit: Option<SearchHit>)
    requires terms != []
    ensures hit.Some? <==> exists i: nat :: i < |terms| && AnswersTerm(relation, terms[i])
    ensures hit.Some? ==> Answering(hit.value, relation, terms) && 0.0 < hit.value.score <= 1.0
  {
    var total, best, origin, kept := 0.0, 0.0, RelationName, [];
    for j := 0 to |terms|
      invariant total == Total(relation, terms[..j])
      invariant Distinct(kept)
      invariant forall name :: name in kept <==> FieldAnswersOne(relation, terms, j, name)
      invariant best >= 0.0 && BestAnswer(relation, terms, j, best, origin)
    {
      assert terms[..j + 1][..j] == terms[..j];
      var named := ScoreName(relation.name, terms[j]);
      var score, termOrigin, names := RateFields(relation.fields, terms[j], named, kept);
      var commented := RunScore(relation.comment, terms[j]);
      if SCORE_COMMENT > score && commented > 0.0 {
        score, termOrigin := SCORE_COMMENT, Comment;
      }
      FieldAnswersOneMore(relation, terms, j);
      kept := names;
      total := total + score;
      BestOneMore(relation, terms, j, best, origin);
      if score > best {
        best, origin := score, termOrigin;
      }
    }
    assert terms[..|terms|] == terms;
    TotalBounds(relation, terms);
    if total <= 0.0 {
      return None;
    }
    MeanBounds(total, |terms|);
    hit := Some(SearchHit(relation.path, total / |terms| as real, origin, kept));
  }

  lemma FieldAnswersOneMore(relation: Relation, terms: seq<Term>, n: nat)
    requires n < |terms|
    ensures forall name :: FieldAnswersOne(relation, terms, n + 1, name) <==>
      FieldAnswersOne(relation, terms, n, name) || AnsweredIn(relation.fields, |relation.fields|, terms[n], name)
  {
  }

  lemma BestOneMore(relation: Relation, terms: seq<Term>, n: nat, best: real, origin: MatchKind)
    requires n < |terms| && BestAnswer(relation, terms, n, best, origin) && best >= 0.0
    ensures var level := TermLevel(relation, terms[n]);
      BestAnswer(relation, terms, n + 1,
        if level > best then level else best, if level > best then TermOrigin(relation, terms[n]) else origin)
  {
  }

  lemma MeanBounds(total: real, n: nat)
    requires n > 0 && 0.0 < total <= n as real
    ensures 0.0 < total / n as real <= 1.0
  {
  }
}
