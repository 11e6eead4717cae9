/** What a relation answers a term with, and when answering two terms ranks it above a perfect answer
    to one of them.
  */
module SearchAnswers {
  import opened Options
  import opened Paths
  import opened SearchScores
  import opened SearchRanking

  // ---------- what answers a term ----------

  /** How a name answers a term: it is the term, begins with it, holds its words, or holds them but for the
      end of the last. */
  datatype Manner = Whole | Beginning | WholeWords | WordBeginnings | NotAtAll

  datatype Answer = ByName(manner: Manner) | ByField(manner: Manner) | ByComment | Unanswered

  function MannerOf(name: Ident, term: Term): Manner {
    if name.whole == term.text then Whole
    else if term.prefixAllowed && term.text <= name.whole then Beginning
    else if HasRun(name.words, term) then WholeWords
    else if HasPrefixRun(name.words, term) then WordBeginnings
    else NotAtAll
  }

  predicate SomeField(fields: seq<Ident>, term: Term, manner: Manner) {
    exists i :: 0 <= i < |fields| && MannerOf(fields[i], term) == manner
  }

  /** The best manner a field answers in. */
  function FieldManner(fields: seq<Ident>, term: Term): Manner {
    if SomeField(fields, term, Whole) then Whole
    else if SomeField(fields, term, Beginning) then Beginning
    else if SomeField(fields, term, WholeWords) then WholeWords
    else if SomeField(fields, term, WordBeginnings) then WordBeginnings
    else NotAtAll
  }

  /** The relation's own name answers before its fields, and they before its comment. */
  function AnswerOf(relation: Relation, term: Term): (answer: Answer)
    ensures (answer.ByName? || answer.ByField?) ==> answer.manner != NotAtAll
  {
    if MannerOf(relation.name, term) != NotAtAll then ByName(MannerOf(relation.name, term))
    else if FieldManner(relation.fields, term) != NotAtAll then ByField(FieldManner(relation.fields, term))
    else if HasRun(relation.comment, term) || HasPrefixRun(relation.comment, term) then ByComment
    else Unanswered
  }

  function MannerWorth(manner: Manner): real {
    match manner
    case Whole => SCORE_EXACT
    case Beginning => SCORE_PREFIX
    case WholeWords => SCORE_WORD_EXACT
    case WordBeginnings => SCORE_WORD_PREFIX
    case NotAtAll => 0.0
  }

  function Worth(answer: Answer): real {
    match answer
    case ByName(manner) => MannerWorth(manner)
    case ByField(manner) => MannerWorth(manner) * FIELD_FACTOR
    case ByComment => SCORE_COMMENT
    case Unanswered => 0.0
  }

  /** What each answer is worth: a perfect one 1, those of fields three fifths of the name's, a comment a
      quarter. */
  lemma WorthTable()
    ensures Worth(ByName(Whole)) == 1.0 && Worth(ByName(Beginning)) == 0.85
    ensures Worth(ByName(WholeWords)) == 0.75 && Worth(ByName(WordBeginnings)) == 0.6
    ensures Worth(ByField(Whole)) == 0.6 && Worth(ByField(Beginning)) == 0.51
    ensures Worth(ByField(WholeWords)) == 0.45 && Worth(ByField(WordBeginnings)) == 0.36
    ensures Worth(ByComment) == 0.25 && Worth(Unanswered) == 0.0
  {
  }

  lemma NameLevelIsWorth(name: Ident, term: Term)
    ensures NameLevel(name, term) == MannerWorth(MannerOf(name, term))
  {
  }

  lemma SomeFieldOneMore(fields: seq<Ident>, term: Term, manner: Manner)
    requires fields != []
    ensures var n := |fields| - 1;
      SomeField(fields, term, manner) <==> SomeField(fields[..n], term, manner) || MannerOf(fields[n], term) == manner
  {
    var n := |fields| - 1;
    if SomeField(fields[..n], term, manner) {
      var i :| 0 <= i < n && MannerOf(fields[..n][i], term) == manner;
      assert MannerOf(fields[i], term) == manner;
    }
    if SomeField(fields, term, manner) {
      var i :| 0 <= i < |fields| && MannerOf(fields[i], term) == manner;
      if i < n { assert fields[..n][i] == fields[i]; }
    }
  }

  lemma {:induction false} FieldLevelIsWorth(fields: seq<Ident>, term: Term)
    ensures FieldLevel(fields, term) == MannerWorth(FieldManner(fields, term)) * FIELD_FACTOR
    decreases |fields|
  {
    if fields != [] {
      var n := |fields| - 1;
      FieldLevelIsWorth(fields[..n], term);
      NameLevelIsWorth(fields[n], term);
      SomeFieldOneMore(fields, term, Whole);
      SomeFieldOneMore(fields, term, Beginning);
      SomeFieldOneMore(fields, term, WholeWords);
      SomeFieldOneMore(fields, term, WordBeginnings);
    }
  }

  /** The best score of a relation for a term is that of the first thing that answers: name, then fields,
      then comment. */
  lemma LevelIsWorth(relation: Relation, term: Term)
    ensures TermLevel(relation, term) == Worth(AnswerOf(relation, term))
  {
    NameLevelIsWorth(relation.name, term);
    FieldLevelIsWorth(relation.fields, term);
  }

  /** What a hit is said to match is what answers best, the name when nothing does. */
  lemma OriginIsTheAnswer(relation: Relation, term: Term)
    ensures TermOrigin(relation, term) ==
      match AnswerOf(relation, term)
      case ByName(_) => RelationName
      case ByField(_) => FieldName
      case ByComment => Comment
      case Unanswered => RelationName
  {
    NameLevelIsWorth(relation.name, term);
    FieldLevelIsWorth(relation.fields, term);
  }

  // ---------- two terms answered against one ----------

  /** One of the terms is the relation's name, and nothing answers the other. */
  predicate AnswersOnePerfectly(relation: Relation, a: Term, b: Term) {
    || (AnswerOf(relation, a) == ByName(Whole) && AnswerOf(relation, b) == Unanswered)
    || (AnswerOf(relation, a) == Unanswered && AnswerOf(relation, b) == ByName(Whole))
  }

  /** The name, or its beginning. */
  predicate Leading(x: Answer) {
    x == ByName(Whole) || x == ByName(Beginning)
  }

  /** Anything but a comment and the beginning of a field's word. */
  predicate Solid(x: Answer) {
    x.ByName? || (x.ByField? && x.manner != WordBeginnings)
  }

  predicate Middling(x: Answer) {
    x == ByName(WordBeginnings) || x == ByField(Whole)
  }

  /** Two answers that outweigh a perfect one: a leading one, whatever the other; whole words of the name
      beside anything but a comment; the beginning of one of its words or a whole field beside something
      solid; the beginnings of two fields. */
  predicate Outweigh(x: Answer, y: Answer) {
    || Leading(x) || Leading(y)
    || (x == ByName(WholeWords) && y != ByComment) || (y == ByName(WholeWords) && x != ByComment)
    || (Middling(x) && Solid(y)) || (Middling(y) && Solid(x))
    || (x == ByField(Beginning) && y == ByField(Beginning))
  }

  /** Two answers that weigh as much: whole words of the name and a comment. */
  predicate Balance(x: Answer, y: Answer) {
    (x == ByName(WholeWords) && y == ByComment) || (y == ByName(WholeWords) && x == ByComment)
  }

  predicate Answered(x: Answer) {
    !x.Unanswered? && (x.ByName? || x.ByField? ==> x.manner != NotAtAll)
  }

  lemma WeighedAgainstOne(x: Answer, y: Answer)
    requires Answered(x) && Answered(y)
    ensures Worth(x) + Worth(y) > SCORE_EXACT <==> Outweigh(x, y)
    ensures Worth(x) + Worth(y) == SCORE_EXACT <==> Balance(x, y)
  {
  }

  lemma TotalOfTwo(relation: Relation, a: Term, b: Term)
    ensures Total(relation, [a, b]) == Worth(AnswerOf(relation, a)) + Worth(AnswerOf(relation, b))
  {
    assert [a, b][..1] == [a];
    assert [a][..0] == [];
    assert Total(relation, [a]) == TermLevel(relation, a);
    LevelIsWorth(relation, a);
    LevelIsWorth(relation, b);
  }

  lemma Halves(x: real, y: real)
    ensures x / 2.0 > y / 2.0 <==> x > y
    ensures x / 2.0 == y / 2.0 <==> x == y
  {
  }

  /** Of two terms, the mean ranks as the total does. */
  lemma RanksByTotal(relation: Relation, rival: Relation, terms: seq<Term>)
    requires |terms| == 2
    ensures Outranks(KeyFor(relation, terms), KeyFor(rival, terms)) <==>
      || Total(relation, terms) > Total(rival, terms)
      || (Total(relation, terms) == Total(rival, terms) && PathBelow(relation.path, rival.path))
  {
    Halves(Total(relation, terms), Total(rival, terms));
  }

  /** A relation that answers both terms ranks above one that answers a single term perfectly exactly when
      its two answers outweigh a perfect one, or balance it and its path comes first. */
  lemma AnsweringBothRanksAboveExactly(relation: Relation, rival: Relation, a: Term, b: Term)
    requires Answered(AnswerOf(relation, a)) && Answered(AnswerOf(relation, b)) && AnswersOnePerfectly(rival, a, b)
    ensures Outranks(KeyFor(relation, [a, b]), KeyFor(rival, [a, b])) <==>
      || Outweigh(AnswerOf(relation, a), AnswerOf(relation, b))
      || (Balance(AnswerOf(relation, a), AnswerOf(relation, b)) && PathBelow(relation.path, rival.path))
  {
    RanksByTotal(relation, rival, [a, b]);
    TotalOfTwo(relation, a, b);
    TotalOfTwo(rival, a, b);
    WeighedAgainstOne(AnswerOf(relation, a), AnswerOf(relation, b));
  }

  ghost predicate ComesBefore(keys: seq<Key>, k: Key, other: Key) {
    exists i, j :: 0 <= i < j < |keys| && keys[i] == k && keys[j] == other
  }

  lemma ComesBeforeExactly(keys: seq<Key>, k: Key, other: Key)
    requires Ranked(keys) && k in keys && other in keys && k.path != other.path
    ensures ComesBefore(keys, k, other) <==> Outranks(k, other)
  {
    var i :| 0 <= i < |keys| && keys[i] == k;
    var j :| 0 <= j < |keys| && keys[j] == other;
    OutranksIsStrictTotal(k, other, k);
    if j < i { assert Outranks(other, k); }
  }

  /** The same of what a search returns: of two relations of the result, the one answering both terms comes
      before the one answering a single term perfectly exactly then. */
  lemma AnsweringBothComesFirstExactly(relations: seq<Relation>, options: SearchOptions, keys: seq<Key>,
                                       relation: Relation, rival: Relation, a: Term, b: Term)
    requires IsTop(keys, Candidates(relations, [a, b], options), options.limit)
    requires KeyFor(relation, [a, b]) in keys && KeyFor(rival, [a, b]) in keys && relation.path != rival.path
    requires Answered(AnswerOf(relation, a)) && Answered(AnswerOf(relation, b)) && AnswersOnePerfectly(rival, a, b)
    ensures ComesBefore(keys, KeyFor(relation, [a, b]), KeyFor(rival, [a, b])) <==>
      || Outweigh(AnswerOf(relation, a), AnswerOf(relation, b))
      || (Balance(AnswerOf(relation, a), AnswerOf(relation, b)) && PathBelow(relation.path, rival.path))
  {
    TopIsBest(keys, Candidates(relations, [a, b], options), options.limit, keys[0], keys[0]);
    ComesBeforeExactly(keys, KeyFor(relation, [a, b]), KeyFor(rival, [a, b]));
    AnsweringBothRanksAboveExactly(relation, rival, a, b);
  }

  /** A relation whose own name answers both terms ranks above every one that leaves a term unanswered. */
  lemma OwnNameAnsweringBothWins(relation: Relation, rival: Relation, a: Term, b: Term)
    requires AnswerOf(relation, a).ByName? && AnswerOf(relation, b).ByName?
    requires AnswerOf(rival, a).Unanswered? || AnswerOf(rival, b).Unanswered?
    ensures Outranks(KeyFor(relation, [a, b]), KeyFor(rival, [a, b]))
  {
    RanksByTotal(relation, rival, [a, b]);
    TotalOfTwo(relation, a, b);
    TotalOfTwo(rival, a, b);
  }

  // ---------- a relation that answers both and comes second ----------

  const LOT := Term("lot", ["lot"], true)
  const PRICE := Term("price", ["price"], true)

  /** `shop.sale`, with the columns `m_lot` and `m_price`. */
  const SALE := Relation(CatalogPath(None, Some("shop"), Some("sale")), Ident("sale", "sale", ["sale"]),
    [Ident("m_lot", "m_lot", ["m", "lot"]), Ident("m_price", "m_price", ["m", "price"])], [])

  /** `stock.lot`. */
  const LOTS := Relation(CatalogPath(None, Some("stock"), Some("lot")), Ident("lot", "lot", ["lot"]), [], [])

  lemma NotAnsweredBy(name: Ident, term: Term)
    requires |term.words| == 1 && !(term.text <= name.whole)
    requires forall i :: 0 <= i < |name.words| ==> !(term.words[0] <= name.words[i])
    ensures MannerOf(name, term) == NotAtAll
  {
    forall i: nat | i < |name.words| ensures !RunAt(name.words, term, i) && !PrefixRunAt(name.words, term, i) {
      RunIsLeadsAndTail(name.words, term, i);
    }
  }

  lemma AnsweredByWords(name: Ident, term: Term, i: nat)
    requires i < |name.words| && term.words == [name.words[i]] && !(term.text <= name.whole)
    ensures MannerOf(name, term) == WholeWords
  {
    assert name.words[i..i + 1] == [name.words[i]];
    assert RunAt(name.words, term, i);
  }

  lemma SaleAnswersBoth()
    ensures AnswerOf(SALE, LOT) == ByField(WholeWords) && AnswerOf(SALE, PRICE) == ByField(WholeWords)
  {
    var lot, price := SALE.fields[0], SALE.fields[1];
    assert LOT.text[0] == 'l' && PRICE.text[0] == 'p';
    assert SALE.name.whole[0] == 's' && lot.whole[0] == 'm' && price.whole[0] == 'm' && price.words[0][0] == 'm'
      && price.words[1][0] == 'p';
    NotAnsweredBy(SALE.name, LOT);
    NotAnsweredBy(SALE.name, PRICE);
    AnsweredByWords(lot, LOT, 1);
    NotAnsweredBy(price, LOT);
    AnsweredByWords(price, PRICE, 1);
    NotAnsweredBy(lot, PRICE);
  }

  lemma LotsAnswerOne()
    ensures AnswersOnePerfectly(LOTS, LOT, PRICE)
  {
    NotAnsweredBy(LOTS.name, PRICE);
    assert FieldManner([], PRICE) == NotAtAll;
  }

  /** Two columns that hold the terms as words come after a name that is one of them. */
  lemma AnsweringBothCanComeSecond(options: SearchOptions, keys: seq<Key>)
    requires options.limit >= 2 && options.minScore <= 0.45 && options.accepts(SALE.path) && options.accepts(LOTS.path)
    requires IsTop(keys, Candidates([SALE, LOTS], [LOT, PRICE], options), options.limit)
    ensures Answered(AnswerOf(SALE, LOT)) && Answered(AnswerOf(SALE, PRICE)) && AnswersOnePerfectly(LOTS, LOT, PRICE)
    ensures keys == [KeyFor(LOTS, [LOT, PRICE]), KeyFor(SALE, [LOT, PRICE])]
  {
    SaleAnswersBoth();
    LotsAnswerOne();
    ColumnsComeSecond(SALE, LOTS, LOT, PRICE, options, keys);
  }

  lemma ColumnsComeSecond(relation: Relation, rival: Relation, a: Term, b: Term, options: SearchOptions, keys: seq<Key>)
    requires options.limit >= 2 && options.minScore <= 0.45 && options.accepts(relation.path)
    requires options.accepts(rival.path)
    requires AnswerOf(relation, a) == ByField(WholeWords) && AnswerOf(relation, b) == ByField(WholeWords)
    requires AnswersOnePerfectly(rival, a, b)
    requires IsTop(keys, Candidates([relation, rival], [a, b], options), options.limit)
    ensures keys == [KeyFor(rival, [a, b]), KeyFor(relation, [a, b])]
  {
    var first, second := KeyFor(rival, [a, b]), KeyFor(relation, [a, b]);
    TotalOfTwo(relation, a, b);
    TotalOfTwo(rival, a, b);
    BothCandidates(relation, rival, [a, b], options);
    TopOfTwo(keys, first, second, options.limit);
  }

  lemma TopOfTwo(keys: seq<Key>, first: Key, second: Key, limit: nat)
    requires Outranks(first, second) && limit >= 2 && IsTop(keys, [second, first], limit)
    ensures keys == [first, second]
  {
    var ranking: seq<Key> :| IsTopOf(keys, ranking, [second, first], limit);
    assert multiset([first, second]) == multiset([second, first]);
    RankingIsUnique(ranking, [first, second]);
  }

  lemma BothCandidates(r: Relation, s: Relation, terms: seq<Term>, options: SearchOptions)
    requires terms != [] && IsCandidate(r, terms, options) && IsCandidate(s, terms, options)
    ensures Candidates([r, s], terms, options) == [KeyFor(r, terms), KeyFor(s, terms)]
  {
    assert [r, s][..1] == [r];
    assert [r][..0] == [];
    assert Candidates([r], terms, options) == [KeyFor(r, terms)];
  }
}
