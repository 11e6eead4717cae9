/** What completion writes for a path: a level goes in unquoted only where the dialect
    would read that word as this very name. */
module Insertion {
  import opened Options
  import opened Quoting
  import opened Dialects
  import Paths

  // ---------- the order of words ----------

  /** The order of the code points, character by character. */
  predicate Below(a: string, b: string) {
    b != [] && (a == [] || a[0] < b[0] || (a[0] == b[0] && Below(a[1..], b[1..])))
  }

  lemma {:induction false} BelowIsTotal(a: string, b: string)
    ensures Below(a, b) || a == b || Below(b, a)
    decreases |a|
  {
    if a != [] && b != [] && a[0] == b[0] {
      BelowIsTotal(a[1..], b[1..]);
      assert a == [a[0]] + a[1..] && b == [b[0]] + b[1..];
    }
  }

  lemma {:induction false} BelowIsStrict(a: string)
    ensures !Below(a, a)
    decreases |a|
  {
    if a != [] { BelowIsStrict(a[1..]); }
  }

  lemma {:induction false} BelowIsTransitive(a: string, b: string, c: string)
    requires Below(a, b) && Below(b, c)
    ensures Below(a, c)
    decreases |a|
  {
    if a != [] && a[0] == b[0] == c[0] {
      BelowIsTransitive(a[1..], b[1..], c[1..]);
    }
  }

  /** Each word is below the next. */
  ghost predicate StrictlyAscending(words: seq<string>) {
    forall i :: 0 <= i < |words| - 1 ==> Below(words[i], words[i + 1])
  }

  lemma {:induction false} AscendingApart(words: seq<string>, i: nat, j: nat)
    requires StrictlyAscending(words) && i < j < |words|
    ensures Below(words[i], words[j])
    decreases j - i
  {
    if i + 1 < j {
      AscendingApart(words, i + 1, j);
      BelowIsTransitive(words[i], words[i + 1], words[j]);
    }
  }

  method BinarySearch(words: seq<string>, word: string) returns (found: bool)
    requires StrictlyAscending(words)
    ensures found <==> word in words
  {
    var low, high := 0, |words|;
    while low < high
      invariant 0 <= low <= high <= |words|
      invariant forall i :: 0 <= i < low || high <= i < |words| ==> words[i] != word
    {
      var mid := (low + high) / 2;
      BelowIsTotal(words[mid], word);
      if words[mid] == word {
        return true;
      }
      forall i | 0 <= i < |words|
        ensures Below(words[mid], word) && i <= mid ==> words[i] != word
        ensures Below(word, words[mid]) && mid <= i ==> words[i] != word
      {
        if words[i] == word && i != mid {
          BelowIsStrict(word);
          if i < mid {
            AscendingApart(words, i, mid);
            if Below(words[mid], word) { BelowIsTransitive(word, words[mid], word); }
          } else {
            AscendingApart(words, mid, i);
            if Below(word, words[mid]) { BelowIsTransitive(word, words[mid], word); }
          }
        }
      }
      if Below(words[mid], word) {
        low := mid + 1;
      } else {
        high := mid;
      }
    }
    return false;
  }

  // ---------- reserved words ----------

  /** The recorded word lists; what they hold is not part of this model. */
  datatype WordLists = WordLists(
    postgres: seq<string>, sqlite: seq<string>, mysql: seq<string>, mariadb: seq<string>, duckdb: seq<string>) {
    ghost predicate Valid() {
      && StrictlyAscending(postgres) && StrictlyAscending(sqlite) && StrictlyAscending(mysql)
      && StrictlyAscending(mariadb) && StrictlyAscending(duckdb)
    }

    /** The words a dialect reserves, when they are recorded. */
    function Reserved(dialect: SqlDialect): Option<seq<string>> {
      match dialect
      case Postgres => Some(postgres)
      case Sqlite => Some(sqlite)
      case MySql => Some(mysql + mariadb)
      case DuckDb => Some(duckdb)
      case _ => None
    }
  }

  function NeedsQuoting(lists: WordLists, dialect: SqlDialect, name: string): Option<bool> {
    var words := lists.Reserved(dialect);
    if words.Some? then Some(name in words.value) else None
  }

  /** The dialects whose reserved words are recorded; MySQL's stand for MariaDB's as well. */
  lemma RecordedDialects(lists: WordLists, dialect: SqlDialect, word: string)
    ensures lists.Reserved(dialect).Some? <==> dialect in {Postgres, Sqlite, MySql, DuckDb}
    ensures NeedsQuoting(lists, Postgres, word) == Some(word in lists.postgres)
    ensures NeedsQuoting(lists, Sqlite, word) == Some(word in lists.sqlite)
    ensures NeedsQuoting(lists, MySql, word) == Some(word in lists.mysql || word in lists.mariadb)
    ensures NeedsQuoting(lists, DuckDb, word) == Some(word in lists.duckdb)
  {
  }

  method LooksUpReserved(lists: WordLists, dialect: SqlDialect, name: string) returns (needs: Option<bool>)
    requires lists.Valid()
    ensures needs == NeedsQuoting(lists, dialect, name)
  {
    match dialect
    case Postgres => var found := BinarySearch(lists.postgres, name); return Some(found);
    case Sqlite => var found := BinarySearch(lists.sqlite, name); return Some(found);
    case DuckDb => var found := BinarySearch(lists.duckdb, name); return Some(found);
    case MySql =>
      var found := BinarySearch(lists.mysql, name);
      if !found {
        found := BinarySearch(lists.mariadb, name);
      }
      return Some(found);
    case _ => return None;
  }

  // ---------- the inserted form ----------

  predicate IsWordStart(c: char) {
    'a' <= c <= 'z' || c == '_'
  }

  predicate IsWordPart(c: char) {
    IsWordStart(c) || '0' <= c <= '9'
  }

  predicate IsSimple(name: string) {
    name != [] && IsWordStart(name[0]) && forall i :: 0 <= i < |name| ==> IsWordPart(name[i])
  }

  predicate GoesBare(lists: WordLists, dialect: SqlDialect, name: string) {
    IsSimple(name) && NeedsQuoting(lists, dialect, name) == Some(false)
  }

  function InsertionForm(lists: WordLists, dialect: SqlDialect, name: string): string {
    if GoesBare(lists, dialect, name) then name else Quoted(name, StyleFor(dialect))
  }

  function InsertionForms(lists: WordLists, dialect: SqlDialect, names: seq<string>): seq<string> {
    seq(|names|, i requires 0 <= i < |names| => InsertionForm(lists, dialect, names[i]))
  }

  function InsertionSql(lists: WordLists, dialect: SqlDialect, path: Paths.CatalogPath): string {
    Dotted(InsertionForms(lists, dialect, path.Segments()))
  }

  // ---------- reading it ----------

  /** What may start a bare word, and go on in it. */
  predicate StartsBareWord(c: char) {
    'a' <= c <= 'z' || 'A' <= c <= 'Z' || c == '_'
  }

  predicate GoesOnInBareWord(c: char) {
    StartsBareWord(c) || '0' <= c <= '9'
  }

  /** A bare word is read without regard to case. */
  function Folded(c: char): char {
    if 'A' <= c <= 'Z' then ((c as int) + 32) as char else c
  }

  /** The longest bare word, folded, and what follows. */
  function ReadWord(s: string): (read: (string, string))
    ensures |read.0| + |read.1| == |s|
  {
    if s == [] || !GoesOnInBareWord(s[0]) then ([], s)
    else
      var (word, rest) := ReadWord(s[1..]);
      ([Folded(s[0])] + word, rest)
  }

  /** Reads an identifier, delimited as the dialect has it, or a bare word that is not a reserved one. */
  function ReadName(lists: WordLists, dialect: SqlDialect, s: string): (read: Option<(string, string)>)
    ensures read.Some? ==> |read.value.1| < |s|
  {
    if s == [] || !StartsBareWord(s[0]) then ReadIdentifier(dialect, s)
    else
      var (word, rest) := ReadWord(s);
      var words := lists.Reserved(dialect);
      if words.Some? && word in words.value then None else Some((word, rest))
  }

  lemma {:induction false} WordReadsBack(name: string, tail: string)
    requires forall i :: 0 <= i < |name| ==> IsWordPart(name[i])
    requires tail == [] || !GoesOnInBareWord(tail[0])
    ensures ReadWord(name + tail) == (name, tail)
    decreases name
  {
    if name == [] {
      assert name + tail == tail;
    } else {
      assert (name + tail)[1..] == name[1..] + tail;
      WordReadsBack(name[1..], tail);
      assert name == [name[0]] + name[1..];
    }
  }

  /** May this text follow an inserted name without being read into it? */
  predicate EndsName(dialect: SqlDialect, tail: string) {
    EndsIdentifier(dialect, tail) && (tail == [] || !GoesOnInBareWord(tail[0]))
  }

  lemma FormReadsBack(lists: WordLists, dialect: SqlDialect, name: string, tail: string)
    requires EndsName(dialect, tail)
    ensures var read := ReadName(lists, dialect, InsertionForm(lists, dialect, name) + tail);
      if Survives(dialect, name) then read == Some((name, tail)) else read.Some? ==> read.value.0 != name
  {
    if GoesBare(lists, dialect, name) {
      WordReadsBack(name, tail);
    } else {
      IdentifierReadsBack(name, dialect, tail);
    }
  }

  ghost function NameReader(lists: WordLists, dialect: SqlDialect): (read: Reader)
    ensures Consumes(read)
  {
    s => ReadName(lists, dialect, s)
  }

  /** An inserted path is read as exactly the present levels, some bare, some quoted, if and only if none of
      them is a name the dialect misreads. */
  lemma InsertionReadsBack(lists: WordLists, dialect: SqlDialect, path: Paths.CatalogPath, tail: string)
    requires path.Segments() != []
    requires EndsName(dialect, tail) && (tail == [] || tail[0] != '.')
    ensures ReadDotted(NameReader(lists, dialect), InsertionSql(lists, dialect, path) + tail)
            == Some((path.Segments(), tail))
      <==> forall name :: name in path.Segments() ==> Survives(dialect, name)
  {
    var names, forms := path.Segments(), InsertionForms(lists, dialect, path.Segments());
    var read, right := NameReader(lists, dialect), (name: string) => Survives(dialect, name);
    forall i, after | 0 <= i < |names| && Follows(after, tail)
      ensures ReadsAs(read, forms[i], names[i], right(names[i]), after)
    {
      FormReadsBack(lists, dialect, names[i], after);
    }
    DottedReadsBackExactly(read, names, forms, right, tail);
  }

  /** A name stays as it is exactly when it is a plain word of a dialect whose reserved words
      are recorded, and is none of them. */
  lemma BareExactlyWhenSafe(lists: WordLists, dialect: SqlDialect, name: string)
    ensures InsertionForm(lists, dialect, name) == name
      <==> IsSimple(name) && lists.Reserved(dialect).Some? && name !in lists.Reserved(dialect).value
  {
    QuotingLengthens(name, StyleFor(dialect));
  }

  lemma {:induction false} QuotingLengthens(name: string, style: QuoteStyle)
    ensures |Doubled(name, Closing(style))| >= |name| && |Backslashed(name)| >= |name|
    ensures style != Bare ==> |Quoted(name, style)| > |name|
    decreases name
  {
    if name != [] { QuotingLengthens(name[1..], style); }
  }
}
