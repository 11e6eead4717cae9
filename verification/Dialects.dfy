/** How each dialect reads a delimited identifier, said dialect by dialect and apart from how one is written.

    The doubling readers follow the delimited identifiers of ISO/IEC 9075-2, section 5.2; ClickHouse and
    BigQuery process backslash escapes between their backquotes.
  */
module Dialects {
  import opened Options
  import opened Quoting

  /** The characters around an identifier, and whether escapes are processed between them. */
  datatype Delimiters = Delimiters(opening: char, closing: char, escapes: bool)

  function DelimitersOf(dialect: SqlDialect): Delimiters {
    match dialect
    case Ansi => Delimiters('\"', '\"', false)
    case Postgres => Delimiters('\"', '\"', false)
    case MySql => Delimiters('`', '`', false)
    case Sqlite => Delimiters('\"', '\"', false)
    case SqlServer => Delimiters('[', ']', false)
    case Oracle => Delimiters('\"', '\"', false)
    case ClickHouse => Delimiters('`', '`', true)
    case DuckDb => Delimiters('\"', '\"', false)
    case Snowflake => Delimiters('\"', '\"', false)
    case BigQuery => Delimiters('`', '`', true)
    case Redshift => Delimiters('\"', '\"', false)
  }

  /** Reads one delimited identifier and leaves the text after it. */
  function ReadIdentifier(dialect: SqlDialect, s: string): (read: Option<(string, string)>)
    ensures read.Some? ==> |read.value.1| < |s|
  {
    var delimiters := DelimitersOf(dialect);
    if s == [] || s[0] != delimiters.opening then None
    else if delimiters.escapes then ReadEscaped(s[1..], delimiters.closing)
    else ReadDoubled(s[1..], delimiters.closing)
  }

  /** May this text follow a delimited identifier without being read into it? */
  predicate EndsIdentifier(dialect: SqlDialect, tail: string) {
    DelimitersOf(dialect).escapes || tail == [] || tail[0] != DelimitersOf(dialect).closing
  }

  /** BigQuery, whose names are written by doubling, only reads those that have nothing to double or escape. */
  predicate Survives(dialect: SqlDialect, name: string) {
    dialect == BigQuery ==> !NeedsBackslash(name)
  }

  function Slashes(n: nat): string {
    if n == 0 then "" else Slashes(n - 1) + "\\"
  }

  lemma {:induction false} SlashFirst(n: nat)
    ensures n > 0 ==> Slashes(n) == "\\" + Slashes(n - 1)
  {
    if n > 1 { SlashFirst(n - 1); }
  }

  /** A backslash alone: what comes after it is written as no backslash. */
  lemma LoneSlash(name: string, tail: string)
    requires name != [] && name[0] == '\\' && (|name| == 1 || name[1] != '\\')
    ensures var s := Doubled(name, '`') + "`" + tail; |s| > 1 && s[0] == '\\' && s[1] != '\\'
  {
    if |name| > 1 { assert Doubled(name[1..], '`')[0] == name[1]; }
  }

  lemma ReadsFirst(s: string)
    requires s != []
    ensures s[0] == '`' ==> ReadEscaped(s, '`') == Some(([], s[1..]))
    ensures s[0] != '`' && s[0] != '\\' ==> StartsOtherwise(ReadEscaped(s, '`'))
    ensures s[0] == '\\' && |s| > 1 && s[1] != '\\' ==> StartsOtherwise(ReadEscaped(s, '`'))
    ensures s[0] == '\\' && |s| > 1 && s[1] == '\\' ==>
      ReadEscaped(s, '`') == Prepend('\\', ReadEscaped(s[2..], '`'))
  {
    if s[0] == '\\' && |s| > 1 {
      if s[1] != '\\' { UnescapesToNoSlash(s[1]); }
    } else if s[0] != '`' && s[0] != '\\' {
      assert ReadEscaped(s, '`') == Prepend(s[0], ReadEscaped(s[1..], '`'));
    }
  }

  /** Something is read, and it starts with no backslash, if anything is. */
  predicate StartsOtherwise(read: Option<(string, string)>) {
    read.Some? ==> read.value.0 != [] && read.value.0[0] != '\\'
  }

  lemma UnescapesToNoSlash(c: char)
    requires c != '\\'
    ensures Unescape(c).Some? ==> Unescape(c).value != '\\'
  {
  }

  /** Once reading with escapes has fallen behind by some backslashes, it never catches up. */
  lemma {:induction false} NeverCatchesUp(behind: nat, name: string, tail: string)
    requires behind > 0
    ensures var read := ReadEscaped(Doubled(name, '`') + "`" + tail, '`');
      read.Some? ==> read.value.0 != Slashes(behind) + name
    decreases |name|
  {
    var s := Doubled(name, '`') + "`" + tail;
    SlashFirst(behind);
    ReadsFirst(s);
    assert (Slashes(behind) + name)[0] == '\\';
    if name != [] && name[0] == '\\' {
      if |name| > 1 && name[1] == '\\' {
        TwoSlashes(name, tail);
        NeverCatchesUp(behind + 1, name[2..], tail);
        SlashesTaken(behind, name);
        StaysApart('\\', ReadEscaped(s[2..], '`'), Slashes(behind + 1) + name[2..]);
      } else {
        LoneSlash(name, tail);
      }
    } else if name != [] {
      assert s[0] == name[0];
    } else {
      assert s[0] == '`';
    }
  }

  lemma StaysApart(c: char, read: Option<(string, string)>, other: string)
    requires read.Some? ==> read.value.0 != other
    ensures Prepend(c, read).Some? ==> Prepend(c, read).value.0 != [c] + other
  {
    if read.Some? {
      assert ([c] + read.value.0)[1..] == read.value.0 && ([c] + other)[1..] == other;
    }
  }

  lemma TwoSlashes(name: string, tail: string)
    requires |name| > 1 && name[0] == name[1] == '\\'
    ensures var s := Doubled(name, '`') + "`" + tail;
      |s| > 1 && s[0] == s[1] == '\\' && s[2..] == Doubled(name[2..], '`') + "`" + tail
  {
    assert Doubled(name, '`') == "\\" + ("\\" + Doubled(name[2..], '`'));
  }

  lemma SlashesTaken(behind: nat, name: string)
    requires |name| > 1 && name[0] == name[1] == '\\'
    ensures Slashes(behind) + name == "\\" + (Slashes(behind + 1) + name[2..])
  {
    assert name == "\\" + "\\" + name[2..];
    SlashFirst(behind + 1);
    SlashFirst(behind + 2);
    assert Slashes(behind) + name == Slashes(behind) + "\\" + "\\" + name[2..];
  }

  /** A name that holds a backquote or a backslash, written by doubling, is never read with escapes as itself. */
  lemma {:induction false} MisreadAsAnother(name: string, tail: string)
    requires NeedsBackslash(name)
    ensures var read := ReadEscaped(Doubled(name, '`') + "`" + tail, '`');
      read.Some? ==> read.value.0 != name
    decreases |name|
  {
    var s := Doubled(name, '`') + "`" + tail;
    ReadsFirst(s);
    if name[0] == '\\' {
      if |name| > 1 && name[1] == '\\' {
        TwoSlashes(name, tail);
        NeverCatchesUp(1, name[2..], tail);
        SlashesTaken(0, name);
        StaysApart('\\', ReadEscaped(s[2..], '`'), Slashes(1) + name[2..]);
      } else {
        LoneSlash(name, tail);
      }
    } else if name[0] != '`' {
      assert s[1..] == Doubled(name[1..], '`') + "`" + tail;
      MisreadAsAnother(name[1..], tail);
    }
  }

  /** What is written for a dialect is read by that dialect as the name, and nothing more, exactly when the
      name survives; else, if it is read at all, it is as another name. */
  lemma IdentifierReadsBack(name: string, dialect: SqlDialect, tail: string)
    requires EndsIdentifier(dialect, tail)
    ensures var read := ReadIdentifier(dialect, Quoted(name, StyleFor(dialect)) + tail);
      if Survives(dialect, name) then read == Some((name, tail)) else read.Some? ==> read.value.0 != name
  {
    var s := Quoted(name, StyleFor(dialect)) + tail;
    if dialect == BigQuery {
      BigQueryReads(name, tail);
    } else {
      ReadAsWritten(dialect, s, tail);
      QuotedReadsBack(name, StyleFor(dialect), tail);
    }
  }

  lemma BigQueryReads(name: string, tail: string)
    ensures var read := ReadIdentifier(BigQuery, Quoted(name, Backtick) + tail);
      if NeedsBackslash(name) then read.Some? ==> read.value.0 != name else read == Some((name, tail))
  {
    var s := Quoted(name, Backtick) + tail;
    assert s[1..] == Doubled(name, '`') + "`" + tail;
    if NeedsBackslash(name) { MisreadAsAnother(name, tail); } else { PlainReadsBack(name, tail); }
  }

  /** Every other dialect reads in the style it is written in. */
  lemma ReadAsWritten(dialect: SqlDialect, s: string, tail: string)
    requires dialect != BigQuery
    ensures ReadIdentifier(dialect, s) == ReadQuoted(StyleFor(dialect), s)
    ensures EndsIdentifier(dialect, tail) <==> Ends(StyleFor(dialect), tail)
  {
  }

  ghost function IdentifierReader(dialect: SqlDialect): (read: Reader)
    ensures Consumes(read)
  {
    s => ReadIdentifier(dialect, s)
  }
}
