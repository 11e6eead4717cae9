/** Identifiers quoted for a query text, and the readers that take them apart again.

    The doubling readers follow the delimited identifiers of ISO/IEC 9075-2, section 5.2:
    the closing character, doubled, stands for itself. The backslash reader is the one of
    the engines that process escapes inside a quoted identifier.
  */
module Quoting {
  import opened Options

  datatype SqlDialect =
    | Ansi | Postgres | MySql | Sqlite | SqlServer | Oracle
    | ClickHouse | DuckDb | Snowflake | BigQuery | Redshift

  datatype QuoteStyle = Double | Backtick | Bracket | Bare | BacktickBackslash

  function StyleFor(dialect: SqlDialect): (style: QuoteStyle)
    ensures style != Bare
  {
    match dialect
    case MySql => Backtick
    case BigQuery => Backtick
    case SqlServer => Bracket
    case ClickHouse => BacktickBackslash
    case _ => Double
  }

  function Opening(style: QuoteStyle): char {
    match style
    case Double => '\"'
    case Bracket => '['
    case _ => '`'
  }

  function Closing(style: QuoteStyle): char {
    match style
    case Double => '\"'
    case Bracket => ']'
    case _ => '`'
  }

  // ---------- printing ----------

  function Doubled(name: string, closing: char): string {
    if name == [] then []
    else (if name[0] == closing then [closing, closing] else [name[0]]) + Doubled(name[1..], closing)
  }

  function Backslashed(name: string): string {
    if name == [] then []
    else (if name[0] == '`' || name[0] == '\\' then ['\\', name[0]] else [name[0]]) + Backslashed(name[1..])
  }

  function Quoted(name: string, style: QuoteStyle): string {
    match style
    case Bare => name
    case BacktickBackslash => "`" + Backslashed(name) + "`"
    case _ => [Opening(style)] + Doubled(name, Closing(style)) + [Closing(style)]
  }

  lemma {:induction false} DoubledSnoc(name: string, c: char, closing: char)
    ensures Doubled(name + [c], closing) == Doubled(name, closing) + (if c == closing then [c, c] else [c])
    decreases name
  {
    if name == [] {
      assert name + [c] == [c];
    } else {
      assert (name + [c])[1..] == name[1..] + [c];
      DoubledSnoc(name[1..], c, closing);
    }
  }

  lemma {:induction false} BackslashedSnoc(name: string, c: char)
    ensures Backslashed(name + [c]) == Backslashed(name) + (if c == '`' || c == '\\' then ['\\', c] else [c])
    decreases name
  {
    if name == [] {
      assert name + [c] == [c];
    } else {
      assert (name + [c])[1..] == name[1..] + [c];
      BackslashedSnoc(name[1..], c);
    }
  }

  method QuoteIdentifier(name: string, style: QuoteStyle) returns (quoted: string)
    ensures quoted == Quoted(name, style)
  {
    if style == Bare {
      return name;
    }
    quoted := [Opening(style)];
    if style == BacktickBackslash {
      for i := 0 to |name|
        invariant quoted == "`" + Backslashed(name[..i])
      {
        BackslashedSnoc(name[..i], name[i]);
        assert name[..i + 1] == name[..i] + [name[i]];
        if name[i] == '`' || name[i] == '\\' {
          quoted := quoted + "\\";
        }
        quoted := quoted + [name[i]];
      }
    } else {
      for i := 0 to |name|
        invariant quoted == [Opening(style)] + Doubled(name[..i], Closing(style))
      {
        DoubledSnoc(name[..i], name[i], Closing(style));
        assert name[..i + 1] == name[..i] + [name[i]];
        if name[i] == Closing(style) {
          quoted := quoted + [name[i]];
        }
        quoted := quoted + [name[i]];
      }
    }
    assert name[..|name|] == name;
    quoted := quoted + [Closing(style)];
  }

  // ---------- reading ----------

  type Reader = string -> Option<(string, string)>

  function Prepend(c: char, read: Option<(string, string)>): Option<(string, string)> {
    if read.Some? then Some(([c] + read.value.0, read.value.1)) else None
  }

  /** Reads up to the closing character; doubled, it stands for itself. */
  function ReadDoubled(s: string, closing: char): (read: Option<(string, string)>)
    ensures read.Some? ==> |read.value.1| < |s|
    decreases |s|
  {
    if s == [] then None
    else if s[0] != closing then Prepend(s[0], ReadDoubled(s[1..], closing))
    else if |s| > 1 && s[1] == closing then Prepend(closing, ReadDoubled(s[2..], closing))
    else Some(([], s[1..]))
  }

  /** The character a backslash and `c` stand for; None for a sequence that is an error. */
  function Unescape(c: char): Option<char> {
    if c == '\\' || c == '`' || c == '\'' || c == '\"' || c == '?' then Some(c)
    else if c == 'n' then Some('\n')
    else if c == 'r' then Some('\r')
    else if c == 't' then Some('\t')
    else None
  }

  /** Reads up to the closing character, processing backslash escapes. */
  function ReadEscaped(s: string, closing: char): (read: Option<(string, string)>)
    ensures read.Some? ==> |read.value.0| + |read.value.1| < |s|
    decreases |s|
  {
    if s == [] then None
    else if s[0] == '\\' then
      if |s| > 1 && Unescape(s[1]).Some? then Prepend(Unescape(s[1]).value, ReadEscaped(s[2..], closing))
      else None
    else if s[0] != closing then Prepend(s[0], ReadEscaped(s[1..], closing))
    else Some(([], s[1..]))
  }

  /** Reads one quoted identifier and leaves the text after it. */
  function ReadQuoted(style: QuoteStyle, s: string): (read: Option<(string, string)>)
    ensures read.Some? ==> |read.value.1| < |s|
  {
    if style == Bare || s == [] || s[0] != Opening(style) then None
    else if style == BacktickBackslash then ReadEscaped(s[1..], '`')
    else ReadDoubled(s[1..], Closing(style))
  }

  /** May this text follow a quoted identifier without being read into it? */
  predicate Ends(style: QuoteStyle, tail: string) {
    style == BacktickBackslash || tail == [] || tail[0] != Closing(style)
  }

  lemma {:induction false} DoubledReadsBack(name: string, closing: char, tail: string)
    requires tail == [] || tail[0] != closing
    ensures ReadDoubled(Doubled(name, closing) + [closing] + tail, closing) == Some((name, tail))
    decreases name
  {
    var s := Doubled(name, closing) + [closing] + tail;
    if name == [] {
      assert s == [closing] + tail;
    } else {
      var n := if name[0] == closing then 2 else 1;
      assert s[n..] == Doubled(name[1..], closing) + [closing] + tail;
      DoubledReadsBack(name[1..], closing, tail);
      assert name == [name[0]] + name[1..];
    }
  }

  lemma {:induction false} DoubledReadsOn(name: string, closing: char, tail: string)
    requires tail != [] && tail[0] == closing
    ensures var read := ReadDoubled(Doubled(name, closing) + [closing] + tail, closing);
      read.Some? ==> |read.value.1| < |tail|
    decreases name
  {
    var s := Doubled(name, closing) + [closing] + tail;
    if name == [] {
      assert s == [closing] + tail && s[2..] == tail[1..];
    } else {
      var n := if name[0] == closing then 2 else 1;
      assert s[n..] == Doubled(name[1..], closing) + [closing] + tail;
      DoubledReadsOn(name[1..], closing, tail);
    }
  }

  lemma {:induction false} BackslashedReadsBack(name: string, tail: string)
    ensures ReadEscaped(Backslashed(name) + "`" + tail, '`') == Some((name, tail))
    decreases name
  {
    var s := Backslashed(name) + "`" + tail;
    if name == [] {
      assert s == "`" + tail;
    } else {
      var n := if name[0] == '`' || name[0] == '\\' then 2 else 1;
      assert s[n..] == Backslashed(name[1..]) + "`" + tail;
      BackslashedReadsBack(name[1..], tail);
      assert name == [name[0]] + name[1..];
    }
  }

  /** A quoted name is read back as itself, and nothing more, exactly when what follows
      cannot be taken for the rest of it. */
  lemma QuotedReadsBack(name: string, style: QuoteStyle, tail: string)
    requires style != Bare
    ensures ReadQuoted(style, Quoted(name, style) + tail) == Some((name, tail)) <==> Ends(style, tail)
  {
    if style == BacktickBackslash {
      assert (Quoted(name, style) + tail)[1..] == Backslashed(name) + "`" + tail;
      BackslashedReadsBack(name, tail);
    } else {
      QuotedDoubledReadsBack(name, style, tail);
    }
  }

  lemma QuotedDoubledReadsBack(name: string, style: QuoteStyle, tail: string)
    requires style != Bare && style != BacktickBackslash
    ensures ReadQuoted(style, Quoted(name, style) + tail) == Some((name, tail)) <==> Ends(style, tail)
  {
    var c := Closing(style);
    assert (Quoted(name, style) + tail)[1..] == Doubled(name, c) + [c] + tail;
    if Ends(style, tail) {
      DoubledReadsBack(name, c, tail);
    } else {
      DoubledReadsOn(name, c, tail);
    }
  }

  // ---------- BigQuery reads its backquoted identifiers with escapes ----------

  predicate NeedsBackslash(name: string) {
    '`' in name || '\\' in name
  }

  lemma {:induction false} PlainReadsBack(name: string, tail: string)
    requires !NeedsBackslash(name)
    ensures Doubled(name, '`') == name
    ensures ReadEscaped(name + "`" + tail, '`') == Some((name, tail))
    decreases name
  {
    var s := name + "`" + tail;
    if name == [] {
      assert s == "`" + tail;
    } else {
      assert s[1..] == name[1..] + "`" + tail;
      PlainReadsBack(name[1..], tail);
    }
  }

  /** Reading with escapes what was written by doubling either stops early, or runs past
      the closing quote, or yields fewer characters than were written. */
  lemma {:induction false} EscapesMisreadDoubling(name: string, tail: string)
    requires NeedsBackslash(name)
    ensures var read := ReadEscaped(Doubled(name, '`') + "`" + tail, '`');
      read.Some? ==> |read.value.1| != |tail| || |read.value.0| < |name|
    decreases |name|
  {
    var s := Doubled(name, '`') + "`" + tail;
    if name[0] == '`' {
      assert s[0] == '`';
    } else if name[0] != '\\' {
      assert s[1..] == Doubled(name[1..], '`') + "`" + tail;
      EscapesMisreadDoubling(name[1..], tail);
    } else if |name| > 1 && name[1] != '`' {
      assert s[1..] == Doubled(name[1..], '`') + "`" + tail;
      assert s[2..] == Doubled(name[2..], '`') + "`" + tail;
      if NeedsBackslash(name[2..]) {
        EscapesMisreadDoubling(name[2..], tail);
      } else {
        PlainReadsBack(name[2..], tail);
      }
    } else if |name| > 1 {
      assert s[1..] == Doubled(name[1..], '`') + "`" + tail;
      assert s[2..] == "`" + Doubled(name[2..], '`') + "`" + tail;
      assert s[2] == '`';
      var read := ReadEscaped(s[2..], '`');
      assert read.value.1 == s[3..];
    } else {
      assert s == "\\`" + tail;
      assert s[2..] == tail;
    }
  }

  /** The backquote style is right for BigQuery exactly on the names it leaves unchanged. */
  lemma BigQueryReadsBack(name: string, tail: string)
    ensures StyleFor(BigQuery) == Backtick
    ensures ReadQuoted(BacktickBackslash, Quoted(name, StyleFor(BigQuery)) + tail) == Some((name, tail))
      <==> !NeedsBackslash(name)
  {
    var s := Quoted(name, Backtick) + tail;
    assert s[1..] == Doubled(name, '`') + "`" + tail;
    if NeedsBackslash(name) {
      EscapesMisreadDoubling(name, tail);
    } else {
      PlainReadsBack(name, tail);
    }
  }

  // ---------- names joined by dots ----------

  function Dotted(forms: seq<string>): string {
    if forms == [] then ""
    else if |forms| == 1 then forms[0]
    else forms[0] + "." + Dotted(forms[1..])
  }

  ghost predicate Consumes(read: Reader) {
    forall s :: read(s).Some? ==> |read(s).value.1| < |s|
  }

  /** Reads names until one is not followed by a dot. */
  ghost function ReadDotted(read: Reader, s: string): Option<(seq<string>, string)>
    requires Consumes(read)
    decreases |s|
  {
    var first := read(s);
    if first.None? then None
    else
      var (name, rest) := first.value;
      if rest == [] || rest[0] != '.' then Some(([name], rest))
      else
        var others := ReadDotted(read, rest[1..]);
        if others.Some? then Some(([name] + others.value.0, others.value.1)) else None
  }

  ghost predicate ReadsBack(read: Reader, form: string, name: string, tail: string) {
    read(form + tail) == Some((name, tail))
  }

  /** Every name is read back before a dot and before `tail`. */
  ghost predicate AllReadBack(read: Reader, names: seq<string>, forms: seq<string>, tail: string)
    requires |names| == |forms|
  {
    forall i :: 0 <= i < |names| ==>
      && ReadsBack(read, forms[i], names[i], tail)
      && (forall more: string :: ReadsBack(read, forms[i], names[i], "." + more))
  }

  /** Names each of which is read back before a dot and before `tail` are all read back. */
  lemma {:induction false} DottedReadsBack(read: Reader, names: seq<string>, forms: seq<string>, tail: string)
    requires Consumes(read) && |names| == |forms| && names != []
    requires tail == [] || tail[0] != '.'
    requires AllReadBack(read, names, forms, tail)
    ensures ReadDotted(read, Dotted(forms) + tail) == Some((names, tail))
    decreases |names|
  {
    assert ReadsBack(read, forms[0], names[0], tail);
    if |names| == 1 {
      assert names == [names[0]];
    } else {
      var more := Dotted(forms[1..]) + tail;
      assert ReadsBack(read, forms[0], names[0], "." + more);
      assert Dotted(forms) + tail == forms[0] + ("." + more) && ("." + more)[1..] == more;
      DottedReadsBack(read, names[1..], forms[1..], tail);
      assert names == [names[0]] + names[1..];
    }
  }

  /** What can follow a name that is joined by dots with others, before `tail`. */
  predicate Follows(after: string, tail: string) {
    after == tail || (after != [] && after[0] == '.')
  }

  /** The name is read back when that is `right`, else as another one if at all. */
  ghost predicate ReadsAs(read: Reader, form: string, name: string, right: bool, after: string) {
    if right then ReadsBack(read, form, name, after)
    else read(form + after).Some? ==> read(form + after).value.0 != name
  }

  ghost predicate AllReadAs(read: Reader, names: seq<string>, forms: seq<string>, right: string -> bool, tail: string)
    requires |names| == |forms|
  {
    forall i, after :: 0 <= i < |names| && Follows(after, tail) ==>
      ReadsAs(read, forms[i], names[i], right(names[i]), after)
  }

  lemma FirstRead(read: Reader, s: string)
    requires Consumes(read) && ReadDotted(read, s).Some?
    ensures read(s).Some? && ReadDotted(read, s).value.0 != [] && ReadDotted(read, s).value.0[0] == read(s).value.0
  {
  }

  /** Joined by dots, they are all read back exactly when each of them is. */
  lemma {:induction false} DottedReadsBackExactly(read: Reader, names: seq<string>, forms: seq<string>,
                                                  right: string -> bool, tail: string)
    requires Consumes(read) && |names| == |forms| && names != []
    requires tail == [] || tail[0] != '.'
    requires AllReadAs(read, names, forms, right, tail)
    ensures ReadDotted(read, Dotted(forms) + tail) == Some((names, tail)) <==> forall n :: n in names ==> right(n)
    decreases |names|
  {
    var after := if |names| == 1 then tail else "." + (Dotted(forms[1..]) + tail);
    assert Dotted(forms) + tail == forms[0] + after;
    assert Follows(after, tail) && ReadsAs(read, forms[0], names[0], right(names[0]), after);
    if !right(names[0]) {
      assert names[0] in names;
      if ReadDotted(read, forms[0] + after).Some? { FirstRead(read, forms[0] + after); }
    } else if |names| == 1 {
      assert ReadsBack(read, forms[0], names[0], tail);
      assert names == [names[0]];
    } else {
      assert ReadsBack(read, forms[0], names[0], after) && after[1..] == Dotted(forms[1..]) + tail;
      assert AllReadAs(read, names[1..], forms[1..], right, tail);
      DottedReadsBackExactly(read, names[1..], forms[1..], right, tail);
      assert names == [names[0]] + names[1..];
    }
  }
}
