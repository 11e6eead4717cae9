/** String literals written into a query text, one escaping scheme per family of dialects,
    and a reader of each dialect's literals.

    The readers follow the character string literals of ISO/IEC 9075-2, section 5.3, plus
    the backslash escapes of the engines that have them.
  */
module Literals {
  import opened Characters
  import opened Options
  import opened Quoting

  datatype LiteralError = Nul | ControlCharacter(code: int)

  datatype Escaping = Standard | National | PostgresEscape | Backslash | BackslashQuote

  function EscapingOf(dialect: SqlDialect): Escaping {
    match dialect
    case SqlServer => National
    case Postgres => PostgresEscape
    case Redshift => PostgresEscape
    case MySql => Backslash
    case Snowflake => Backslash
    case ClickHouse => Backslash
    case BigQuery => BackslashQuote
    case _ => Standard
  }

  // ---------- refusing control characters ----------

  predicate Refused(c: char, allowed: char -> bool) {
    IsControl(c) && !allowed(c)
  }

  function RefusalOf(c: char): LiteralError {
    if c == '\0' then Nul else ControlCharacter(c as int)
  }

  function RefuseControls(text: string, allowed: char -> bool): Option<LiteralError> {
    if text == [] then None
    else if Refused(text[0], allowed) then Some(RefusalOf(text[0]))
    else RefuseControls(text[1..], allowed)
  }

  /** The first refused character decides, and only a refused character refuses. */
  lemma {:induction false} FirstRefusedDecides(text: string, allowed: char -> bool)
    ensures RefuseControls(text, allowed).None? <==> forall i :: 0 <= i < |text| ==> !Refused(text[i], allowed)
    ensures forall i :: 0 <= i < |text| && Refused(text[i], allowed)
                        && (forall j :: 0 <= j < i ==> !Refused(text[j], allowed)) ==>
              RefuseControls(text, allowed) == Some(RefusalOf(text[i]))
    decreases text
  {
    if text != [] {
      var rest := text[1..];
      FirstRefusedDecides(rest, allowed);
      assert forall i :: 0 < i < |text| ==> text[i] == rest[i - 1];
      forall i | 0 <= i < |text| && Refused(text[i], allowed) && (forall j :: 0 <= j < i ==> !Refused(text[j], allowed))
        ensures RefuseControls(text, allowed) == Some(RefusalOf(text[i]))
      {
        if i > 0 {
          assert !Refused(text[0], allowed);
          assert forall j :: 0 <= j < i - 1 ==> rest[j] == text[j + 1];
          assert Refused(rest[i - 1], allowed);
        }
      }
    }
  }

  predicate AllowedInLiteral(c: char) {
    c == '\t' || c == '\n' || c == '\r'
  }

  /** Codes below 32 and from 127 to 159 are refused, but for tab, line feed and carriage return. */
  predicate CannotBeWritten(c: char) {
    var code := c as int;
    (code < 32 || 127 <= code <= 159) && code != 9 && code != 10 && code != 13
  }

  /** A value is refused exactly when it holds a character that cannot be written, and for the first one. */
  lemma RefusedExactly(value: string)
    ensures RefuseControls(value, AllowedInLiteral).None? <==>
      forall i :: 0 <= i < |value| ==> !CannotBeWritten(value[i])
    ensures forall i :: 0 <= i < |value| && CannotBeWritten(value[i])
                        && (forall j :: 0 <= j < i ==> !CannotBeWritten(value[j])) ==>
              RefuseControls(value, AllowedInLiteral)
              == Some(if value[i] as int == 0 then Nul else ControlCharacter(value[i] as int))
  {
    FirstRefusedDecides(value, AllowedInLiteral);
    assert forall i :: 0 <= i < |value| ==> (Refused(value[i], AllowedInLiteral) <==> CannotBeWritten(value[i]));
  }

  // ---------- writing ----------

  predicate DoublesBackslash(escaping: Escaping, value: string) {
    match escaping
    case Backslash => true
    case BackslashQuote => true
    case PostgresEscape => '\\' in value
    case _ => false
  }

  function Form(c: char, escaping: Escaping, doubles: bool): string {
    if c == '\'' then if escaping == BackslashQuote then "\\'" else "''"
    else if c == '\\' && doubles then "\\\\"
    else if c == '\n' && escaping == BackslashQuote then "\\n"
    else if c == '\r' && escaping == BackslashQuote then "\\r"
    else if c == '\t' && escaping == BackslashQuote then "\\t"
    else [c]
  }

  function Body(value: string, escaping: Escaping, doubles: bool): string {
    if value == [] then []
    else Form(value[0], escaping, doubles) + Body(value[1..], escaping, doubles)
  }

  function Marker(escaping: Escaping, doubles: bool): string {
    if escaping == National then "N"
    else if escaping == PostgresEscape && doubles then "E"
    else ""
  }

  function Literal(value: string, dialect: SqlDialect): string {
    var escaping := EscapingOf(dialect);
    var doubles := DoublesBackslash(escaping, value);
    Marker(escaping, doubles) + "'" + Body(value, escaping, doubles) + "'"
  }

  lemma {:induction false} BodySnoc(value: string, c: char, escaping: Escaping, doubles: bool)
    ensures Body(value + [c], escaping, doubles) == Body(value, escaping, doubles) + Form(c, escaping, doubles)
    decreases value
  {
    if value == [] {
      assert value + [c] == [c];
    } else {
      assert (value + [c])[1..] == value[1..] + [c];
      BodySnoc(value[1..], c, escaping, doubles);
    }
  }

  /** Appends the literal, or leaves the text exactly as it was. */
  method PushStringLiteral(text: string, value: string, dialect: SqlDialect)
    returns (out: string, refusal: Option<LiteralError>)
    ensures refusal == RefuseControls(value, AllowedInLiteral)
    ensures out == text + if refusal.None? then Literal(value, dialect) else ""
  {
    out := text;
    refusal := RefuseControls(value, AllowedInLiteral);
    if refusal.Some? {
      return;
    }
    var escaping := EscapingOf(dialect);
    var doubles := DoublesBackslash(escaping, value);
    out := AppendOpening(out, escaping, doubles);
    out := AppendBody(out, value, escaping, doubles);
    out := out + "'";
    Assembled(text, Marker(escaping, doubles) + "'", Body(value, escaping, doubles), "'");
  }

  lemma Assembled(text: string, opening: string, body: string, closing: string)
    ensures text + opening + body + closing == text + (opening + body + closing)
  {
  }

  /** The marker, if there is one, and the opening quote. */
  method AppendOpening(text: string, escaping: Escaping, doubles: bool) returns (out: string)
    ensures out == text + (Marker(escaping, doubles) + "'")
  {
    out := text;
    if escaping == National {
      out := out + "N";
    } else if escaping == PostgresEscape && doubles {
      out := out + "E";
    }
    out := out + "'";
  }

  method AppendBody(text: string, value: string, escaping: Escaping, doubles: bool) returns (out: string)
    ensures out == text + Body(value, escaping, doubles)
  {
    out := text;
    for i := 0 to |value|
      invariant out == text + Body(value[..i], escaping, doubles)
    {
      BodyNext(text, value, i, escaping, doubles);
      out := AppendCharacter(out, value[i], escaping, doubles);
    }
    assert value[..|value|] == value;
  }

  lemma BodyNext(text: string, value: string, i: nat, escaping: Escaping, doubles: bool)
    requires i < |value|
    ensures text + Body(value[..i + 1], escaping, doubles)
         == text + Body(value[..i], escaping, doubles) + Form(value[i], escaping, doubles)
  {
    BodySnoc(value[..i], value[i], escaping, doubles);
    assert value[..i + 1] == value[..i] + [value[i]];
  }

  method AppendCharacter(text: string, c: char, escaping: Escaping, doubles: bool) returns (out: string)
    ensures out == text + Form(c, escaping, doubles)
  {
    if c == '\'' && escaping == BackslashQuote {
      out := text + "\\'";
    } else if c == '\'' {
      out := text + "\'\'";
    } else if c == '\\' && doubles {
      out := text + "\\\\";
    } else if c == '\n' && escaping == BackslashQuote {
      out := text + "\\n";
    } else if c == '\r' && escaping == BackslashQuote {
      out := text + "\\r";
    } else if c == '\t' && escaping == BackslashQuote {
      out := text + "\\t";
    } else {
      out := text + [c];
    }
  }

  // ---------- reading ----------

  /** How the inside of a literal is read. */
  datatype Rules = Rules(backslash: bool, doubledQuote: bool, strict: bool)

  /** What a backslash and `c` stand for; a strict dialect refuses an unknown sequence. */
  function Escape(c: char, strict: bool): Option<char> {
    if c == 'n' then Some('\n')
    else if c == 'r' then Some('\r')
    else if c == 't' then Some('\t')
    else if !strict || c == '\\' || c == '\'' || c == '\"' then Some(c)
    else None
  }

  function ReadBody(rules: Rules, s: string): (read: Option<(string, string)>)
    ensures read.Some? ==> |read.value.1| < |s|
    decreases |s|
  {
    if s == [] then None
    else if s[0] == '\\' && rules.backslash then
      if |s| > 1 && Escape(s[1], rules.strict).Some?
      then Prepend(Escape(s[1], rules.strict).value, ReadBody(rules, s[2..]))
      else None
    else if s[0] == '\'' then
      if rules.doubledQuote && |s| > 1 && s[1] == '\'' then Prepend('\'', ReadBody(rules, s[2..]))
      else Some(([], s[1..]))
    else if rules.strict && (s[0] == '\n' || s[0] == '\r') then None
    else Prepend(s[0], ReadBody(rules, s[1..]))
  }

  /** The settings of a session that change how literals are read. */
  datatype Session = Session(standardConformingStrings: bool, noBackslashEscapes: bool)

  /** Reads the literal a dialect sees at the start of `s`, dialect by dialect. */
  function ReadLiteral(dialect: SqlDialect, session: Session, s: string): Option<(string, string)> {
    match dialect
    case Ansi => ReadAfter("'", Rules(false, true, false), s)
    case Sqlite => ReadAfter("'", Rules(false, true, false), s)
    case Oracle => ReadAfter("'", Rules(false, true, false), s)
    case DuckDb => ReadAfter("'", Rules(false, true, false), s)
    case SqlServer => ReadAfter("N'", Rules(false, true, false), s)
    case MySql => ReadAfter("'", Rules(!session.noBackslashEscapes, true, false), s)
    case Snowflake => ReadAfter("'", Rules(true, true, false), s)
    case ClickHouse => ReadAfter("'", Rules(true, true, false), s)
    case BigQuery => ReadAfter("'", Rules(true, false, true), s)
    case Postgres => ReadEither(session, s)
    case Redshift => ReadEither(session, s)
  }

  /** A literal with its escapes, or a plain one, read as the session says. */
  function ReadEither(session: Session, s: string): Option<(string, string)> {
    if "E'" <= s then ReadAfter("E'", Rules(true, true, false), s)
    else ReadAfter("'", Rules(!session.standardConformingStrings, true, false), s)
  }

  function ReadAfter(opening: string, rules: Rules, s: string): Option<(string, string)> {
    if opening <= s then ReadBody(rules, s[|opening|..]) else None
  }

  // ---------- reading undoes writing ----------

  /** Do these rules read the form of every character of `value` as that character? */
  ghost predicate Reads(rules: Rules, escaping: Escaping, doubles: bool, value: string) {
    && (rules.doubledQuote <==> escaping != BackslashQuote)
    && (rules.strict <==> escaping == BackslashQuote)
    && (escaping == BackslashQuote ==> rules.backslash)
    && ('\\' in value ==> (rules.backslash <==> doubles))
  }

  lemma FormReadsBack(rules: Rules, escaping: Escaping, doubles: bool, c: char, rest: string)
    requires Reads(rules, escaping, doubles, [c])
    ensures ReadBody(rules, Form(c, escaping, doubles) + rest) == Prepend(c, ReadBody(rules, rest))
  {
    var s := Form(c, escaping, doubles) + rest;
    if |Form(c, escaping, doubles)| == 2 {
      assert s[2..] == rest;
    } else {
      assert s[1..] == rest;
      assert c == '\\' ==> c in [c];
    }
  }

  lemma {:induction false} BodyReadsBack(rules: Rules, escaping: Escaping, doubles: bool, value: string, tail: string)
    requires Reads(rules, escaping, doubles, value)
    ensures var read := ReadBody(rules, Body(value, escaping, doubles) + "'" + tail);
      if !rules.doubledQuote || tail == [] || tail[0] != '\'' then read == Some((value, tail))
      else read.Some? ==> |read.value.1| < |tail|
    decreases value
  {
    var s := Body(value, escaping, doubles) + "'" + tail;
    if value == [] {
      assert s == "'" + tail;
      assert |tail| > 0 ==> s[2..] == tail[1..];
    } else {
      var rest := Body(value[1..], escaping, doubles) + "'" + tail;
      assert s == Form(value[0], escaping, doubles) + rest;
      FormReadsBack(rules, escaping, doubles, value[0], rest);
      BodyReadsBack(rules, escaping, doubles, value[1..], tail);
      assert value == [value[0]] + value[1..];
    }
  }

  /** A written literal is one literal of its dialect, ends at its last quote and decodes to
      the value, exactly when what follows does not prolong it: whatever the value, and
      whether standard-conforming strings are on or off. */
  lemma LiteralReadsBack(value: string, dialect: SqlDialect, session: Session, tail: string)
    requires dialect == MySql ==> !session.noBackslashEscapes
    ensures ReadLiteral(dialect, session, Literal(value, dialect) + tail) == Some((value, tail))
      <==> dialect == BigQuery || tail == [] || tail[0] != '\''
  {
    var escaping := EscapingOf(dialect);
    var doubles := DoublesBackslash(escaping, value);
    var opening := Marker(escaping, doubles) + "'";
    var s := Literal(value, dialect) + tail;
    var rest := Body(value, escaping, doubles) + "'" + tail;
    assert s == opening + rest;
    var rules := match escaping
      case Standard => Rules(false, true, false)
      case National => Rules(false, true, false)
      case Backslash => Rules(true, true, false)
      case BackslashQuote => Rules(true, false, true)
      case PostgresEscape => Rules(doubles || !session.standardConformingStrings, true, false);
    assert ReadAfter(opening, rules, s) == ReadBody(rules, rest);
    assert !doubles && escaping == PostgresEscape ==> s[0] == '\'';
    assert ReadLiteral(dialect, session, s) == ReadAfter(opening, rules, s);
    BodyReadsBack(rules, escaping, doubles, value, tail);
    assert dialect == BigQuery <==> !rules.doubledQuote;
  }

  /** Every character of `value` with its backslashes doubled. */
  function WithBackslashesDoubled(value: string): string {
    if value == [] then []
    else (if value[0] == '\\' then "\\\\" else [value[0]]) + WithBackslashesDoubled(value[1..])
  }

  lemma {:induction false} BodyOfDoubled(value: string)
    ensures Body(value, Backslash, true) == Body(WithBackslashesDoubled(value), Standard, false)
    decreases value
  {
    if value != [] {
      BodyOfDoubled(value[1..]);
      var d := WithBackslashesDoubled(value);
      if value[0] == '\\' {
        assert d[1..][1..] == WithBackslashesDoubled(value[1..]);
      } else {
        assert d[1..] == WithBackslashesDoubled(value[1..]);
      }
    }
  }

  /** With backslash escapes off, MySQL ends the literal at the same quote; it keeps the
      doubled backslashes, so the decoded text is the value only when it has none. */
  lemma MySqlEndsAtTheSameQuote(value: string, session: Session, tail: string)
    requires session.noBackslashEscapes && (tail == [] || tail[0] != '\'')
    ensures ReadLiteral(MySql, session, Literal(value, MySql) + tail) == Some((WithBackslashesDoubled(value), tail))
    ensures WithBackslashesDoubled(value) == value <==> '\\' !in value
  {
    var s := Literal(value, MySql) + tail;
    var d := WithBackslashesDoubled(value);
    BodyOfDoubled(value);
    assert s[1..] == Body(d, Standard, false) + "'" + tail;
    BodyReadsBack(Rules(false, true, false), Standard, false, d, tail);
    DoublingLengthens(value);
  }

  lemma {:induction false} DoublingLengthens(value: string)
    ensures |value| <= |WithBackslashesDoubled(value)|
    ensures '\\' in value ==> |value| < |WithBackslashesDoubled(value)|
    ensures '\\' !in value ==> WithBackslashesDoubled(value) == value
    decreases value
  {
    if value != [] {
      DoublingLengthens(value[1..]);
    }
  }
}
