/** What makes text read from a database harmless inside a prompt.

    The tag word is recognised modulo a small folding of look-alike characters, and
    Unicode format characters between its letters are ignored. What is proved is that
    rewriting leaves no tag, through clamping, line folding and fencing.
  */
module Untrusted {
  import opened Characters
  import opened Options
  import opened TagScanner

  const MARKER: string := "untrusted-database-content"
  const NEUTRALIZED: string := "untrusted_database_content"
  const ELLIPSIS: string := "\U{2026}[truncated]"

  // ---------- characters ----------

  /** The format characters of the Unicode Character Database (general category Cf) that are skipped. */
  predicate IsFormat(c: char) {
    || c == '\U{00AD}'
    || '\U{0600}' <= c <= '\U{0605}'
    || c == '\U{061C}'
    || c == '\U{06DD}'
    || c == '\U{070F}'
    || '\U{0890}' <= c <= '\U{0891}'
    || c == '\U{08E2}'
    || c == '\U{180E}'
    || '\U{200B}' <= c <= '\U{200F}'
    || '\U{202A}' <= c <= '\U{202E}'
    || '\U{2060}' <= c <= '\U{2064}'
    || '\U{2066}' <= c <= '\U{206F}'
    || c == '\U{FEFF}'
    || '\U{FFF9}' <= c <= '\U{FFFB}'
    || c == '\U{110BD}'
    || c == '\U{110CD}'
    || '\U{13430}' <= c <= '\U{1343F}'
    || '\U{1BCA0}' <= c <= '\U{1BCA3}'
    || '\U{1D173}' <= c <= '\U{1D17A}'
    || c == '\U{E0001}'
    || '\U{E0020}' <= c <= '\U{E007F}'
  }

  /** Unicode dashes that read as the separator of the tag. */
  predicate IsDash(c: char) {
    || c == '\U{058A}' || c == '\U{05BE}' || c == '\U{1400}' || c == '\U{1806}'
    || '\U{2010}' <= c <= '\U{2015}'
    || c == '\U{2E17}' || c == '\U{2E1A}' || c == '\U{2E3A}' || c == '\U{2E3B}'
    || c == '\U{2E40}' || c == '\U{2E5D}' || c == '\U{2212}' || c == '\U{301C}'
    || c == '\U{3030}' || c == '\U{30A0}' || c == '\U{FE31}' || c == '\U{FE32}'
    || c == '\U{FE58}' || c == '\U{FE63}' || c == '\U{FF0D}'
  }

  function LookAlike(c: char): char {
    if IsDash(c) then '-'
    else if c == '\U{0410}' || c == '\U{0430}' then 'a'
    else if c == '\U{0412}' || c == '\U{0432}' then 'b'
    else if c == '\U{0421}' || c == '\U{0441}' then 'c'
    else if c == '\U{0500}' || c == '\U{0501}' then 'd'
    else if c == '\U{0415}' || c == '\U{0435}' then 'e'
    else if c == '\U{041F}' || c == '\U{043F}' then 'n'
    else if c == '\U{0406}' || c == '\U{0456}' then 'i'
    else if c == '\U{041E}' || c == '\U{043E}' then 'o'
    else if c == '\U{0420}' || c == '\U{0440}' then 'p'
    else if c == '\U{0413}' || c == '\U{0433}' then 'r'
    else if c == '\U{0405}' || c == '\U{0455}' then 's'
    else if c == '\U{0422}' || c == '\U{0442}' then 't'
    else if '\U{FF01}' <= c <= '\U{FF5E}' then ((c as int) - 0xFEE0) as char
    else c
  }

  function LowerAscii(c: char): char {
    if 'A' <= c <= 'Z' then ((c as int) + 32) as char else c
  }

  function Fold(c: char): char {
    LowerAscii(LookAlike(c))
  }

  // ---------- neutralising the tag ----------

  /** How the tag word is read: format characters are ignored, look-alikes folded. */
  function Look(c: char): Option<char> {
    if IsFormat(c) then None else Some(Fold(c))
  }

  function Neutralized(s: string): string {
    Rewritten(Look, MARKER, NEUTRALIZED, s)
  }

  method NeutralizeMarker(text: string) returns (out: string)
    ensures out == Neutralized(text)
  {
    out := Rewrite(Look, MARKER, NEUTRALIZED, text);
  }

  lemma PlainIsRead(c: char)
    requires c == '_' || c == '-' || 'a' <= c <= 'z'
    ensures Look(c) == Some(c)
  {
  }

  lemma MarkerIsRead()
    ensures forall c :: c in MARKER ==> Look(c) == Some(c)
    ensures forall c :: c in NEUTRALIZED ==> Look(c) == Some(c)
  {
    forall c | c in MARKER || c in NEUTRALIZED ensures Look(c) == Some(c) {
      PlainIsRead(c);
    }
  }

  /** The letter the word starts with occurs in it once more, followed by another letter
      than the word's second one; and the replacement differs at the first separator. */
  lemma MarkerShape()
    ensures |MARKER| == |NEUTRALIZED| == 26
    ensures MARKER[0] == MARKER[4] == NEUTRALIZED[0] == NEUTRALIZED[4] == 'u'
    ensures forall i :: 0 <= i < 26 && (MARKER[i] == 'u' || NEUTRALIZED[i] == 'u') ==> i == 0 || i == 4
    ensures MARKER[1] == NEUTRALIZED[1] == 'n' && MARKER[5] == NEUTRALIZED[5] == 's'
    ensures MARKER[9] == '-' && NEUTRALIZED[9] == '_'
  {
  }

  /** A prefix of `s` of `n` shown characters, of which the last is not the word's. */
  lemma Mismatch(word: string, s: string, k: nat, n: nat)
    requires 0 < n <= |s| && k + n <= |word|
    requires forall i :: 0 <= i < n ==> Look(s[i]).Some?
    requires Look(s[n - 1]) != Some(word[k + n - 1])
    ensures MatchFrom(Look, word, s, k).None?
  {
    if MatchFrom(Look, word, s, k).Some? {
      assert s == s[..n] + s[n..];
      MatchHead(Look, word, s[..n], s[n..], k, n - 1);
    }
  }

  lemma ReplacementBlocksTags()
    ensures BlocksTags(Look, MARKER, NEUTRALIZED)
  {
    MarkerShape();
    forall p: nat, rest: string | p < |NEUTRALIZED|
      ensures MatchFrom(Look, MARKER, NEUTRALIZED[p..] + rest, 0).None?
    {
      NoneStartsInside(p, rest);
    }
    forall k: nat, rest: string | k < |MARKER|
      ensures MatchFrom(Look, MARKER, NEUTRALIZED + rest, k).None?
    {
      NoneContinues(k, rest);
    }
  }

  lemma NoneStartsInside(p: nat, rest: string)
    requires p < |NEUTRALIZED|
    ensures MatchFrom(Look, MARKER, NEUTRALIZED[p..] + rest, 0).None?
  {
    MarkerIsRead();
    MarkerShape();
    var s := NEUTRALIZED[p..] + rest;
    forall i | 0 <= i < 26 - p ensures s[i] == NEUTRALIZED[p + i] && Look(s[i]) == Some(s[i]) {
      assert NEUTRALIZED[p + i] in NEUTRALIZED;
    }
    var n := if p == 0 then 10 else if p == 4 then 2 else 1;
    assert s[n - 1] == NEUTRALIZED[p + n - 1];
    Mismatch(MARKER, s, 0, n);
  }

  lemma NoneContinues(k: nat, rest: string)
    requires k < |MARKER|
    ensures MatchFrom(Look, MARKER, NEUTRALIZED + rest, k).None?
  {
    MarkerIsRead();
    MarkerShape();
    var s := NEUTRALIZED + rest;
    forall i | 0 <= i < 26 ensures s[i] == NEUTRALIZED[i] && Look(s[i]) == Some(s[i]) {
      assert NEUTRALIZED[i] in NEUTRALIZED;
    }
    Mismatch(MARKER, s, k, if k == 0 then 10 else if k == 4 then 2 else 1);
  }

  /** No position of the neutralised text starts a tag, even one seen only through folding
      and ignored characters; neutralising again changes nothing. */
  lemma NeutralizedHasNoTag(s: string)
    ensures NoTag(Look, MARKER, Neutralized(s))
    ensures Neutralized(Neutralized(s)) == Neutralized(s)
  {
    ReplacementBlocksTags();
    RewrittenHasNoTag(Look, MARKER, NEUTRALIZED, s);
  }

  // ---------- cleaning, clamping, folding onto one line ----------

  predicate IsClean(c: char) {
    c == '\n' || c == '\t' || !IsControl(c)
  }

  function StripControls(text: string): (r: string)
    ensures |r| == |text|
    ensures forall c :: c in r ==> IsClean(c)
    ensures forall i :: 0 <= i < |r| ==> r[i] == if IsClean(text[i]) then text[i] else ' '
  {
    seq(|text|, i requires 0 <= i < |text| => if IsClean(text[i]) then text[i] else ' ')
  }

  /** Codes below 32 and from 127 to 159 become spaces, but for tab and line feed; nothing else changes. */
  lemma StripsExactly(text: string, i: nat)
    requires i < |text|
    ensures var code := text[i] as int;
      StripControls(text)[i] ==
        if (code < 32 || 127 <= code <= 159) && code != 9 && code != 10 then ' ' else text[i]
  {
  }

  function Sanitize(raw: string): string {
    Neutralized(StripControls(raw))
  }

  function SanitizeClamped(raw: string, maxChars: nat): string {
    var clean := Sanitize(raw);
    if |clean| <= maxChars then clean else clean[..maxChars] + ELLIPSIS
  }

  predicate BreaksLine(c: char) {
    c == '\n' || c == '\r' || c == '\t'
  }

  function OntoOneLine(s: string): (r: string)
    ensures |r| == |s|
    ensures forall i :: 0 <= i < |r| ==> r[i] == if BreaksLine(s[i]) then ' ' else s[i]
  {
    seq(|s|, i requires 0 <= i < |s| => if BreaksLine(s[i]) then ' ' else s[i])
  }

  function SanitizeInline(raw: string, maxChars: nat): string {
    OntoOneLine(SanitizeClamped(raw, maxChars))
  }

  /** Rewriting adds no character but the replacement's own. */
  lemma {:induction false} RewritingKeepsClean(s: string)
    requires forall c :: c in s ==> IsClean(c)
    ensures forall c :: c in Neutralized(s) ==> IsClean(c)
    decreases |s|
  {
    if s != [] {
      var end := MatchFrom(Look, MARKER, s, 0);
      RewritingKeepsClean(if end.Some? then s[end.value..] else s[1..]);
      assert forall c :: c in NEUTRALIZED ==> c == '_' || 'a' <= c <= 'z';
    }
  }

  lemma SanitizedIsClean(raw: string)
    ensures NoMatch(Look, MARKER, Sanitize(raw))
    ensures forall c :: c in Sanitize(raw) ==> IsClean(c)
    ensures Sanitize(Sanitize(raw)) == Sanitize(raw)
  {
    ReplacementBlocksTags();
    RewrittenNoMatch(Look, MARKER, NEUTRALIZED, StripControls(raw));
    RewritingKeepsClean(StripControls(raw));
    var clean := Sanitize(raw);
    forall i | 0 <= i < |clean| ensures StripControls(clean)[i] == clean[i] {
      assert clean[i] in clean;
    }
    assert StripControls(clean) == clean;
    NothingToRewrite(Look, MARKER, NEUTRALIZED, clean);
  }

  lemma OthersAreRead(c: char)
    requires c == ' ' || c == '\U{2026}'
    ensures Look(c) == Some(c) && !IsControl(c)
  {
  }

  lemma WhatStopsMatches()
    ensures StopsMatch(Look, MARKER, ' ') && StopsMatch(Look, MARKER, ELLIPSIS[0])
  {
    OthersAreRead(' ');
    OthersAreRead(ELLIPSIS[0]);
    forall i | 0 <= i < |MARKER| ensures MARKER[i] != ' ' && MARKER[i] != '\U{2026}' {
      assert MARKER[i] == '-' || 'a' <= MARKER[i] <= 'z';
    }
  }

  lemma EllipsisIsControlFree()
    ensures forall i :: 0 <= i < |ELLIPSIS| ==> !IsControl(ELLIPSIS[i])
  {
    forall i | 0 <= i < |ELLIPSIS| ensures !IsControl(ELLIPSIS[i]) {
      var c := ELLIPSIS[i];
      assert c == '\U{2026}' || c == '[' || c == ']' || 'a' <= c <= 'z';
    }
  }

  lemma ClampedNoMatch(raw: string, maxChars: nat)
    ensures NoMatch(Look, MARKER, SanitizeClamped(raw, maxChars))
  {
    SanitizedIsClean(raw);
    if |Sanitize(raw)| > maxChars {
      WhatStopsMatches();
      NoMatchPrefix(Look, MARKER, Sanitize(raw), maxChars);
      NoMatchShort(Look, MARKER, ELLIPSIS);
      NoMatchConcat(Look, MARKER, Sanitize(raw)[..maxChars], ELLIPSIS);
    }
  }

  lemma OneLineIsControlFree(s: string)
    requires forall c :: c in s ==> IsClean(c)
    ensures forall c :: c in OntoOneLine(s) ==> !IsControl(c)
  {
    forall i | 0 <= i < |s| ensures !IsControl(OntoOneLine(s)[i]) {
      assert s[i] in s;
    }
  }

  lemma OneLineConcat(a: string, b: string)
    requires forall i :: 0 <= i < |b| ==> !IsControl(b[i])
    ensures OntoOneLine(a + b) == OntoOneLine(a) + b
  {
  }

  /** An inlined text holds no tag and no control character at all, hence stays on one line.
      It is the whole value, or its first `maxChars` characters and the mark of the cut. */
  lemma InlineIsSafe(raw: string, maxChars: nat)
    ensures var out := SanitizeInline(raw, maxChars);
      && NoTag(Look, MARKER, out)
      && (forall c :: c in out ==> !IsControl(c))
      && (if |Sanitize(raw)| <= maxChars then out == OntoOneLine(Sanitize(raw))
          else out == OntoOneLine(Sanitize(raw)[..maxChars]) + ELLIPSIS)
  {
    var clean, clamped, out := Sanitize(raw), SanitizeClamped(raw, maxChars), SanitizeInline(raw, maxChars);
    ClampedNoMatch(raw, maxChars);
    WhatStopsMatches();
    NoMatchBlanked(Look, MARKER, clamped, out);
    NoTagIffNoMatch(Look, MARKER, out);
    SanitizedIsClean(raw);
    OneLineIsControlFree(clean);
    if |clean| > maxChars {
      EllipsisIsControlFree();
      OneLineIsControlFree(clean[..maxChars]);
      OneLineConcat(clean[..maxChars], ELLIPSIS);
    }
  }

  // ---------- the fence ----------

  datatype Fence = Fence(open: string, close: string) {
    static function WithNonce(nonce: string): Fence {
      Fence("<" + MARKER + "-" + nonce + ">", "</" + MARKER + "-" + nonce + ">")
    }

    function Enclose(raw: string): string {
      open + "\n" + Sanitize(raw) + "\n" + close
    }
  }

  lemma TagOf(marker: string, nonce: string)
    ensures "<" + marker + "-" + nonce + ">" == "<" + (marker + ("-" + (nonce + ">")))
    ensures "</" + marker + "-" + nonce + ">" == "</" + (marker + ("-" + (nonce + ">")))
  {
  }

  lemma SameMiddle(head: string, a: string, b: string)
    ensures head + a + ">" == head + b + ">" ==> a == b
  {
    if head + a + ">" == head + b + ">" {
      assert (head + a + ">")[|head|..|head| + |a|] == a && (head + b + ">")[|head|..|head| + |b|] == b;
    }
  }

  /** The tags are those of the nonce: no two nonces share either. */
  lemma NoncesTellFencesApart(nonce: string, other: string)
    ensures MARKER == "untrusted-database-content"
    ensures Fence.WithNonce(nonce).open == "<" + (MARKER + ("-" + (nonce + ">")))
    ensures Fence.WithNonce(nonce).close == "</" + (MARKER + ("-" + (nonce + ">")))
    ensures Fence.WithNonce(nonce).open == Fence.WithNonce(other).open ==> nonce == other
    ensures Fence.WithNonce(nonce).close == Fence.WithNonce(other).close ==> nonce == other
  {
    TagOf(MARKER, nonce);
    TagOf(MARKER, other);
    SameMiddle("<" + MARKER + "-", nonce, other);
    SameMiddle("</" + MARKER + "-", nonce, other);
  }

  predicate OccursAt(text: string, word: string, p: int) {
    0 <= p && p + |word| <= |text| && text[p..p + |word|] == word
  }

  /** A word on one line occurs within one of the lines it was put beside. */
  lemma OccursInOnePart(first: string, mid: string, last: string, word: string, p: int)
    requires '\n' !in word
    requires OccursAt(first + "\n" + mid + "\n" + last, word, p)
    ensures || OccursAt(first, word, p)
            || OccursAt(mid, word, p - |first| - 1)
            || OccursAt(last, word, p - |first| - |mid| - 2)
  {
    var text := first + "\n" + mid + "\n" + last;
    assert text[|first|] == '\n' && text[|first| + 1 + |mid|] == '\n';
    forall q | p <= q < p + |word| ensures text[q] == word[q - p] && text[q] != '\n' {
      assert text[q] == text[p..p + |word|][q - p];
    }
    if p + |word| <= |first| {
      SliceOfMiddle("", first, "\n" + mid + "\n" + last, p, p + |word|);
      assert text == "" + first + ("\n" + mid + "\n" + last);
    } else if |first| + |mid| + 2 <= p {
      SliceOfMiddle(first + "\n" + mid + "\n", last, "", p, p + |word|);
      assert text == (first + "\n" + mid + "\n") + last + "";
    } else if |first| < p && p + |word| <= |first| + 1 + |mid| {
      SliceOfMiddle(first + "\n", mid, "\n" + last, p, p + |word|);
      assert text == (first + "\n") + mid + ("\n" + last);
    }
  }

  lemma SliceOfMiddle(before: string, mid: string, after: string, i: int, j: int)
    requires |before| <= i <= j <= |before| + |mid|
    ensures (before + mid + after)[i..j] == mid[i - |before|..j - |before|]
  {
  }

  /** Clean text holds no word that contains the marker. */
  lemma CleanOmitsMarker(raw: string, word: string, at: nat, p: int)
    requires at + |MARKER| <= |word| && word[at..at + |MARKER|] == MARKER
    ensures !OccursAt(Sanitize(raw), word, p)
  {
    var clean := Sanitize(raw);
    if OccursAt(clean, word, p) {
      assert clean[p + at..p + at + |MARKER|] == clean[p..p + |word|][at..at + |MARKER|];
      SanitizedIsClean(raw);
      MarkerIsRead();
      CleanOmitsWord(Look, MARKER, clean, p + at);
    }
  }

  lemma TagShape(marker: string, nonce: string)
    requires marker != [] && marker[0] != '/' && '\n' !in marker && '\n' !in nonce
    ensures var open, close := "<" + marker + "-" + nonce + ">", "</" + marker + "-" + nonce + ">";
      && '\n' !in open && '\n' !in close && |close| == |open| + 1
      && 1 + |marker| <= |open| && open[1..1 + |marker|] == marker && close[2..2 + |marker|] == marker
      && open[0] == close[0] == '<' && open[1] != '/' && close[1] == '/'
  {
    var open, close := "<" + marker + "-" + nonce + ">", "</" + marker + "-" + nonce + ">";
    assert open[1..1 + |marker|] == marker && close[2..2 + |marker|] == marker;
  }

  lemma MarkerIsOneLine()
    ensures MARKER != [] && MARKER[0] != '/' && '\n' !in MARKER
  {
    forall i | 0 <= i < |MARKER| ensures MARKER[i] != '\n' {
      assert MARKER[i] == '-' || 'a' <= MARKER[i] <= 'z';
    }
  }

  /** Whatever the content and whatever the newline-free nonce, a fenced block opens once,
      at its start, and closes once, at its end. */
  lemma FenceOpensAndClosesOnce(nonce: string, raw: string, p: int)
    requires '\n' !in nonce
    ensures var fence := Fence.WithNonce(nonce); var text := fence.Enclose(raw);
      && (OccursAt(text, fence.open, p) <==> p == 0)
      && (OccursAt(text, fence.close, p) <==> p == |text| - |fence.close|)
  {
    MarkerIsOneLine();
    TagShape(MARKER, nonce);
    var Fence(open, close) := Fence.WithNonce(nonce);
    var clean := Sanitize(raw);
    OnceInThreeParts(open, clean, close, p) by {
      forall q ensures !OccursAt(clean, open, q) && !OccursAt(clean, close, q) {
        CleanOmitsMarker(raw, open, 1, q);
        CleanOmitsMarker(raw, close, 2, q);
      }
    }
  }

  lemma OnceInThreeParts(open: string, clean: string, close: string, p: int)
    requires '\n' !in open && '\n' !in close && 2 <= |open| && |close| == |open| + 1
    requires open[0] == close[0] == '<' && open[1] != '/' && close[1] == '/'
    requires forall q :: !OccursAt(clean, open, q) && !OccursAt(clean, close, q)
    ensures var text := open + "\n" + clean + "\n" + close;
      && (OccursAt(text, open, p) <==> p == 0)
      && (OccursAt(text, close, p) <==> p == |text| - |close|)
  {
    var text := open + "\n" + clean + "\n" + close;
    var tail := |text| - |close|;
    assert text[0..|open|] == open && text[tail..tail + |close|] == close;
    if OccursAt(text, open, p) {
      OccursInOnePart(open, clean, close, open, p);
      assert close[0..|open|][1] == close[1] && close[1..1 + |open|][0] == close[1];
      assert !OccursAt(close, open, 0) && !OccursAt(close, open, 1);
    }
    if OccursAt(text, close, p) {
      OccursInOnePart(open, clean, close, close, p);
    }
  }
}
