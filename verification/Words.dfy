/** The words of an identifier: what separators and changes of case divide it into.

    What counts as a letter or digit, as upper case and as lower case comes in as an `Alphabet`.
  */
module Words {
  import opened Options

  datatype Alphabet = Alphabet(alphanumeric: char -> bool, upper: char -> bool, lower: char -> bool)

  predicate IsAsciiDigit(c: char) {
    '0' <= c <= '9'
  }

  /** Is there a cut in front of `current`, seen from its neighbours? */
  predicate StartsAWord(a: Alphabet, previous: Option<char>, current: char, next: Option<char>,
                        afterNext: Option<char>) {
    && previous.Some?
    && a.upper(current)
    && var pluralS := next == Some('s') && !(afterNext.Some? && a.lower(afterNext.value));
       || a.lower(previous.value)
       || IsAsciiDigit(previous.value)
       || (a.upper(previous.value) && next.Some? && a.lower(next.value) && !pluralS)
  }

  function CharAt(s: string, i: int): Option<char> {
    if 0 <= i < |s| then Some(s[i]) else None
  }

  predicate StartsAt(a: Alphabet, segment: string, i: nat)
    requires i < |segment|
  {
    StartsAWord(a, CharAt(segment, i - 1), segment[i], CharAt(segment, i + 1), CharAt(segment, i + 2))
  }

  /** Letters are of one case or the other, digits of none. */
  predicate IsSensible(a: Alphabet, s: string) {
    forall i :: 0 <= i < |s| ==> (a.upper(s[i]) != a.lower(s[i])) && !IsAsciiDigit(s[i])
  }

  /** In camel case, where each capital is followed by a small letter, a word begins at each capital. */
  lemma CamelCaseIsCut(a: Alphabet, s: string, i: nat)
    requires IsSensible(a, s) && i < |s|
    requires forall k :: 0 <= k < |s| && a.upper(s[k]) ==> k + 1 < |s| && a.lower(s[k + 1])
    ensures StartsAt(a, s, i) <==> i > 0 && a.upper(s[i])
  {
  }

  /** Capitals alone are one word, and so are small letters alone; and a plural `s` after capitals that ends
      there does not take one along. */
  lemma AcronymsAreNotCut(a: Alphabet, s: string, i: nat)
    requires IsSensible(a, s) && i < |s|
    requires forall k :: 0 <= k < |s| - 1 ==> a.upper(s[k]) == a.upper(s[0])
    requires a.upper(s[|s| - 1]) == a.upper(s[0]) || s[|s| - 1] == 's'
    requires a.upper(s[0]) || a.lower(s[|s| - 1])
    ensures !StartsAt(a, s, i)
  {
  }

  /** A word after an acronym begins with the last capital. */
  lemma WordAfterAcronym(a: Alphabet, s: string, n: nat, i: nat)
    requires IsSensible(a, s) && 1 < n < |s| && i < |s|
    requires forall k :: 0 <= k < |s| ==> (a.upper(s[k]) <==> k < n)
    requires s[n] != 's' || (n + 1 < |s|)
    ensures StartsAt(a, s, i) <==> i == n - 1
  {
  }

  /** A capital after a digit begins a word; a small letter or a digit never does. */
  lemma DigitsEndWords(a: Alphabet, s: string, i: nat)
    requires i < |s|
    ensures i > 0 && IsAsciiDigit(s[i - 1]) && a.upper(s[i]) ==> StartsAt(a, s, i)
    ensures !a.upper(s[i]) ==> !StartsAt(a, s, i)
  {
  }

  // ---------- letters with their cuts ----------

  /** A letter of a name, and whether a word begins there. */
  datatype Mark = Mark(letter: char, begins: bool)

  /** The letters and digits of the first `n` characters, each with whether a word begins at it: at
      the start of a run of letters and digits, and where the case says so within the run. */
  function Marked(a: Alphabet, ident: string, n: nat): seq<Mark>
    requires n <= |ident|
  {
    if n == 0 then []
    else if !a.alphanumeric(ident[n - 1]) then Marked(a, ident, n - 1)
    else Marked(a, ident, n - 1) + [Mark(ident[n - 1], BeginsAt(a, ident, n - 1))]
  }

  predicate BeginsAt(a: Alphabet, ident: string, i: nat)
    requires i < |ident|
  {
    i == 0 || !a.alphanumeric(ident[i - 1]) || StartsAWord(a, Some(ident[i - 1]), ident[i], Letter(a, ident, i + 1),
      if Letter(a, ident, i + 1).Some? then Letter(a, ident, i + 2) else None)
  }

  /** The character at `i`, when it belongs to a word. */
  function Letter(a: Alphabet, ident: string, i: nat): Option<char> {
    if i < |ident| && a.alphanumeric(ident[i]) then Some(ident[i]) else None
  }

  /** What a list of words says: its letters in order, and where each word begins. */
  function WordMarks(words: seq<string>): seq<Mark> {
    if words == [] then [] else WordMarks(words[..|words| - 1]) + OneWord(words[|words| - 1])
  }

  function OneWord(word: string): (marks: seq<Mark>)
    ensures |marks| == |word|
  {
    seq(|word|, i requires 0 <= i < |word| => Mark(word[i], i == 0))
  }

  function Joined(words: seq<string>): string {
    if words == [] then "" else Joined(words[..|words| - 1]) + words[|words| - 1]
  }

  function Letters(a: Alphabet, s: string): string {
    if s == "" then ""
    else Letters(a, s[..|s| - 1]) + (if a.alphanumeric(s[|s| - 1]) then [s[|s| - 1]] else "")
  }

  ghost predicate NoneEmpty(words: seq<string>) {
    forall i :: 0 <= i < |words| ==> words[i] != ""
  }

  lemma OneMoreWord(words: seq<string>, word: string)
    ensures WordMarks(words + [word]) == WordMarks(words) + OneWord(word)
    ensures Joined(words + [word]) == Joined(words) + word
  {
    assert (words + [word])[..|words|] == words;
  }

  lemma {:induction false} WordMarksConcat(a: seq<string>, b: seq<string>)
    ensures WordMarks(a + b) == WordMarks(a) + WordMarks(b)
    decreases |b|
  {
    if b == [] {
      assert a + b == a;
    } else {
      assert (a + b)[..|a + b| - 1] == a + b[..|b| - 1];
      WordMarksConcat(a, b[..|b| - 1]);
    }
  }

  // ---------- one segment ----------

  /** The characters of a segment, a word beginning at the first and wherever the case says so. */
  function CaseMarks(a: Alphabet, segment: string, n: nat): seq<Mark>
    requires n <= |segment|
  {
    if n == 0 then []
    else CaseMarks(a, segment, n - 1) + [Mark(segment[n - 1], n == 1 || StartsAt(a, segment, n - 1))]
  }

  lemma OneWordOneMore(s: string, start: nat, end: nat)
    requires start <= end < |s|
    ensures OneWord(s[start..end + 1]) == OneWord(s[start..end]) + [Mark(s[end], start == end)]
  {
    var longer, shorter := s[start..end + 1], s[start..end];
    assert longer == shorter + [s[end]];
  }

  /** The words cut so far and the one being read give the letters and cuts so far. */
  ghost predicate Cutting(a: Alphabet, segment: string, words: seq<string>, start: nat, end: nat)
    requires end <= |segment|
  {
    && start <= end && (end > 0 ==> start < end)
    && NoneEmpty(words)
    && WordMarks(words) + OneWord(segment[start..end]) == CaseMarks(a, segment, end)
  }

  lemma CutHere(a: Alphabet, segment: string, words: seq<string>, start: nat, end: nat)
    requires end < |segment| && Cutting(a, segment, words, start, end) && StartsAt(a, segment, end)
    ensures end > 0 && Cutting(a, segment, words + [segment[start..end]], end, end + 1)
  {
    var word := segment[start..end];
    OneMoreWord(words, word);
    LetterAt(segment, end);
    CutMarks(a, segment, end);
    assert WordMarks(words + [word]) + OneWord(segment[end..end + 1]) == CaseMarks(a, segment, end + 1);
    NoneEmptyGrows(words, word);
  }

  lemma CutMarks(a: Alphabet, segment: string, end: nat)
    requires end < |segment| && StartsAt(a, segment, end)
    ensures CaseMarks(a, segment, end + 1) == CaseMarks(a, segment, end) + [Mark(segment[end], true)]
  {
  }

  lemma LetterAt(segment: string, end: nat)
    requires end < |segment|
    ensures OneWord(segment[end..end + 1]) == [Mark(segment[end], true)]
  {
    assert segment[end..end + 1] == [segment[end]];
  }

  lemma NoneEmptyGrows(words: seq<string>, word: string)
    requires NoneEmpty(words) && word != ""
    ensures NoneEmpty(words + [word])
  {
  }

  lemma ReadOn(a: Alphabet, segment: string, words: seq<string>, start: nat, end: nat)
    requires end < |segment| && Cutting(a, segment, words, start, end) && !StartsAt(a, segment, end)
    ensures Cutting(a, segment, words, start, end + 1)
  {
    OneWordOneMore(segment, start, end);
    assert WordMarks(words) + (OneWord(segment[start..end]) + [Mark(segment[end], start == end)])
        == CaseMarks(a, segment, end) + [Mark(segment[end], start == end)];
  }

  lemma LastWord(a: Alphabet, segment: string, words: seq<string>, start: nat)
    requires Cutting(a, segment, words, start, |segment|)
    ensures segment[start..] == segment[start..|segment|]
    ensures var all := if segment[start..] == "" then words else words + [segment[start..]];
      NoneEmpty(all) && WordMarks(all) == CaseMarks(a, segment, |segment|)
  {
    var last := segment[start..];
    assert last == segment[start..|segment|];
    if last == "" {
      assert OneWord(last) == [];
    } else {
      OneMoreWord(words, last);
    }
  }

  /** Cuts one segment at its case changes. */
  method CaseWords(a: Alphabet, segment: string) returns (words: seq<string>)
    ensures NoneEmpty(words)
    ensures WordMarks(words) == CaseMarks(a, segment, |segment|)
  {
    words := [];
    var start := 0;
    for offset := 0 to |segment|
      invariant Cutting(a, segment, words, start, offset)
    {
      if StartsAt(a, segment, offset) {
        CutHere(a, segment, words, start, offset);
        words := words + [segment[start..offset]];
        start := offset;
      } else {
        ReadOn(a, segment, words, start, offset);
      }
    }
    LastWord(a, segment, words, start);
    if segment[start..] != "" {
      words := words + [segment[start..]];
    }
  }

  // ---------- a whole name ----------

  /** Within a run of letters and digits, the characters around a letter are the run's. */
  lemma SegmentBegins(a: Alphabet, ident: string, from: nat, to: nat, k: nat)
    requires from + k < to <= |ident|
    requires forall j :: from <= j < to ==> a.alphanumeric(ident[j])
    requires from == 0 || !a.alphanumeric(ident[from - 1])
    requires to == |ident| || !a.alphanumeric(ident[to])
    ensures BeginsAt(a, ident, from + k) <==> k == 0 || StartsAt(a, ident[from..to], k)
  {
    var segment := ident[from..to];
    if k > 0 {
      assert CharAt(segment, k - 1) == Some(ident[from + k - 1]);
      assert CharAt(segment, k + 1) == Letter(a, ident, from + k + 1);
      assert Letter(a, ident, from + k + 1).Some? ==> CharAt(segment, k + 2) == Letter(a, ident, from + k + 2);
      assert Letter(a, ident, from + k + 1).None? ==> CharAt(segment, k + 2) == None;
    }
  }

  /** A run of letters and digits reads the same in the name as on its own. */
  lemma {:induction false} SegmentMarks(a: Alphabet, ident: string, from: nat, to: nat, n: nat)
    requires from + n <= to <= |ident|
    requires forall k :: from <= k < to ==> a.alphanumeric(ident[k])
    requires from == 0 || !a.alphanumeric(ident[from - 1])
    requires to == |ident| || !a.alphanumeric(ident[to])
    ensures Marked(a, ident, from + n) == Marked(a, ident, from) + CaseMarks(a, ident[from..to], n)
    decreases n
  {
    if n == 0 {
      assert Marked(a, ident, from) + [] == Marked(a, ident, from);
    } else {
      SegmentMarks(a, ident, from, to, n - 1);
      var mark := NextMark(a, ident, from, to, n - 1);
      MarksSplit(Marked(a, ident, from), CaseMarks(a, ident[from..to], n - 1), mark);
    }
  }

  lemma MarksSplit(before: seq<Mark>, marks: seq<Mark>, mark: Mark)
    ensures before + marks + [mark] == before + (marks + [mark])
  {
  }

  lemma NextMark(a: Alphabet, ident: string, from: nat, to: nat, k: nat) returns (mark: Mark)
    requires from + k < to <= |ident|
    requires forall j :: from <= j < to ==> a.alphanumeric(ident[j])
    requires from == 0 || !a.alphanumeric(ident[from - 1])
    requires to == |ident| || !a.alphanumeric(ident[to])
    ensures Marked(a, ident, from + k + 1) == Marked(a, ident, from + k) + [mark]
    ensures CaseMarks(a, ident[from..to], k + 1) == CaseMarks(a, ident[from..to], k) + [mark]
  {
    SegmentBegins(a, ident, from, to, k);
    mark := Mark(ident[from + k], BeginsAt(a, ident, from + k));
  }

  /** Splits a name into words. Its letters and digits come out in order, none lost, and a word
      begins exactly at the start of a run and where the case changes say so. */
  method NameWords(a: Alphabet, ident: string) returns (words: seq<string>)
    ensures NoneEmpty(words)
    ensures WordMarks(words) == Marked(a, ident, |ident|)
  {
    words := [];
    var i := 0;
    while i < |ident|
      invariant i <= |ident|
      invariant NoneEmpty(words)
      invariant WordMarks(words) == Marked(a, ident, i)
      invariant i == 0 || i == |ident| || !a.alphanumeric(ident[i - 1]) || !a.alphanumeric(ident[i])
    {
      if !a.alphanumeric(ident[i]) {
        i := i + 1;
        continue;
      }
      var from := i;
      i := SegmentEnd(a, ident, from);
      var more := CaseWords(a, ident[from..i]);
      SegmentAdds(a, ident, words, more, from, i);
      words := words + more;
    }
  }

  /** Where the run of letters and digits that starts at `from` ends. */
  method SegmentEnd(a: Alphabet, ident: string, from: nat) returns (to: nat)
    requires from < |ident| && a.alphanumeric(ident[from])
    ensures from < to <= |ident| && (to == |ident| || !a.alphanumeric(ident[to]))
    ensures forall k :: from <= k < to ==> a.alphanumeric(ident[k])
  {
    to := from + 1;
    while to < |ident| && a.alphanumeric(ident[to])
      invariant from < to <= |ident|
      invariant forall k :: from <= k < to ==> a.alphanumeric(ident[k])
    {
      to := to + 1;
    }
  }

  lemma SegmentAdds(a: Alphabet, ident: string, words: seq<string>, more: seq<string>, from: nat, to: nat)
    requires from <= to <= |ident| && forall k :: from <= k < to ==> a.alphanumeric(ident[k])
    requires from == 0 || !a.alphanumeric(ident[from - 1])
    requires to == |ident| || !a.alphanumeric(ident[to])
    requires NoneEmpty(words) && WordMarks(words) == Marked(a, ident, from)
    requires NoneEmpty(more) && WordMarks(more) == CaseMarks(a, ident[from..to], |ident[from..to]|)
    ensures NoneEmpty(words + more) && WordMarks(words + more) == Marked(a, ident, to)
  {
    SegmentMarks(a, ident, from, to, to - from);
    WordMarksConcat(words, more);
  }

  function LettersOf(marks: seq<Mark>): string {
    seq(|marks|, i requires 0 <= i < |marks| => marks[i].letter)
  }

  /** Nothing is lost: joining the words gives the letters and digits of the name, in order. */
  lemma {:induction false} MarksGiveLetters(a: Alphabet, ident: string, n: nat)
    requires n <= |ident|
    ensures LettersOf(Marked(a, ident, n)) == Letters(a, ident[..n])
    decreases n
  {
    if n > 0 {
      MarksGiveLetters(a, ident, n - 1);
      assert ident[..n][..n - 1] == ident[..n - 1];
      assert ident[..n][n - 1] == ident[n - 1];
    }
  }

  lemma {:induction false} WordsGiveLetters(words: seq<string>)
    ensures LettersOf(WordMarks(words)) == Joined(words)
  {
    if words != [] {
      WordsGiveLetters(words[..|words| - 1]);
      var last := words[|words| - 1];
      assert LettersOf(OneWord(last)) == last;
    }
  }

  lemma NothingIsLost(a: Alphabet, ident: string, words: seq<string>)
    requires WordMarks(words) == Marked(a, ident, |ident|)
    ensures Joined(words) == Letters(a, ident)
  {
    WordsGiveLetters(words);
    MarksGiveLetters(a, ident, |ident|);
    assert ident[..|ident|] == ident;
  }

  lemma LastBegin(words: seq<string>)
    requires words != [] && NoneEmpty(words)
    ensures var m, last := WordMarks(words), words[|words| - 1];
      EndsWith(m, last) && m[..|m| - |last|] == WordMarks(words[..|words| - 1])
  {
  }

  ghost predicate EndsWith(m: seq<Mark>, last: string) {
    && |m| >= |last| > 0
    && forall i :: 0 <= i < |last| ==> m[|m| - |last| + i] == Mark(last[i], i == 0)
  }

  lemma EndBegins(m: seq<Mark>, last: string)
    requires EndsWith(m, last)
    ensures m[|m| - |last|].begins
  {
    var first := last[0];
  }

  lemma InsideDoesNotBegin(m: seq<Mark>, last: string, k: nat)
    requires EndsWith(m, last) && 0 < k < |last|
    ensures !m[|m| - k].begins
  {
    var inside := last[|last| - k];
  }

  lemma NoShorterEnd(m: seq<Mark>, x: string, y: string)
    requires EndsWith(m, x) && EndsWith(m, y)
    ensures |x| >= |y|
  {
    EndBegins(m, x);
    if |x| < |y| {
      InsideDoesNotBegin(m, y, |x|);
    }
  }

  lemma SameEnd(m: seq<Mark>, x: string, y: string)
    requires EndsWith(m, x) && EndsWith(m, y)
    ensures x == y
  {
    NoShorterEnd(m, x, y);
    NoShorterEnd(m, y, x);
    forall i | 0 <= i < |x| ensures x[i] == y[i] {
      assert m[|m| - |x| + i].letter == x[i];
    }
  }

  lemma NoWordsNoMarks(words: seq<string>)
    requires NoneEmpty(words)
    ensures WordMarks(words) == [] <==> words == []
  {
    if words != [] { LastBegin(words); }
  }

  /** Letters and cuts determine the words: there is one way to cut. */
  lemma {:induction false} OneWayToCut(a: seq<string>, b: seq<string>)
    requires NoneEmpty(a) && NoneEmpty(b) && WordMarks(a) == WordMarks(b)
    ensures a == b
    decreases |a|
  {
    NoWordsNoMarks(a);
    NoWordsNoMarks(b);
    if a != [] {
      var m := WordMarks(a);
      LastBegin(a);
      LastBegin(b);
      SameEnd(m, a[|a| - 1], b[|b| - 1]);
      OneWayToCut(a[..|a| - 1], b[..|b| - 1]);
      assert a == a[..|a| - 1] + [a[|a| - 1]];
      assert b == b[..|b| - 1] + [b[|b| - 1]];
    }
  }
}
