/** A left-to-right scanner that rewrites every occurrence of a tag word.

    The word is compared through a reading of characters: `look(c)` is the character `c`
    is taken for, or `None` when `c` is ignored. The results hold for every word, every
    reading and every replacement in which no occurrence can start.
  */
module TagScanner {
  import opened Options

  type Reading = char -> Option<char>

  // ---------- recognising the tag ----------

  /** What a reader who ignores the ignored characters sees. */
  function Visible(look: Reading, s: string): string {
    if s == [] then []
    else (if look(s[0]).None? then [] else [look(s[0]).value]) + Visible(look, s[1..])
  }

  /** `s[..e]` is a tag: it shows the word and does not end on an ignored character. */
  ghost predicate IsTag(look: Reading, word: string, s: string, e: nat) {
    0 < e <= |s| && look(s[e - 1]).Some? && Visible(look, s[..e]) == word
  }

  /** Where the rest of the word, from its character `k` on, ends in `s`. */
  function MatchFrom(look: Reading, word: string, s: string, k: nat): (end: Option<nat>)
    requires k <= |word|
    ensures end.Some? ==> |word| - k <= end.value <= |s|
    decreases s
  {
    if k == |word| then Some(0)
    else if s == [] then None
    else
      var rest := if look(s[0]).None? then MatchFrom(look, word, s[1..], k)
                  else if look(s[0]).value == word[k] then MatchFrom(look, word, s[1..], k + 1)
                  else None;
      if rest.Some? then Some(rest.value + 1) else None
  }

  /** No position of `s` starts a tag. */
  ghost predicate NoTag(look: Reading, word: string, s: string) {
    forall p: nat, e: nat :: p <= |s| ==> !IsTag(look, word, s[p..], e)
  }

  /** `NoTag`, in the terms of the matcher. */
  ghost predicate NoMatch(look: Reading, word: string, s: string) {
    forall p: nat :: p <= |s| ==> MatchFrom(look, word, s[p..], 0).None?
  }

  lemma {:induction false} VisibleConcat(look: Reading, a: string, b: string)
    ensures Visible(look, a + b) == Visible(look, a) + Visible(look, b)
    decreases a
  {
    if a == [] {
      assert a + b == b;
    } else {
      assert (a + b)[1..] == a[1..] + b;
      VisibleConcat(look, a[1..], b);
    }
  }

  /** A text that does not end on an ignored character shows something. */
  lemma VisibleEnd(look: Reading, s: string)
    requires s != [] && look(s[|s| - 1]).Some?
    ensures Visible(look, s) != []
  {
    var n := |s| - 1;
    VisibleConcat(look, s[..n], [s[n]]);
    assert s == s[..n] + [s[n]];
  }

  /** The matcher answers exactly the tags of the declarative definition. */
  lemma {:induction false} MatchIsVisible(look: Reading, word: string, s: string, k: nat, e: nat)
    requires k < |word|
    ensures MatchFrom(look, word, s, k) == Some(e)
      <==> 0 < e <= |s| && look(s[e - 1]).Some? && Visible(look, s[..e]) == word[k..]
    decreases s
  {
    if s != [] && 0 < e <= |s| {
      var t := s[1..];
      assert s[..e][0] == s[0] && s[..e][1..] == t[..e - 1];
      if look(s[0]).None? {
        assert Visible(look, s[..e]) == Visible(look, t[..e - 1]);
        MatchIsVisible(look, word, t, k, e - 1);
      } else {
        assert word[k..] == [word[k]] + word[k + 1..];
        assert Visible(look, s[..e]) == [look(s[0]).value] + Visible(look, t[..e - 1]);
        if k + 1 < |word| {
          MatchIsVisible(look, word, t, k + 1, e - 1);
        } else if e > 1 && look(s[e - 1]).Some? {
          VisibleEnd(look, t[..e - 1]);
        }
      }
    }
  }

  lemma MatchIsTag(look: Reading, word: string, s: string, e: nat)
    requires word != []
    ensures MatchFrom(look, word, s, 0) == Some(e) <==> IsTag(look, word, s, e)
  {
    assert word[0..] == word;
    MatchIsVisible(look, word, s, 0, e);
  }

  lemma NoTagIffNoMatch(look: Reading, word: string, s: string)
    requires word != []
    ensures NoTag(look, word, s) <==> NoMatch(look, word, s)
  {
    forall p: nat, e: nat | p <= |s|
      ensures MatchFrom(look, word, s[p..], 0) == Some(e) <==> IsTag(look, word, s[p..], e)
    {
      MatchIsTag(look, word, s[p..], e);
    }
    if NoTag(look, word, s) {
      forall p: nat | p <= |s| ensures MatchFrom(look, word, s[p..], 0).None? {
        var end := MatchFrom(look, word, s[p..], 0);
        if end.Some? { MatchIsTag(look, word, s[p..], end.value); }
      }
    }
    if NoMatch(look, word, s) {
      forall p: nat, e: nat | p <= |s| ensures !IsTag(look, word, s[p..], e) {
        MatchIsTag(look, word, s[p..], e);
      }
    }
  }

  // ---------- rewriting it ----------

  /** Every tag replaced, scanning from the left. */
  function Rewritten(look: Reading, word: string, sub: string, s: string): string
    requires word != []
    decreases |s|
  {
    if s == [] then []
    else
      var end := MatchFrom(look, word, s, 0);
      if end.Some? then sub + Rewritten(look, word, sub, s[end.value..])
      else [s[0]] + Rewritten(look, word, sub, s[1..])
  }

  /** Neither a whole tag nor the rest of one begun earlier can start in the replacement. */
  ghost predicate BlocksTags(look: Reading, word: string, sub: string) {
    && (forall p: nat, rest: string :: p < |sub| ==> MatchFrom(look, word, sub[p..] + rest, 0).None?)
    && (forall k: nat, rest: string :: k < |word| ==> MatchFrom(look, word, sub + rest, k).None?)
  }

  /** Shown characters at the head of a match are the word's. */
  lemma {:induction false} MatchHead(look: Reading, word: string, a: string, b: string, k: nat, i: nat)
    requires k + |a| <= |word| && i < |a|
    requires forall j :: 0 <= j < |a| ==> look(a[j]).Some?
    requires MatchFrom(look, word, a + b, k).Some?
    ensures look(a[i]) == Some(word[k + i])
    decreases i
  {
    assert (a + b)[0] == a[0] && (a + b)[1..] == a[1..] + b;
    if i > 0 {
      MatchHead(look, word, a[1..], b, k + 1, i - 1);
    }
  }

  /** A match begun before the rewritten text was already one before the rewriting. */
  lemma {:induction false} RewriteReflectsMatch(look: Reading, word: string, sub: string, s: string, k: nat)
    requires word != [] && BlocksTags(look, word, sub) && k <= |word|
    requires MatchFrom(look, word, Rewritten(look, word, sub, s), k).Some?
    ensures MatchFrom(look, word, s, k).Some?
    decreases |s|
  {
    if s != [] && k < |word| && MatchFrom(look, word, s, 0).None? {
      var out := Rewritten(look, word, sub, s);
      assert out[0] == s[0] && out[1..] == Rewritten(look, word, sub, s[1..]);
      RewriteReflectsMatch(look, word, sub, s[1..], if look(s[0]).None? then k else k + 1);
    }
  }

  /** Rewriting leaves no tag behind and makes no new one. */
  lemma {:induction false} RewrittenNoMatch(look: Reading, word: string, sub: string, s: string)
    requires word != [] && BlocksTags(look, word, sub)
    ensures NoMatch(look, word, Rewritten(look, word, sub, s))
    decreases |s|
  {
    if s != [] {
      var out := Rewritten(look, word, sub, s);
      var end := MatchFrom(look, word, s, 0);
      var n, tail := if end.Some? then |sub| else 1, if end.Some? then s[end.value..] else s[1..];
      var rest := Rewritten(look, word, sub, tail);
      RewrittenNoMatch(look, word, sub, tail);
      forall p: nat | p <= |out| ensures MatchFrom(look, word, out[p..], 0).None? {
        if n <= p {
          assert out[p..] == rest[p - n..];
        } else if end.Some? {
          assert out[p..] == sub[p..] + rest;
        } else {
          assert out[p..] == out;
          if MatchFrom(look, word, out, 0).Some? { RewriteReflectsMatch(look, word, sub, s, 0); }
        }
      }
    }
  }

  lemma {:induction false} NothingToRewrite(look: Reading, word: string, sub: string, s: string)
    requires word != [] && NoMatch(look, word, s)
    ensures Rewritten(look, word, sub, s) == s
    decreases |s|
  {
    if s != [] {
      assert s[0..] == s;
      forall p: nat | p <= |s[1..]| ensures MatchFrom(look, word, s[1..][p..], 0).None? {
        assert s[1..][p..] == s[p + 1..];
      }
      NothingToRewrite(look, word, sub, s[1..]);
    }
  }

  /** The rewritten text holds no tag, even one seen only through the reading, and
      rewriting it again changes nothing. */
  lemma RewrittenHasNoTag(look: Reading, word: string, sub: string, s: string)
    requires word != [] && BlocksTags(look, word, sub)
    ensures NoTag(look, word, Rewritten(look, word, sub, s))
    ensures Rewritten(look, word, sub, Rewritten(look, word, sub, s)) == Rewritten(look, word, sub, s)
  {
    RewrittenNoMatch(look, word, sub, s);
    NoTagIffNoMatch(look, word, Rewritten(look, word, sub, s));
    NothingToRewrite(look, word, sub, Rewritten(look, word, sub, s));
  }

  // ---------- what the rewriting leaves alone ----------

  datatype Piece = Kept(c: char) | Tag(text: string)

  function SourceOf(ps: seq<Piece>): string {
    if ps == [] then []
    else (match ps[0] case Kept(c) => [c] case Tag(t) => t) + SourceOf(ps[1..])
  }

  function RenderedOf(sub: string, ps: seq<Piece>): string {
    if ps == [] then []
    else (match ps[0] case Kept(c) => [c] case Tag(_) => sub) + RenderedOf(sub, ps[1..])
  }

  /** Each piece is a whole tag, or a character no tag starts at. */
  ghost predicate Faithful(look: Reading, word: string, ps: seq<Piece>) {
    ps != [] ==>
      && (match ps[0]
          case Kept(_) => forall e: nat :: !IsTag(look, word, SourceOf(ps), e)
          case Tag(t) => IsTag(look, word, t, |t|))
      && Faithful(look, word, ps[1..])
  }

  /** The text is a sequence of kept characters and whole tags; only the tags are rewritten. */
  lemma {:induction false} OnlyTagsAreRewritten(look: Reading, word: string, sub: string, s: string)
    returns (ps: seq<Piece>)
    requires word != []
    ensures SourceOf(ps) == s && RenderedOf(sub, ps) == Rewritten(look, word, sub, s)
    ensures Faithful(look, word, ps)
    decreases |s|
  {
    if s == [] {
      ps := [];
    } else {
      var end := MatchFrom(look, word, s, 0);
      if end.Some? {
        var e := end.value;
        var rest := OnlyTagsAreRewritten(look, word, sub, s[e..]);
        MatchIsTag(look, word, s, e);
        assert s[..e][..e] == s[..e] && s == s[..e] + s[e..];
        ps := [Tag(s[..e])] + rest;
        assert ps[1..] == rest;
      } else {
        var rest := OnlyTagsAreRewritten(look, word, sub, s[1..]);
        ps := [Kept(s[0])] + rest;
        assert ps[1..] == rest && s == [s[0]] + s[1..];
        forall e: nat ensures !IsTag(look, word, s, e) { MatchIsTag(look, word, s, e); }
      }
    }
  }

  // ---------- the scanner ----------

  ghost function Shifted(end: Option<nat>, distance: nat): Option<nat> {
    if end.Some? then Some(end.value + distance) else None
  }

  /** The matcher at a position of the text, unfolded once. */
  lemma MatchStep(look: Reading, word: string, chars: string, at: nat, k: nat)
    requires at <= |chars| && k < |word|
    ensures MatchFrom(look, word, chars[at..], k) ==
      if at == |chars| then None
      else if look(chars[at]).None? then Shifted(MatchFrom(look, word, chars[at + 1..], k), 1)
      else if look(chars[at]).value == word[k] then Shifted(MatchFrom(look, word, chars[at + 1..], k + 1), 1)
      else None
  {
    assert at < |chars| ==> chars[at..][0] == chars[at] && chars[at..][1..] == chars[at + 1..];
  }

  /** Passes over ignored characters; what the rest of the word finds is moved along. */
  method SkipIgnored(look: Reading, word: string, chars: string, from: nat, ghost k: nat) returns (end: nat)
    requires from <= |chars| && k < |word|
    ensures from <= end <= |chars| && (end < |chars| ==> look(chars[end]).Some?)
    ensures MatchFrom(look, word, chars[from..], k) == Shifted(MatchFrom(look, word, chars[end..], k), end - from)
  {
    end := from;
    while end < |chars| && look(chars[end]).None?
      invariant from <= end <= |chars|
      invariant MatchFrom(look, word, chars[from..], k) == Shifted(MatchFrom(look, word, chars[end..], k), end - from)
    {
      MatchStep(look, word, chars, end, k);
      end := end + 1;
    }
  }

  /** Compares the word at `index`, skipping ignored characters before each of its letters. */
  method MatchWord(look: Reading, word: string, chars: string, index: nat) returns (matches: bool, end: nat)
    requires index <= |chars|
    ensures matches <==> MatchFrom(look, word, chars[index..], 0).Some?
    ensures matches ==> index <= end && MatchFrom(look, word, chars[index..], 0) == Some(end - index)
  {
    end := index;
    matches := true;
    ghost var goal := MatchFrom(look, word, chars[index..], 0);
    var k := 0;
    while k < |word| && matches
      invariant 0 <= k <= |word| && index <= end <= |chars|
      invariant matches ==> goal == Shifted(MatchFrom(look, word, chars[end..], k), end - index)
      invariant !matches ==> goal.None?
    {
      end := SkipIgnored(look, word, chars, end, k);
      MatchStep(look, word, chars, end, k);
      matches := end < |chars| && look(chars[end]).value == word[k];
      if matches {
        end := end + 1;
      }
      k := k + 1;
    }
  }

  method Rewrite(look: Reading, word: string, sub: string, text: string) returns (out: string)
    requires word != []
    ensures out == Rewritten(look, word, sub, text)
  {
    out := "";
    var index := 0;
    assert text[0..] == text;
    while index < |text|
      invariant index <= |text|
      invariant Rewritten(look, word, sub, text) == out + Rewritten(look, word, sub, text[index..])
      decreases |text| - index
    {
      var matches, end := MatchWord(look, word, text, index);
      assert text[index..][0] == text[index];
      if matches {
        assert text[index..][end - index..] == text[end..];
        out := out + sub;
        index := end;
      } else {
        assert text[index..][1..] == text[index + 1..];
        out := out + [text[index]];
        index := index + 1;
      }
    }
  }

  // ---------- cutting, joining and mapping clean texts ----------

  /** A character that is shown as none of the word's stops every match. */
  predicate StopsMatch(look: Reading, word: string, c: char) {
    look(c).Some? && look(c).value !in word
  }

  /** A match over `a + b` stays within `a` when `b` starts with a stopping character. */
  lemma {:induction false} MatchStopsAt(look: Reading, word: string, a: string, b: string, k: nat)
    requires k <= |word| && b != [] && StopsMatch(look, word, b[0])
    ensures MatchFrom(look, word, a + b, k) == MatchFrom(look, word, a, k)
    decreases a
  {
    if a == [] {
      assert a + b == b;
    } else if k < |word| {
      assert (a + b)[0] == a[0] && (a + b)[1..] == a[1..] + b;
      MatchStopsAt(look, word, a[1..], b, k);
      MatchStopsAt(look, word, a[1..], b, k + 1);
    }
  }

  lemma {:induction false} MatchExtends(look: Reading, word: string, a: string, b: string, k: nat)
    requires k <= |word| && MatchFrom(look, word, a, k).Some?
    ensures MatchFrom(look, word, a + b, k) == MatchFrom(look, word, a, k)
    decreases a
  {
    if a != [] && k < |word| {
      assert (a + b)[0] == a[0] && (a + b)[1..] == a[1..] + b;
      MatchExtends(look, word, a[1..], b, if look(a[0]).None? then k else k + 1);
    }
  }

  lemma NoMatchConcat(look: Reading, word: string, a: string, b: string)
    requires NoMatch(look, word, a) && NoMatch(look, word, b)
    requires b != [] && StopsMatch(look, word, b[0])
    ensures NoMatch(look, word, a + b)
  {
    forall p: nat | p <= |a + b| ensures MatchFrom(look, word, (a + b)[p..], 0).None? {
      if |a| <= p {
        assert (a + b)[p..] == b[p - |a|..];
      } else {
        assert (a + b)[p..] == a[p..] + b;
        MatchStopsAt(look, word, a[p..], b, 0);
      }
    }
  }

  lemma NoMatchPrefix(look: Reading, word: string, s: string, n: nat)
    requires NoMatch(look, word, s) && n <= |s|
    ensures NoMatch(look, word, s[..n])
  {
    forall p: nat | p <= n ensures MatchFrom(look, word, s[..n][p..], 0).None? {
      assert s[..n][p..] + s[n..] == s[p..];
      if MatchFrom(look, word, s[..n][p..], 0).Some? {
        MatchExtends(look, word, s[..n][p..], s[n..], 0);
      }
    }
  }

  /** A text too short to hold the word. */
  lemma NoMatchShort(look: Reading, word: string, s: string)
    requires |s| < |word|
    ensures NoMatch(look, word, s)
  {
  }

  /** `t` is `s` with some characters replaced by stopping ones. */
  ghost predicate Blanked(look: Reading, word: string, s: string, t: string) {
    |t| == |s| && forall i :: 0 <= i < |t| ==> t[i] == s[i] || StopsMatch(look, word, t[i])
  }

  lemma {:induction false} BlankedReflectsMatch(look: Reading, word: string, s: string, t: string, k: nat)
    requires Blanked(look, word, s, t) && k <= |word| && MatchFrom(look, word, t, k).Some?
    ensures MatchFrom(look, word, s, k).Some?
    decreases s
  {
    if s != [] && k < |word| {
      BlankedReflectsMatch(look, word, s[1..], t[1..], if look(t[0]).None? then k else k + 1);
    }
  }

  lemma NoMatchBlanked(look: Reading, word: string, s: string, t: string)
    requires NoMatch(look, word, s) && Blanked(look, word, s, t)
    ensures NoMatch(look, word, t)
  {
    forall p: nat | p <= |t| ensures MatchFrom(look, word, t[p..], 0).None? {
      if MatchFrom(look, word, t[p..], 0).Some? {
        BlankedReflectsMatch(look, word, s[p..], t[p..], 0);
      }
    }
  }

  /** A word read as itself is found where it is written. */
  lemma {:induction false} WordMatchesItself(look: Reading, word: string, rest: string, k: nat)
    requires k <= |word| && forall c :: c in word ==> look(c) == Some(c)
    ensures MatchFrom(look, word, word[k..] + rest, k).Some?
    decreases |word| - k
  {
    if k < |word| {
      var s := word[k..] + rest;
      assert s[0] == word[k] && s[1..] == word[k + 1..] + rest;
      WordMatchesItself(look, word, rest, k + 1);
    }
  }

  /** A clean text does not hold the word as it is written. */
  lemma CleanOmitsWord(look: Reading, word: string, s: string, q: nat)
    requires word != [] && NoMatch(look, word, s) && (forall c :: c in word ==> look(c) == Some(c))
    requires q + |word| <= |s|
    ensures s[q..q + |word|] != word
  {
    if s[q..q + |word|] == word {
      assert s[q..] == word[0..] + s[q + |word|..];
      WordMatchesItself(look, word, s[q + |word|..], 0);
    }
  }
}
