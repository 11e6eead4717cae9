/** What a reader may take for the marker, letter by letter, and that none of it is left. */
module MarkerVariants {
  import opened Options
  import opened TagScanner
  import opened Untrusted

  /** Is `c` a Cyrillic letter, capital or small, drawn like this one of the marker? */
  predicate IsCyrillic(c: char, letter: char) {
    match letter
    case 'a' => c == '\U{0410}' || c == '\U{0430}'
    case 'b' => c == '\U{0412}' || c == '\U{0432}'
    case 'c' => c == '\U{0421}' || c == '\U{0441}'
    case 'd' => c == '\U{0500}' || c == '\U{0501}'
    case 'e' => c == '\U{0415}' || c == '\U{0435}'
    case 'n' => c == '\U{041F}' || c == '\U{043F}'
    case 'o' => c == '\U{041E}' || c == '\U{043E}'
    case 'r' => c == '\U{0413}' || c == '\U{0433}'
    case 's' => c == '\U{0405}' || c == '\U{0455}'
    case 't' => c == '\U{0422}' || c == '\U{0442}'
    case _ => false
  }

  /** The dashes drawn like the hyphen. */
  const DASHES: string :=
    "-\U{058A}\U{05BE}\U{1400}\U{1806}\U{2010}\U{2011}\U{2012}\U{2013}\U{2014}\U{2015}\U{2E17}\U{2E1A}\U{2E3A}\U{2E3B}"
    + "\U{2E40}\U{2E5D}\U{2212}\U{301C}\U{3030}\U{30A0}\U{FE31}\U{FE32}\U{FE58}\U{FE63}\U{FF0D}"

  /** The characters that leave no trace in a text, by code point. */
  predicate IsInvisible(c: char) {
    var n := c as int;
    || n in {0xAD, 0x61C, 0x6DD, 0x70F, 0x890, 0x891, 0x8E2, 0x180E, 0xFEFF, 0x110BD, 0x110CD, 0xE0001}
    || 0x600 <= n <= 0x605 || 0x200B <= n <= 0x200F || 0x202A <= n <= 0x202E || 0x2060 <= n <= 0x2064
    || 0x2066 <= n <= 0x206F || 0xFFF9 <= n <= 0xFFFB || 0x13430 <= n <= 0x1343F || 0x1BCA0 <= n <= 0x1BCA3
    || 0x1D173 <= n <= 0x1D17A || 0xE0020 <= n <= 0xE007F
  }

  predicate IsLetter(letter: char) {
    'a' <= letter <= 'z'
  }

  /** Is `c` taken for a letter of the marker: itself, its capital, the fullwidth form of either, or a
      look-alike? */
  predicate Imitates(c: char, letter: char) {
    if letter == '-' then c in DASHES
    else
      || c == letter
      || (IsLetter(letter) && c as int == letter as int - 32)
      || (IsLetter(letter) && c as int == letter as int + 0xFEE0)
      || (IsLetter(letter) && c as int == letter as int - 32 + 0xFEE0)
      || IsCyrillic(c, letter)
  }

  lemma InvisibleIsFormat(c: char)
    ensures IsInvisible(c) <==> IsFormat(c)
  {
  }

  lemma DashIsFolded(c: char)
    ensures c in DASHES <==> Fold(c) == '-'
  {
  }

  const LETTERS: set<char> := {'u', 'n', 't', 'r', 's', 'e', 'd', 'a', 'b', 'o', 'c'}

  lemma ImitationIsFolded(c: char, letter: char)
    requires letter in LETTERS && Imitates(c, letter)
    ensures Fold(c) == letter
  {
    if IsCyrillic(c, letter) { CyrillicIsFolded(c, letter); }
  }

  lemma CyrillicIsFolded(c: char, letter: char)
    requires letter in LETTERS && IsCyrillic(c, letter)
    ensures Fold(c) == letter
  {
  }

  lemma FoldedImitates(c: char, letter: char)
    requires letter in LETTERS && Fold(c) == letter
    ensures Imitates(c, letter)
  {
  }

  /** A character is read as a letter of the marker exactly when it imitates it and is not invisible. */
  lemma ReadAsExactly(c: char, letter: char)
    requires letter in MARKER
    ensures Look(c) == Some(letter) <==> Imitates(c, letter) && !IsInvisible(c)
    ensures Look(c).None? <==> IsInvisible(c)
  {
    InvisibleIsFormat(c);
    if letter == '-' {
      DashIsFolded(c);
    } else {
      if Imitates(c, letter) { ImitationIsFolded(c, letter); }
      if Fold(c) == letter { FoldedImitates(c, letter); }
    }
  }

  // ---------- no variant is left ----------

  /** What is seen of a text. */
  function Seen(s: string): string {
    if s == "" then "" else (if IsInvisible(s[0]) then "" else [s[0]]) + Seen(s[1..])
  }

  /** What is seen imitates the marker, letter by letter. */
  ghost predicate IsVariant(s: string) {
    |Seen(s)| == |MARKER| && forall i :: 0 <= i < |MARKER| ==> Imitates(Seen(s)[i], MARKER[i])
  }

  lemma {:induction false} SeenIsVisible(s: string)
    ensures |Visible(Look, s)| == |Seen(s)|
    ensures forall i :: 0 <= i < |Seen(s)| ==> !IsInvisible(Seen(s)[i]) && Look(Seen(s)[i]) == Some(Visible(Look, s)[i])
  {
    if s != "" {
      SeenIsVisible(s[1..]);
      InvisibleIsFormat(s[0]);
    }
  }

  /** A stretch of text is a variant exactly when it reads as the marker. */
  lemma VariantReadsAsMarker(s: string)
    ensures IsVariant(s) <==> Visible(Look, s) == MARKER
  {
    SeenIsVisible(s);
    forall i | 0 <= i < |Seen(s)| && i < |MARKER|
      ensures Imitates(Seen(s)[i], MARKER[i]) <==> Visible(Look, s)[i] == MARKER[i]
    {
      ReadAsExactly(Seen(s)[i], MARKER[i]);
    }
  }

  lemma {:induction false} VariantEndsVisibly(s: string) returns (e: nat)
    requires IsVariant(s)
    ensures 0 < e <= |s| && IsTag(Look, MARKER, s, e)
  {
    VariantReadsAsMarker(s);
    e := LastVisible(s);
  }

  lemma {:induction false} LastVisible(s: string) returns (e: nat)
    requires Visible(Look, s) != []
    ensures 0 < e <= |s| && Look(s[e - 1]).Some? && Visible(Look, s[..e]) == Visible(Look, s)
    decreases |s|
  {
    var n := |s| - 1;
    assert s == s[..n] + [s[n]];
    VisibleConcat(Look, s[..n], [s[n]]);
    if Look(s[n]).Some? {
      e := n + 1;
      assert s[..e] == s;
    } else {
      assert Visible(Look, [s[n]]) == [];
      e := LastVisible(s[..n]);
      assert s[..n][..e] == s[..e];
    }
  }

  /** No case, fullwidth, dash or look-alike variant of the marker is left by neutralising, invisible
      characters in it or not. */
  lemma NoVariantSurvives(s: string, p: nat, q: nat)
    requires p <= q <= |Neutralized(s)|
    ensures !IsVariant(Neutralized(s)[p..q])
  {
    var clean := Neutralized(s);
    if IsVariant(clean[p..q]) {
      var e := VariantEndsVisibly(clean[p..q]);
      NeutralizedHasNoTag(s);
      assert clean[p..q][..e] == clean[p..][..e] && clean[p..q][e - 1] == clean[p..][e - 1];
      assert IsTag(Look, MARKER, clean[p..], e);
    }
  }

  lemma MatchIsVariant(s: string)
    requires MatchFrom(Look, MARKER, s, 0).Some?
    ensures exists q: nat :: q <= |s| && IsVariant(s[0..q])
  {
    var e := MatchFrom(Look, MARKER, s, 0).value;
    MatchIsTag(Look, MARKER, s, e);
    assert s[..e] == s[0..e];
    VariantReadsAsMarker(s[0..e]);
  }

  /** And a text without one is left as it is. */
  lemma {:induction false} OnlyVariantsChange(s: string)
    requires forall p: nat, q: nat :: p <= q <= |s| ==> !IsVariant(s[p..q])
    ensures Neutralized(s) == s
    decreases |s|
  {
    if s != "" {
      if MatchFrom(Look, MARKER, s, 0).Some? {
        MatchIsVariant(s);
      }
      forall p: nat, q: nat | p <= q <= |s[1..]| ensures !IsVariant(s[1..][p..q]) {
        assert s[1..][p..q] == s[p + 1..q + 1];
      }
      OnlyVariantsChange(s[1..]);
    }
  }
}
