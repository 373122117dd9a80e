/** What the lexers' tokens are, said from the characters. */
module SqlTokens {
  import opened Options
  import opened SqlSplitter
  import opened SqlProperties

  // Dollar tags.

  predicate Letter(c: char) {
    65 <= c as int <= 90 || 97 <= c as int <= 122 || c as int == 95
  }

  /** An ASCII identifier: a letter or underscore, then letters, underscores and digits. */
  ghost predicate Identifier(name: string) {
    && name != [] && Letter(name[0])
    && (forall i :: 0 <= i < |name| ==> Letter(name[i]) || 48 <= name[i] as int <= 57)
  }

  /** `$$`, or an identifier between dollar signs. */
  ghost predicate IsTag(tag: string) {
    && |tag| >= 2 && tag[0] == '$' && tag[|tag| - 1] == '$'
    && (|tag| == 2 || Identifier(tag[1..|tag| - 1]))
  }

  lemma TagShape(s: string, i: nat)
    requires i < |s| && DollarTag(s, i).Some?
    ensures IsTag(DollarTag(s, i).value)
  {
    var tag := DollarTag(s, i).value;
    if s[i + 1] != '$' {
      var e := IdentEnd(s, i + 1);
      assert tag == s[i..e + 1] && tag[|tag| - 1] == s[e];
      var name := tag[1..|tag| - 1];
      assert name == s[i + 1..e];
      forall k | 0 <= k < |name| ensures IsIdentPart(name[k]) {
        assert name[k] == s[i + 1 + k];
      }
    }
  }

  lemma TagFound(s: string, i: nat, tag: string)
    requires i < |s| && IsTag(tag) && StartsWith(s, i, tag)
    ensures DollarTag(s, i) == Some(tag)
  {
    var n := |tag|;
    assert s[i + 0] == tag[0] && s[i + 1] == tag[1] && s[i + (n - 1)] == tag[n - 1];
    assert s[i..i + n] == tag;
    if n > 2 {
      var name := tag[1..n - 1];
      assert name[0] == tag[1];
      var e, k := IdentEnd(s, i + 1), i + n - 1;
      forall j | i + 1 <= j < k ensures IsIdentPart(s[j]) {
        assert s[i + (j - i)] == tag[j - i] && tag[j - i] == name[j - i - 1];
      }
      assert e == k;
    }
  }

  /** What is read as a dollar tag is exactly `$$` or an identifier between dollar signs, and wherever one stands it is read. */
  lemma TagIff(s: string, i: nat, tag: string)
    requires i < |s|
    ensures DollarTag(s, i) == Some(tag) <==> IsTag(tag) && StartsWith(s, i, tag)
  {
    if DollarTag(s, i) == Some(tag) {
      TagShape(s, i);
    }
    if IsTag(tag) && StartsWith(s, i, tag) {
      TagFound(s, i, tag);
    }
  }

  /** A dollar body under any tag, whose text and closing tag hold the tag at the end only, is one token. */
  lemma TaggedBodyIsOnePiece(tag: string, text: string)
    requires IsTag(tag) && EndsAtTag(text + tag, tag)
    ensures var s := tag + text + tag; Split(s, 0, 0) == Some([s])
  {
    TagFound(tag, 0, tag);
    DollarBodyIsOnePiece(tag, text);
  }

  // Line comments and plain text.

  /** A line ends just past its line break, or at the end of the text. */
  lemma {:induction false} LineEndIs(s: string, i: nat)
    requires i <= |s|
    ensures var e := LineEnd(s, i);
      || (i < e && s[e - 1] == '\n' && forall j :: i <= j < e - 1 ==> s[j] != '\n')
      || (e == |s| && forall j :: i <= j < |s| ==> s[j] != '\n')
    decreases |s| - i
  {
    if i < |s| && s[i] != '\n' {
      LineEndIs(s, i + 1);
    }
  }

  lemma LineToken(s: string, i: nat)
    requires Pair(s, i, '-', '-')
    ensures TokenEnd(s, i) == Some(LineEnd(s, i + 2))
  {
  }

  /** A line comment without a line break inside is one token, whatever else it holds. */
  lemma LineCommentIsOnePiece(s: string)
    requires Pair(s, 0, '-', '-') && forall j :: 2 <= j < |s| - 1 ==> s[j] != '\n'
    ensures Split(s, 0, 0) == Some([s])
  {
    LineToken(s, 0);
    LineEndIs(s, 2);
    OneToken(s);
  }

  /** No quote, no dollar sign and no comment mark. */
  ghost predicate PlainText(s: string) {
    && (forall i :: 0 <= i < |s| ==> s[i] !in {'\'', '"', '$'})
    && (forall i :: 0 <= i < |s| ==> !Pair(s, i, '-', '-') && !Pair(s, i, '/', '*'))
  }

  lemma {:induction false} PlainReaches(s: string, i: nat, j: nat)
    requires PlainText(s) && i <= j <= |s|
    ensures Reaches(s, i, j)
    decreases j - i
  {
    if i < j {
      assert s[i] !in {'\'', '"', '$'};
      CharToken(s, i);
      PlainReaches(s, i + 1, j);
    }
  }

  lemma {:induction false} PlainSplits(s: string, start: nat, i: nat)
    requires PlainText(s) && start <= i <= |s|
    ensures Split(s, start, i).Some?
    decreases |s| - i
  {
    if i < |s| {
      assert s[i] !in {'\'', '"', '$'};
      CharToken(s, i);
      if s[i] == ';' {
        PlainSplits(s, i + 1, i + 1);
      } else {
        PlainSplits(s, start, i + 1);
      }
    }
  }

  /** Plain text is split, and cut at every one of its semicolons. */
  lemma PlainTextIsCutAtSemicolons(s: string, c: nat)
    requires PlainText(s)
    ensures Split(s, 0, 0).Some?
    ensures c in Cuts(s, 0, 0) <==> c < |s| && s[c] == ';'
  {
    PlainSplits(s, 0, 0);
    CutsAreTopLevelSemicolons(s, 0, 0, c);
    if c < |s| {
      PlainReaches(s, 0, c);
    }
  }

  // The head.

  /** From i to h there are only white space and comments. */
  ghost predicate OnlyBlank(s: string, i: nat, h: nat)
    requires i <= |s|
    decreases |s| - i
  {
    i == h || (Blank(s, i) && TokenEnd(s, i).Some? && OnlyBlank(s, TokenEnd(s, i).value, h))
  }

  /** The head is found at h iff only white space and comments come before it, and neither begins there. */
  lemma {:induction false} HeadIff(s: string, i: nat, h: nat)
    requires i <= |s|
    ensures Head(s, i) == Some(h) <==> OnlyBlank(s, i, h) && Executable(s, h)
    decreases |s| - i
  {
    if Blank(s, i) {
      HeadPastBlank(s, i);
      if TokenEnd(s, i).Some? {
        HeadIff(s, TokenEnd(s, i).value, h);
      }
    }
  }
}
