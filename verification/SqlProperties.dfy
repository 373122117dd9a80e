/** What splitting a migration means, and how the second lexer agrees with the first. */
module SqlProperties {
  import opened Options
  import opened SqlSplitter

  // Split and rejoin.

  function Join(pieces: seq<string>): string
    requires |pieces| > 0
  {
    if |pieces| == 1 then pieces[0] else pieces[0] + ";" + Join(pieces[1..])
  }

  /** Joining the pieces with ';' gives back exactly the input. */
  lemma {:induction false} RejoinSplit(s: string, start: nat, i: nat)
    requires start <= i <= |s| && Split(s, start, i).Some?
    ensures Join(Split(s, start, i).value) == s[start..]
    decreases |s| - i
  {
    if i < |s| {
      if s[i] == ';' {
        RejoinSplit(s, i + 1, i + 1);
        var ps := Split(s, start, i).value;
        assert ps[1..] == Split(s, i + 1, i + 1).value;
        assert s[start..] == s[start..i] + ";" + s[i + 1..];
      } else {
        RejoinSplit(s, start, TokenEnd(s, i).value);
      }
    }
  }

  /** The pieces with their cuts are a prefix of the text. */
  ghost predicate CutPrefix(ps: seq<string>, text: string) {
    ps == [] || Join(ps) + ";" <= text
  }

  lemma CutPrefixCons(p: string, ps: seq<string>, text: string)
    requires CutPrefix(ps, text)
    ensures CutPrefix([p] + ps, p + ";" + text)
  {
    assert ([p] + ps)[1..] == ps;
    if ps == [] {
      assert Join([p] + ps) == p;
    } else {
      assert Join([p] + ps) + ";" == p + ";" + (Join(ps) + ";");
    }
  }

  /** When splitting raises, what was yielded by then is the text up to the last cut. */
  lemma {:induction false} YieldedBeforeRaise(s: string, start: nat, i: nat)
    requires start <= i <= |s| && Split(s, start, i) == None
    ensures CutPrefix(Yielded(s, start, i), s[start..])
    decreases |s| - i
  {
    if s[i] == ';' {
      YieldedBeforeRaise(s, i + 1, i + 1);
      CutPrefixCons(s[start..i], Yielded(s, i + 1, i + 1), s[i + 1..]);
      assert s[start..] == s[start..i] + ";" + s[i + 1..];
    } else if TokenEnd(s, i).Some? {
      YieldedBeforeRaise(s, start, TokenEnd(s, i).value);
    }
  }

  // Tokens do not look past the end of the piece they lie in.

  /** w lies in s at a, and stops at the end of s or in front of a ';'. */
  ghost predicate Window(w: string, s: string, a: nat) {
    && a + |w| <= |s|
    && (forall k :: 0 <= k < |w| ==> w[k] == s[a + k])
    && (a + |w| < |s| ==> s[a + |w|] == ';')
  }

  lemma StartsWithLocal(w: string, s: string, a: nat, i: nat, p: string)
    requires Window(w, s, a) && i <= |w| && ';' !in p
    ensures StartsWith(w, i, p) <==> StartsWith(s, a + i, p)
  {
    if StartsWith(s, a + i, p) {
      if |p| > 0 {
        var j := if |w| - i < |p| then |w| - i else 0;
        assert s[a + i + j] == p[j] && p[j] in p;
      }
      assert forall k :: 0 <= k < |p| ==> s[a + (i + k)] == p[k];
    }
    if StartsWith(w, i, p) {
      assert forall k :: 0 <= k < |p| ==> w[i + k] == p[k] && s[a + (i + k)] == w[i + k];
    }
  }

  lemma PairLocal(w: string, s: string, a: nat, i: nat, c: char, d: char)
    requires Window(w, s, a) && i <= |w| && c != ';' && d != ';'
    ensures Pair(w, i, c, d) <==> Pair(s, a + i, c, d)
  {
  }

  lemma {:induction false} LineEndLocal(w: string, s: string, a: nat, i: nat)
    requires Window(w, s, a) && i <= |w| && LineEnd(s, a + i) <= a + |w|
    ensures LineEnd(w, i) == LineEnd(s, a + i) - a
    decreases |w| - i
  {
    if i < |w| && w[i] != '\n' {
      LineEndLocal(w, s, a, i + 1);
    }
  }

  lemma {:induction false} BlockEndLocal(w: string, s: string, a: nat, i: nat, depth: nat)
    requires Window(w, s, a) && i <= |w|
    requires BlockEnd(s, a + i, depth).Some? && BlockEnd(s, a + i, depth).value <= a + |w|
    ensures BlockEnd(w, i, depth) == Some(BlockEnd(s, a + i, depth).value - a)
    decreases |w| - i
  {
    if depth > 0 && i < |w| {
      PairLocal(w, s, a, i, '/', '*');
      PairLocal(w, s, a, i, '*', '/');
      if Pair(w, i, '/', '*') {
        BlockEndLocal(w, s, a, i + 2, depth + 1);
      } else if Pair(w, i, '*', '/') {
        BlockEndLocal(w, s, a, i + 2, depth - 1);
      } else {
        BlockEndLocal(w, s, a, i + 1, depth);
      }
    }
  }

  lemma {:induction false} QuoteEndLocal(w: string, s: string, a: nat, i: nat, tok: string)
    requires Window(w, s, a) && i <= |w| && |tok| > 0 && ';' !in tok
    requires QuoteEnd(s, a + i, tok).Some? && QuoteEnd(s, a + i, tok).value <= a + |w|
    ensures QuoteEnd(w, i, tok) == Some(QuoteEnd(s, a + i, tok).value - a)
    decreases |w| - i
  {
    StartsWithLocal(w, s, a, i, tok);
    StartsWithLocal(w, s, a, i, tok + tok);
    if !StartsWith(w, i, tok) {
      QuoteEndLocal(w, s, a, i + 1, tok);
    } else if IsQuote(tok) && StartsWith(w, i, tok + tok) {
      QuoteEndLocal(w, s, a, i + 2, tok);
    }
  }

  lemma {:induction false} IdentEndLocal(w: string, s: string, a: nat, i: nat)
    requires Window(w, s, a) && i <= |w|
    ensures IdentEnd(w, i) == IdentEnd(s, a + i) - a
    decreases |w| - i
  {
    if i < |w| && IsIdentPart(w[i]) {
      IdentEndLocal(w, s, a, i + 1);
    }
  }

  lemma DollarTagLocal(w: string, s: string, a: nat, i: nat)
    requires Window(w, s, a) && i < |w|
    ensures DollarTag(w, i) == DollarTag(s, a + i)
  {
    if i + 1 < |w| {
      IdentEndLocal(w, s, a, i + 1);
      var n := IdentEnd(w, i + 1);
      assert w[i..i + 2] == s[a + i..a + i + 2];
      if n < |w| {
        assert w[i..n + 1] == s[a + i..a + n + 1];
      }
    }
  }

  lemma CommentEndLocal(w: string, s: string, a: nat, i: nat)
    requires Window(w, s, a) && i < |w| && (Pair(s, a + i, '-', '-') || Pair(s, a + i, '/', '*'))
    requires TokenEnd(s, a + i).Some? && TokenEnd(s, a + i).value <= a + |w|
    ensures TokenEnd(w, i) == Some(TokenEnd(s, a + i).value - a)
  {
    PairLocal(w, s, a, i, '-', '-');
    PairLocal(w, s, a, i, '/', '*');
    if Pair(s, a + i, '-', '-') {
      LineEndLocal(w, s, a, i + 2);
    } else {
      BlockEndLocal(w, s, a, i + 2, 1);
    }
  }

  lemma QuotedEndLocal(w: string, s: string, a: nat, i: nat)
    requires Window(w, s, a) && i < |w| && !Pair(s, a + i, '-', '-') && !Pair(s, a + i, '/', '*')
    requires TokenEnd(s, a + i).Some? && TokenEnd(s, a + i).value <= a + |w|
    ensures TokenEnd(w, i) == Some(TokenEnd(s, a + i).value - a)
  {
    PairLocal(w, s, a, i, '-', '-');
    PairLocal(w, s, a, i, '/', '*');
    DollarTagLocal(w, s, a, i);
    if IsQuote([w[i]]) {
      QuoteTokenLocal(w, s, a, i);
    } else if DollarTag(w, i).Some? {
      DollarTokenLocal(w, s, a, i, DollarTag(w, i).value);
    } else {
      CharToken(w, i);
      CharToken(s, a + i);
    }
  }

  /** A token that closes like a quote ends in the piece where it ends in the text. */
  lemma ClosesLocal(w: string, s: string, a: nat, i: nat, tok: string, inPiece: Option<nat>, inText: Option<nat>)
    requires Window(w, s, a) && i <= |w| && |tok| > 0 && ';' !in tok
    requires inPiece == QuoteEnd(w, i, tok) && inText == QuoteEnd(s, a + i, tok)
    requires inText.Some? && inText.value <= a + |w|
    ensures inPiece == Some(inText.value - a)
  {
    QuoteEndLocal(w, s, a, i, tok);
  }

  lemma DollarTokenLocal(w: string, s: string, a: nat, i: nat, tag: string)
    requires Window(w, s, a) && i < |w| && DollarTag(w, i) == Some(tag) && DollarTag(s, a + i) == Some(tag)
    requires TokenEnd(s, a + i).Some? && TokenEnd(s, a + i).value <= a + |w|
    ensures TokenEnd(w, i) == Some(TokenEnd(s, a + i).value - a)
  {
    DollarToken(w, i, tag);
    DollarToken(s, a + i, tag);
    assert a + i + |tag| == a + (i + |tag|);
    ClosesLocal(w, s, a, i + |tag|, tag, TokenEnd(w, i), TokenEnd(s, a + i));
  }

  lemma QuoteTokenLocal(w: string, s: string, a: nat, i: nat)
    requires Window(w, s, a) && i < |w| && IsQuote([w[i]])
    requires TokenEnd(s, a + i).Some? && TokenEnd(s, a + i).value <= a + |w|
    ensures TokenEnd(w, i) == Some(TokenEnd(s, a + i).value - a)
  {
    QuoteToken(w, i);
    QuoteToken(s, a + i);
    ClosesLocal(w, s, a, i + 1, [w[i]], TokenEnd(w, i), TokenEnd(s, a + i));
  }

  // The tokens that are not comments, one by one.

  lemma QuoteToken(s: string, i: nat)
    requires i < |s| && IsQuote([s[i]])
    ensures TokenEnd(s, i) == QuoteEnd(s, i + 1, [s[i]])
  {
    assert s[i] == [s[i]][0];
  }

  lemma DollarToken(s: string, i: nat, tag: string)
    requires i < |s| && DollarTag(s, i) == Some(tag)
    ensures i + |tag| <= |s| && TokenEnd(s, i) == QuoteEnd(s, i + |tag|, tag)
  {
    assert s[i] == '$' && [s[i]][0] == '$';
  }

  lemma CharToken(s: string, i: nat)
    requires i < |s| && !Pair(s, i, '-', '-') && !Pair(s, i, '/', '*') && !IsQuote([s[i]]) && DollarTag(s, i) == None
    ensures TokenEnd(s, i) == Some(i + 1)
  {
  }

  lemma TokenEndLocal(w: string, s: string, a: nat, i: nat)
    requires Window(w, s, a) && i < |w|
    requires TokenEnd(s, a + i).Some? && TokenEnd(s, a + i).value <= a + |w|
    ensures TokenEnd(w, i) == Some(TokenEnd(s, a + i).value - a)
  {
    if Pair(s, a + i, '-', '-') || Pair(s, a + i, '/', '*') {
      CommentEndLocal(w, s, a, i);
    } else {
      QuotedEndLocal(w, s, a, i);
    }
  }

  // Every piece splits to just itself.

  /** A token runs from i to e. */
  ghost predicate IsToken(s: string, i: nat, e: nat) {
    i < |s| && TokenEnd(s, i) == Some(e)
  }

  lemma SplitPastToken(s: string, start: nat, i: nat, e: nat)
    requires start <= i && IsToken(s, i, e) && s[i] != ';'
    ensures Split(s, start, i) == Split(s, start, e)
  {
  }

  lemma TokenInPiece(p: string, s: string, start: nat, i: nat, e: nat)
    requires Window(p, s, start) && start <= i && IsToken(s, i, e) && e <= start + |p|
    ensures IsToken(p, i - start, e - start) && p[i - start] == s[i]
  {
    TokenEndLocal(p, s, start, i - start);
  }

  lemma {:induction false} FirstPiece(s: string, start: nat, i: nat, pieces: seq<string>)
    requires start <= i <= |s| && Split(s, start, i) == Some(pieces)
    ensures i <= start + |pieces[0]| && Window(pieces[0], s, start)
    ensures Split(pieces[0], 0, i - start) == Some([pieces[0]])
    decreases |s| - i
  {
    var p := pieces[0];
    if i == |s| || s[i] == ';' {
      assert p == s[start..i] && p[0..] == p;
    } else {
      var e := TokenEnd(s, i).value;
      SplitPastToken(s, start, i, e);
      FirstPiece(s, start, e, pieces);
      TokenInPiece(p, s, start, i, e);
      SplitPastToken(p, 0, i - start, e - start);
    }
  }

  lemma {:induction false} PiecesSplitToThemselves(s: string, start: nat, i: nat, k: nat)
    requires start <= i <= |s| && Split(s, start, i).Some? && k < |Split(s, start, i).value|
    requires k == 0 ==> i == start
    ensures var p := Split(s, start, i).value[k]; Split(p, 0, 0) == Some([p])
    decreases |s| - i
  {
    if k == 0 {
      FirstPiece(s, start, i, Split(s, start, i).value);
    } else if s[i] == ';' {
      PiecesSplitToThemselves(s, i + 1, i + 1, k - 1);
    } else {
      PiecesSplitToThemselves(s, start, TokenEnd(s, i).value, k);
    }
  }

  // Cuts and token boundaries.

  /** The lexer, between tokens at i, is later between tokens at j. */
  ghost predicate Reaches(s: string, i: nat, j: nat)
    requires i <= |s|
    decreases |s| - i
  {
    i == j || (i < |s| && TokenEnd(s, i).Some? && Reaches(s, TokenEnd(s, i).value, j))
  }

  /** Where the input is cut. */
  function Cuts(s: string, start: nat, i: nat): (cuts: seq<nat>)
    requires start <= i <= |s| && Split(s, start, i).Some?
    ensures forall k :: 0 <= k < |cuts| ==> i <= cuts[k] < |s|
    ensures forall k, l :: 0 <= k < l < |cuts| ==> cuts[k] < cuts[l]
    decreases |s| - i
  {
    if i == |s| then []
    else if s[i] == ';' then [i] + Cuts(s, i + 1, i + 1)
    else Cuts(s, start, TokenEnd(s, i).value)
  }

  function PiecesAt(s: string, start: nat, cuts: seq<nat>): seq<string>
    requires start <= |s| && forall k :: 0 <= k < |cuts| ==> start <= cuts[k] < |s|
    requires forall k, l :: 0 <= k < l < |cuts| ==> cuts[k] < cuts[l]
    decreases |cuts|
  {
    if cuts == [] then [s[start..]] else [s[start..cuts[0]]] + PiecesAt(s, cuts[0] + 1, cuts[1..])
  }

  lemma SemicolonIsToken(s: string, i: nat)
    requires i < |s| && s[i] == ';'
    ensures TokenEnd(s, i) == Some(i + 1)
  {
  }

  lemma {:induction false} ReachesForward(s: string, i: nat, j: nat)
    requires i <= |s| && Reaches(s, i, j)
    ensures i <= j <= |s|
    decreases |s| - i
  {
    if i != j {
      ReachesForward(s, TokenEnd(s, i).value, j);
    }
  }

  /** The pieces lie between the cuts. */
  lemma {:induction false} SplitAtCuts(s: string, start: nat, i: nat)
    requires start <= i <= |s| && Split(s, start, i).Some?
    ensures Split(s, start, i) == Some(PiecesAt(s, start, Cuts(s, start, i)))
    decreases |s| - i
  {
    if i < |s| {
      if s[i] == ';' {
        SplitAtCuts(s, i + 1, i + 1);
        assert Cuts(s, start, i)[1..] == Cuts(s, i + 1, i + 1);
      } else {
        SplitAtCuts(s, start, TokenEnd(s, i).value);
      }
    }
  }

  /** One token further: what is reached from i is i itself or reached from there. */
  lemma ReachesStep(s: string, i: nat, e: nat, c: nat)
    requires i < |s| && TokenEnd(s, i) == Some(e)
    ensures Reaches(s, i, c) <==> i == c || Reaches(s, e, c)
  {
  }

  lemma CutsAtSemicolon(s: string, start: nat, i: nat, c: nat)
    requires start <= i < |s| && s[i] == ';' && Split(s, start, i).Some?
    ensures c in Cuts(s, start, i) <==> c == i || c in Cuts(s, i + 1, i + 1)
  {
  }

  /** The cuts are exactly the semicolons that stand between tokens. */
  lemma {:induction false} CutsAreTopLevelSemicolons(s: string, start: nat, i: nat, c: nat)
    requires start <= i <= |s| && Split(s, start, i).Some?
    ensures c in Cuts(s, start, i) <==> Reaches(s, i, c) && c < |s| && s[c] == ';'
    decreases |s| - i
  {
    if i < |s| {
      if s[i] == ';' {
        SemicolonIsToken(s, i);
        ReachesStep(s, i, i + 1, c);
        CutsAtSemicolon(s, start, i, c);
        CutsAreTopLevelSemicolons(s, i + 1, i + 1, c);
      } else {
        var e := TokenEnd(s, i).value;
        ReachesStep(s, i, e, c);
        CutsAreTopLevelSemicolons(s, start, e, c);
        assert Cuts(s, start, i) == Cuts(s, start, e);
      }
    }
  }

  /** No boundary, hence no cut, falls strictly inside a comment, quoted text or dollar body. */
  lemma {:induction false} NoCutInsideToken(s: string, i: nat, t: nat, c: nat)
    requires i <= |s| && Reaches(s, i, t) && Reaches(s, i, c) && t < |s| && TokenEnd(s, t).Some?
    ensures !(t < c < TokenEnd(s, t).value)
    decreases |s| - i
  {
    if i != t && i != c {
      NoCutInsideToken(s, TokenEnd(s, i).value, t, c);
    } else if i != c {
      ReachesForward(s, TokenEnd(s, i).value, c);
    } else if i != t {
      ReachesForward(s, TokenEnd(s, i).value, t);
    }
  }

  /** Doubling its quotes, single or double, makes any text one literal. */
  function Doubled(text: string, q: char): string {
    if text == [] then [] else (if text[0] == q then [q, q] else [text[0]]) + Doubled(text[1..], q)
  }

  /** s carries the doubled text at i, then the closing quote. */
  ghost predicate CarriesQuoted(s: string, i: nat, doubled: string, q: char) {
    && i + |doubled| < |s| && s[i + |doubled|] == q
    && (i + |doubled| + 1 < |s| ==> s[i + |doubled| + 1] != q)
    && (forall k :: 0 <= k < |doubled| ==> s[i + k] == doubled[k])
  }

  lemma QuoteEndStep(s: string, i: nat, q: char)
    requires i < |s| && q in {'\'', '"'}
    ensures QuoteEnd(s, i, [q]) ==
      if s[i] != q then QuoteEnd(s, i + 1, [q])
      else if i + 1 < |s| && s[i + 1] == q then QuoteEnd(s, i + 2, [q])
      else Some(i + 1)
  {
    var one, two := [q], [q] + [q];
    assert one[0] == q && two[0] == q && two[1] == q;
    assert StartsWith(s, i, one) <==> s[i + 0] == one[0];
    assert StartsWith(s, i, two) <==> i + 1 < |s| && s[i + 0] == two[0] && s[i + 1] == two[1];
  }

  lemma CarriesRest(s: string, i: nat, all: string, n: nat, q: char)
    requires CarriesQuoted(s, i, all, q) && n <= |all|
    ensures CarriesQuoted(s, i + n, all[n..], q)
  {
    forall k | 0 <= k < |all[n..]| ensures s[i + n + k] == all[n..][k] {
      assert s[i + (n + k)] == all[n + k];
    }
  }

  lemma {:induction false} QuotedEnd(s: string, i: nat, text: string, q: char)
    requires q in {'\'', '"'} && CarriesQuoted(s, i, Doubled(text, q), q)
    ensures QuoteEnd(s, i, [q]) == Some(i + |Doubled(text, q)| + 1)
    decreases |text|
  {
    QuoteEndStep(s, i, q);
    if text != [] {
      var all, n := Doubled(text, q), if text[0] == q then 2 else 1;
      assert s[i + 0] == all[0] && s[i + (n - 1)] == all[n - 1];
      CarriesRest(s, i, all, n, q);
      assert all[n..] == Doubled(text[1..], q);
      QuotedEnd(s, i + n, text[1..], q);
    }
  }

  /** Whatever the text, its quoted form is one token, so nothing in it is cut or read as a comment. */
  lemma QuotedTextIsOnePiece(text: string, q: char)
    requires q in {'\'', '"'}
    ensures var s := [q] + Doubled(text, q) + [q]; Split(s, 0, 0) == Some([s])
  {
    var s := [q] + Doubled(text, q) + [q];
    QuotedEnd(s, 1, text, q);
    QuoteToken(s, 0);
    OneToken(s);
  }

  /** The tag occurs in the text and its closing tag only at the very end. */
  ghost predicate EndsAtTag(body: string, tag: string) {
    |tag| <= |body| && forall i :: 0 <= i < |body| ==> (StartsWith(body, i, tag) <==> i == |body| - |tag|)
  }

  lemma {:induction false} IdentEndInside(tag: string, s: string, i: nat)
    requires i < |tag| <= |s| && tag == s[..|tag|] && IdentEnd(tag, i) < |tag|
    ensures IdentEnd(s, i) == IdentEnd(tag, i)
    decreases |tag| - i
  {
    assert s[i] == tag[i];
    if IsIdentPart(tag[i]) {
      IdentEndInside(tag, s, i + 1);
    }
  }

  /** A tag is read as such whatever follows it. */
  lemma TagReads(tag: string, s: string)
    requires tag != [] && tag <= s && DollarTag(tag, 0) == Some(tag)
    ensures DollarTag(s, 0) == Some(tag)
  {
    assert s[0] == tag[0] && s[1] == tag[1];
    if s[1] == '$' {
      assert tag == tag[0..2] == s[0..2];
    } else {
      var e := IdentEnd(tag, 1);
      IdentEndInside(tag, s, 1);
      assert s[e] == tag[e] && tag == tag[0..e + 1] == s[0..e + 1];
    }
  }

  lemma {:induction false} DollarEnd(s: string, k: nat, i: nat, body: string, tag: string)
    requires k + |body| == |s| && body == s[k..] && i < |body| && EndsAtTag(body, tag) && |tag| >= 2 && !IsQuote(tag)
    requires i <= |body| - |tag| && ';' !in tag
    ensures QuoteEnd(s, k + i, tag) == Some(|s|)
    decreases |body| - i
  {
    StartsWithLocal(body, s, k, i, tag);
    if i < |body| - |tag| {
      DollarEnd(s, k, i + 1, body, tag);
    }
  }

  /** A dollar body whose text and closing tag hold the tag at the end only is one token, quotes and all. */
  lemma DollarBodyIsOnePiece(tag: string, text: string)
    requires tag != [] && DollarTag(tag, 0) == Some(tag) && EndsAtTag(text + tag, tag)
    ensures var s := tag + text + tag; Split(s, 0, 0) == Some([s])
  {
    var body := text + tag;
    var s := tag + text + tag;
    assert s == tag + body && s[|tag|..] == body && s[..|tag|] == tag;
    DollarBodyIsToken(s, tag, body);
    OneToken(s);
  }

  lemma DollarBodyIsToken(s: string, tag: string, body: string)
    requires tag != [] && DollarTag(tag, 0) == Some(tag) && EndsAtTag(body, tag)
    requires |tag| + |body| == |s| && s[..|tag|] == tag && s[|tag|..] == body
    ensures s[0] == '$' && TokenEnd(s, 0) == Some(|s|)
  {
    TagReads(tag, s);
    DollarToken(s, 0, tag);
    DollarEnd(s, |tag|, 0, body, tag);
  }

  lemma OneToken(s: string)
    requires s != [] && s[0] != ';' && TokenEnd(s, 0) == Some(|s|)
    ensures Split(s, 0, 0) == Some([s])
  {
    assert s[0..] == s;
  }

  /** The text of a block comment: characters and comments nested in it. */
  datatype Comment = Done | Char(c: char, rest: Comment) | Nested(inner: Comment, rest: Comment)

  function Text(b: Comment): string {
    match b
    case Done => []
    case Char(c, rest) => [c] + Text(rest)
    case Nested(inner, rest) => "/*" + Text(inner) + "*/" + Text(rest)
  }

  /** The text and the mark that closes it. */
  function Closed(b: Comment): (t: string)
    ensures |t| >= 2
  {
    Text(b) + "*/"
  }

  /** No single character forms a comment mark with what follows it, up to the closing mark. */
  predicate WellNested(b: Comment) {
    match b
    case Done => true
    case Char(c, rest) =>
      !(c == '/' && Closed(rest)[0] == '*') && !(c == '*' && Closed(rest)[0] == '/') && WellNested(rest)
    case Nested(inner, rest) => WellNested(inner) && WellNested(rest)
  }

  lemma ClosedChar(c: char, rest: Comment)
    ensures Closed(Char(c, rest)) == [c] + Closed(rest)
  {
  }

  lemma ClosedNested(inner: Comment, rest: Comment)
    ensures Closed(Nested(inner, rest)) == "/*" + (Closed(inner) + Closed(rest))
  {
    var a, b := Text(inner), Text(rest);
    assert "/*" + a + "*/" + b + "*/" == "/*" + ((a + "*/") + (b + "*/"));
  }

  lemma StartsWithParts(s: string, i: nat, a: string, b: string)
    requires StartsWith(s, i, a + b)
    ensures StartsWith(s, i, a) && StartsWith(s, i + |a|, b)
  {
    forall k | 0 <= k < |a| ensures s[i + k] == a[k] {
      assert s[i + k] == (a + b)[k];
    }
    forall k | 0 <= k < |b| ensures s[i + |a| + k] == b[k] {
      assert s[i + (|a| + k)] == (a + b)[|a| + k];
    }
  }

  lemma MarkAt(s: string, i: nat, mark: string)
    requires StartsWith(s, i, mark) && |mark| == 2
    ensures Pair(s, i, mark[0], mark[1])
  {
    assert s[i + 0] == mark[0] && s[i + 1] == mark[1];
  }

  lemma PassesChar(s: string, i: nat, c: char, tail: string, depth: nat)
    requires StartsWith(s, i, [c] + tail) && tail != []
    requires !(c == '/' && tail[0] == '*') && !(c == '*' && tail[0] == '/')
    ensures StartsWith(s, i + 1, tail) && BlockEnd(s, i, depth + 1) == BlockEnd(s, i + 1, depth + 1)
  {
    StartsWithParts(s, i, [c], tail);
    assert s[i + 0] == [c][0] && s[i + 1 + 0] == tail[0];
  }

  lemma PassesOpening(s: string, i: nat, body: string, tail: string, depth: nat)
    requires StartsWith(s, i, "/*" + (body + tail))
    ensures i + 2 <= |s| && BlockEnd(s, i, depth + 1) == BlockEnd(s, i + 2, depth + 2)
    ensures StartsWith(s, i + 2, body) && StartsWith(s, i + 2 + |body|, tail)
  {
    StartsWithParts(s, i, "/*", body + tail);
    StartsWithParts(s, i + 2, body, tail);
    MarkAt(s, i, "/*");
  }

  lemma PassesClosing(s: string, i: nat, depth: nat)
    requires StartsWith(s, i, Closed(Done))
    ensures BlockEnd(s, i, depth + 1) == BlockEnd(s, i + |Closed(Done)|, depth)
  {
    assert Closed(Done) == "*/";
    MarkAt(s, i, "*/");
  }

  /** The lexer passes over well-nested text and its closing mark, and is one level further out. */
  lemma {:induction false} PassesOver(s: string, i: nat, b: Comment, depth: nat)
    requires WellNested(b) && StartsWith(s, i, Closed(b))
    ensures BlockEnd(s, i, depth + 1) == BlockEnd(s, i + |Closed(b)|, depth)
    decreases b
  {
    match b
    case Done => PassesClosing(s, i, depth);
    case Char(c, rest) =>
      ClosedChar(c, rest);
      PassesChar(s, i, c, Closed(rest), depth);
      PassesOver(s, i + 1, rest, depth);
    case Nested(inner, rest) =>
      ClosedNested(inner, rest);
      PassesOpening(s, i, Closed(inner), Closed(rest), depth);
      PassesOver(s, i + 2, inner, depth + 1);
      PassesOver(s, i + 2 + |Closed(inner)|, rest, depth);
  }

  lemma OneBlockToken(s: string)
    requires Pair(s, 0, '/', '*') && BlockEnd(s, 2, 1) == Some(|s|)
    ensures Split(s, 0, 0) == Some([s])
  {
    assert TokenEnd(s, 0) == Some(|s|);
    OneToken(s);
  }

  /** A well-nested block comment is one token, whatever it holds. */
  lemma CommentIsOnePiece(b: Comment)
    requires WellNested(b)
    ensures var s := "/*" + Closed(b); Split(s, 0, 0) == Some([s])
  {
    var open := "/*";
    var s := open + Closed(b);
    OpensComment(s, open, Closed(b));
    CommentEnds(s, |open|, b, 0);
    OneBlockToken(s);
  }

  lemma OpensComment(s: string, open: string, body: string)
    requires |open| == 2 && open[0] == '/' && open[1] == '*' && s == open + body
    ensures Pair(s, 0, '/', '*') && StartsWith(s, 2, body) && |s| == 2 + |body|
  {
    assert s[0] == open[0] && s[1] == open[1];
    forall k | 0 <= k < |body| ensures s[2 + k] == body[k] {
    }
  }

  lemma CommentEnds(s: string, i: nat, b: Comment, depth: nat)
    requires WellNested(b) && StartsWith(s, i, Closed(b)) && i + |Closed(b)| == |s| && depth == 0
    ensures BlockEnd(s, i, depth + 1) == Some(|s|)
  {
    PassesOver(s, i, b, depth);
  }

  // The second lexer.

  /** Where the statement proper begins: past white space and comments; None when a comment never ends. */
  function Head(s: string, i: nat): (h: Option<nat>)
    requires i <= |s|
    ensures h.Some? ==> i <= h.value <= |s|
    decreases |s| - i
  {
    if i == |s| then Some(i)
    else if IsSpace(s[i]) then Head(s, i + 1)
    else if Pair(s, i, '-', '-') then Head(s, LineEnd(s, i + 2))
    else if Pair(s, i, '/', '*') then
      match BlockEnd(s, i + 2, 1)
      case Some(e) => Head(s, e)
      case None => None
    else Some(i)
  }

  /** `statement.find("\n", from)`. */
  method FindNewline(s: string, from: nat) returns (at: Option<nat>)
    requires from <= |s|
    ensures at.Some? ==> at.value < |s| && LineEnd(s, from) == at.value + 1
    ensures at == None ==> LineEnd(s, from) == |s|
  {
    var i := from;
    while i < |s|
      invariant from <= i <= |s| && LineEnd(s, from) == LineEnd(s, i)
    {
      if s[i] == '\n' {
        return Some(i);
      }
      i := i + 1;
    }
    at := None;
  }

  /** `executable_head`: the rest of the statement, or None when it raises. */
  method ExecutableHead(statement: string) returns (r: Option<string>)
    ensures r == match Head(statement, 0) case Some(h) => Some(statement[h..]) case None => None
  {
    var cursor := 0;
    while cursor < |statement|
      invariant cursor <= |statement| && Head(statement, cursor) == Head(statement, 0)
    {
      if IsSpace(statement[cursor]) {
        cursor := cursor + 1;
      } else if Pair(statement, cursor, '-', '-') {
        var end := FindNewline(statement, cursor + 2);
        cursor := if end == None then |statement| else end.value + 1;
      } else if Pair(statement, cursor, '/', '*') {
        ghost var body := cursor + 2;
        var depth := 1;
        cursor := cursor + 2;
        while cursor < |statement| && depth > 0
          invariant body <= cursor <= |statement|
          invariant BlockEnd(statement, cursor, depth) == BlockEnd(statement, body, 1)
          decreases |statement| - cursor
        {
          if Pair(statement, cursor, '/', '*') {
            depth, cursor := depth + 1, cursor + 2;
          } else if Pair(statement, cursor, '*', '/') {
            depth, cursor := depth - 1, cursor + 2;
          } else {
            cursor := cursor + 1;
          }
        }
        if depth > 0 {
          return None;
        }
      } else {
        break;
      }
    }
    return Some(statement[cursor..]);
  }

  /** Neither white space nor a comment begins at h. */
  ghost predicate Executable(s: string, h: nat) {
    h == |s| || (h < |s| && !IsSpace(s[h]) && !Pair(s, h, '-', '-') && !Pair(s, h, '/', '*'))
  }

  /** On what the splitter accepts the head lexer never raises, and stops between the splitter's tokens. */
  lemma {:induction false} LexersAgree(s: string, start: nat, i: nat)
    requires start <= i <= |s| && Split(s, start, i).Some?
    ensures Head(s, i).Some?
    ensures var h := Head(s, i).value;
      Executable(s, h) && Reaches(s, i, h) && Split(s, start, h) == Split(s, start, i)
    decreases |s| - i
  {
    if i < |s| && (IsSpace(s[i]) || Pair(s, i, '-', '-') || Pair(s, i, '/', '*')) {
      if IsSpace(s[i]) {
        assert TokenEnd(s, i) == Some(i + 1);
      }
      LexersAgree(s, start, TokenEnd(s, i).value);
    }
  }

  predicate Blank(s: string, i: nat) {
    i < |s| && (IsSpace(s[i]) || Pair(s, i, '-', '-') || Pair(s, i, '/', '*'))
  }

  lemma HeadPastBlank(s: string, i: nat)
    requires Blank(s, i)
    ensures Head(s, i) == match TokenEnd(s, i) case Some(e) => Head(s, e) case None => None
  {
    if IsSpace(s[i]) {
      assert TokenEnd(s, i) == Some(i + 1);
    }
  }

  lemma BlankLocal(w: string, s: string, k: nat, i: nat)
    requires Window(w, s, k) && i <= |w| && k + |w| == |s|
    ensures Blank(w, i) <==> Blank(s, k + i)
    ensures Blank(w, i) && TokenEnd(s, k + i).Some? ==> TokenEnd(w, i) == Some(TokenEnd(s, k + i).value - k)
  {
    PairLocal(w, s, k, i, '-', '-');
    PairLocal(w, s, k, i, '/', '*');
    if Blank(w, i) && TokenEnd(s, k + i).Some? {
      TokenEndLocal(w, s, k, i);
    }
  }

  lemma HeadPastBlankLocal(w: string, s: string, k: nat, i: nat) returns (e: nat)
    requires Window(w, s, k) && k + |w| == |s| && i <= |w| && Head(s, k + i).Some? && Blank(s, k + i)
    ensures k + i < e <= |s| && Head(s, k + i) == Head(s, e) && Head(w, i) == Head(w, e - k)
  {
    BlankLocal(w, s, k, i);
    HeadPastBlank(s, k + i);
    HeadPastBlank(w, i);
    e := TokenEnd(s, k + i).value;
  }

  lemma {:induction false} HeadOfSuffix(w: string, s: string, k: nat, i: nat)
    requires Window(w, s, k) && k + |w| == |s| && i <= |w| && Head(s, k + i).Some?
    ensures Head(w, i) == Some(Head(s, k + i).value - k)
    decreases |w| - i
  {
    if Blank(s, k + i) {
      var e := HeadPastBlankLocal(w, s, k, i);
      HeadOfSuffix(w, s, k, e - k);
    } else {
      BlankLocal(w, s, k, i);
    }
  }

  lemma {:induction false} KeywordKeepsBoundary(s: string, start: nat, i: nat, e: nat)
    requires start <= i <= e <= |s| && Split(s, start, i).Some?
    requires forall j :: i <= j < e ==> IsIdentPart(s[j])
    ensures Split(s, start, e) == Split(s, start, i)
    decreases e - i
  {
    if i < e {
      assert IsIdentPart(s[i]);
      assert TokenEnd(s, i) == Some(i + 1);
      KeywordKeepsBoundary(s, start, i + 1, e);
    }
  }

  lemma HeadAfterKeyword(piece: string, h: nat, e: nat)
    requires Split(piece, 0, 0).Some? && h <= e <= |piece| && Split(piece, 0, h) == Split(piece, 0, 0)
    requires forall j :: h <= j < e ==> IsIdentPart(piece[j])
    ensures Head(piece[e..], 0).Some?
  {
    KeywordKeepsBoundary(piece, 0, h, e);
    LexersAgree(piece, 0, e);
    HeadOfSuffix(piece[e..], piece, e, 0);
  }

  lemma KeywordSpan(piece: string, h: nat) returns (e: nat)
    requires h <= |piece|
    ensures h <= e <= |piece| && forall j :: h <= j < e ==> IsIdentPart(piece[j])
    ensures var head := piece[h..]; piece[e..] == head[IdentEnd(head, 0)..]
  {
    var head := piece[h..];
    e := h + IdentEnd(head, 0);
    assert forall j :: h <= j < e ==> piece[j] == head[j - h];
  }

  lemma HeadsOfPiece(piece: string)
    requires Split(piece, 0, 0).Some?
    ensures Head(piece, 0).Some?
    ensures var head := piece[Head(piece, 0).value..]; Head(head[IdentEnd(head, 0)..], 0).Some?
  {
    LexersAgree(piece, 0, 0);
    var h := Head(piece, 0).value;
    var e := KeywordSpan(piece, h);
    HeadAfterKeyword(piece, h, e);
  }

  /**
   `validate_sql` calls the head lexer on each piece, and again on what follows the leading keyword:
   neither call ever raises the unterminated-comment error.
   */
  lemma ValidationNeverMissesCommentEnd(sql: string, pieces: seq<string>, k: nat)
    requires Split(sql, 0, 0) == Some(pieces) && k < |pieces|
    ensures Head(pieces[k], 0).Some?
    ensures var head := pieces[k][Head(pieces[k], 0).value..]; Head(head[IdentEnd(head, 0)..], 0).Some?
  {
    PiecesSplitToThemselves(sql, 0, 0, k);
    HeadsOfPiece(pieces[k]);
  }
}
