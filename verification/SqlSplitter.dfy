/**
 The two hand-written SQL lexers of the migration tool. The tokens are defined here by where each
 one ends; the character loops of the tool are proved to find exactly those tokens.
 */
module SqlSplitter {
  import opened Options

  /** Python's `str.isspace`. */
  predicate IsSpace(c: char) {
    var n := c as int;
    || 0x09 <= n <= 0x0D || 0x1C <= n <= 0x20 || n == 0x85 || n == 0xA0 || n == 0x1680
    || 0x2000 <= n <= 0x200A || n == 0x2028 || n == 0x2029 || n == 0x202F || n == 0x205F || n == 0x3000
  }

  predicate IsIdentStart(c: char) {
    'A' <= c <= 'Z' || 'a' <= c <= 'z' || c == '_'
  }

  predicate IsIdentPart(c: char) {
    IsIdentStart(c) || '0' <= c <= '9'
  }

  predicate StartsWith(s: string, i: nat, p: string) {
    i + |p| <= |s| && forall k :: 0 <= k < |p| ==> s[i + k] == p[k]
  }

  /** The two-character openers and closers: `--`, and the two ends of a block comment. */
  predicate Pair(s: string, i: nat, c: char, d: char) {
    i + 1 < |s| && s[i] == c && s[i + 1] == d
  }

  // Where tokens end.

  /** Just past the next line break, or the end. */
  function LineEnd(s: string, i: nat): (e: nat)
    requires i <= |s|
    ensures i <= e <= |s|
    decreases |s| - i
  {
    if i == |s| then i else if s[i] == '\n' then i + 1 else LineEnd(s, i + 1)
  }

  /** Just past the terminator of the outermost of `depth` open block comments. */
  function BlockEnd(s: string, i: nat, depth: nat): (e: Option<nat>)
    requires i <= |s|
    ensures e.Some? ==> i <= e.value <= |s|
    decreases |s| - i
  {
    if depth == 0 then Some(i)
    else if i == |s| then None
    else if Pair(s, i, '/', '*') then BlockEnd(s, i + 2, depth + 1)
    else if Pair(s, i, '*', '/') then BlockEnd(s, i + 2, depth - 1)
    else BlockEnd(s, i + 1, depth)
  }

  predicate IsQuote(tok: string) {
    |tok| == 1 && (tok[0] == '\'' || tok[0] == '"')
  }

  /** Just past the closing `tok`; a doubled quote does not close. */
  function QuoteEnd(s: string, i: nat, tok: string): (e: Option<nat>)
    requires i <= |s| && |tok| > 0
    ensures e.Some? ==> i < e.value <= |s|
    decreases |s| - i
  {
    if i == |s| then None
    else if !StartsWith(s, i, tok) then QuoteEnd(s, i + 1, tok)
    else if IsQuote(tok) && StartsWith(s, i, tok + tok) then QuoteEnd(s, i + 2, tok)
    else Some(i + |tok|)
  }

  function IdentEnd(s: string, i: nat): (e: nat)
    requires i <= |s|
    ensures i <= e <= |s| && (forall j :: i <= j < e ==> IsIdentPart(s[j]))
    ensures e < |s| ==> !IsIdentPart(s[e])
    decreases |s| - i
  {
    if i < |s| && IsIdentPart(s[i]) then IdentEnd(s, i + 1) else i
  }

  /** A dollar-quote tag at i: `$$`, or `$name$`. */
  function DollarTag(s: string, i: nat): (t: Option<string>)
    requires i < |s|
    ensures t.Some? ==> |t.value| >= 2 && t.value[0] == '$' && StartsWith(s, i, t.value) && ';' !in t.value && !IsQuote(t.value)
  {
    if s[i] != '$' || i + 1 == |s| then None
    else if s[i + 1] == '$' then Some(s[i..i + 2])
    else if !IsIdentStart(s[i + 1]) then None
    else
      var e := IdentEnd(s, i + 1);
      if e < |s| && s[e] == '$' then Some(s[i..e + 1]) else None
  }

  /** Where the token that starts at i ends; None when it is never closed. */
  function TokenEnd(s: string, i: nat): (e: Option<nat>)
    requires i < |s|
    ensures e.Some? ==> i < e.value <= |s|
  {
    if Pair(s, i, '-', '-') then Some(LineEnd(s, i + 2))
    else if Pair(s, i, '/', '*') then BlockEnd(s, i + 2, 1)
    else if IsQuote([s[i]]) then QuoteEnd(s, i + 1, [s[i]])
    else
      match DollarTag(s, i)
      case Some(tag) => QuoteEnd(s, i + |tag|, tag)
      case None => Some(i + 1)
  }

  /** The pieces of s[start..] when the lexer stands between tokens at i. */
  function Split(s: string, start: nat, i: nat): (r: Option<seq<string>>)
    requires start <= i <= |s|
    ensures r.Some? ==> |r.value| > 0
    decreases |s| - i
  {
    if i == |s| then Some([s[start..]])
    else if s[i] == ';' then
      match Split(s, i + 1, i + 1)
      case Some(rest) => Some([s[start..i]] + rest)
      case None => None
    else
      match TokenEnd(s, i)
      case Some(e) => Split(s, start, e)
      case None => None
  }

  /** What the generator yields from there on, up to the token that is never closed if there is one. */
  function Yielded(s: string, start: nat, i: nat): seq<string>
    requires start <= i <= |s|
    decreases |s| - i
  {
    if i == |s| then [s[start..]]
    else if s[i] == ';' then [s[start..i]] + Yielded(s, i + 1, i + 1)
    else
      match TokenEnd(s, i)
      case Some(e) => Yielded(s, start, e)
      case None => []
  }

  /** When splitting does not raise, the pieces are all that is yielded. */
  lemma {:induction false} SplitIsYielded(s: string, start: nat, i: nat)
    requires start <= i <= |s| && Split(s, start, i).Some?
    ensures Split(s, start, i).value == Yielded(s, start, i)
    decreases |s| - i
  {
    if i < |s| {
      if s[i] == ';' {
        SplitIsYielded(s, i + 1, i + 1);
      } else {
        SplitIsYielded(s, start, TokenEnd(s, i).value);
      }
    }
  }

  // The splitter's loop.

  /** Where the loop's open token ends: the line, the block comment or the quoted text it is in. */
  ghost function OpenEnd(s: string, cursor: nat, token: Option<string>, depth: nat): (e: Option<nat>)
    requires cursor <= |s| && (token.Some? ==> |token.value| > 0)
    ensures e.Some? ==> cursor <= e.value <= |s|
  {
    if token == Some("--") then Some(LineEnd(s, cursor))
    else if depth > 0 then BlockEnd(s, cursor, depth)
    else if token.Some? then QuoteEnd(s, cursor, token.value)
    else Some(cursor)
  }

  /** The loop's state: what it has yielded, and what is to come once the open token has ended. */
  ghost predicate Progress(s: string, yielded: seq<string>, start: nat, end: Option<nat>)
    requires end.Some? ==> start <= end.value <= |s|
  {
    match end
    case Some(e) =>
      && yielded + Yielded(s, start, e) == Yielded(s, 0, 0)
      && (Split(s, start, e).Some? <==> Split(s, 0, 0).Some?)
    case None => yielded == Yielded(s, 0, 0) && Split(s, 0, 0) == None
  }

  // One turn of the loop inside an open token leaves its end unchanged.

  lemma InLine(s: string, i: nat)
    requires i < |s|
    ensures OpenEnd(s, i, Some("--"), 0) == OpenEnd(s, i + 1, if s[i] == '\n' then None else Some("--"), 0)
  {
  }

  lemma InBlock(s: string, i: nat, depth: nat)
    requires i < |s| && depth > 0
    ensures OpenEnd(s, i, None, depth) ==
      (if Pair(s, i, '/', '*') then OpenEnd(s, i + 2, None, depth + 1)
       else if Pair(s, i, '*', '/') then OpenEnd(s, i + 2, None, depth - 1)
       else OpenEnd(s, i + 1, None, depth))
  {
    if depth == 1 && Pair(s, i, '*', '/') {
      assert BlockEnd(s, i + 2, 0) == Some(i + 2);
    }
  }

  lemma InQuote(s: string, i: nat, tok: string)
    requires i < |s| && |tok| > 0 && tok != "--"
    ensures OpenEnd(s, i, Some(tok), 0) ==
      (if !StartsWith(s, i, tok) then OpenEnd(s, i + 1, Some(tok), 0)
       else if IsQuote(tok) && StartsWith(s, i, tok + tok) then OpenEnd(s, i + 2, Some(tok), 0)
       else OpenEnd(s, i + |tok|, None, 0))
  {
  }

  /** Between tokens, a token that starts here is opened. */
  lemma AtToken(s: string, i: nat)
    requires i < |s| && s[i] != ';'
    ensures TokenEnd(s, i) ==
      (if Pair(s, i, '-', '-') then OpenEnd(s, i + 2, Some("--"), 0)
       else if Pair(s, i, '/', '*') then OpenEnd(s, i + 2, None, 1)
       else if IsQuote([s[i]]) then OpenEnd(s, i + 1, Some([s[i]]), 0)
       else if DollarTag(s, i).Some? then OpenEnd(s, i + |DollarTag(s, i).value|, DollarTag(s, i), 0)
       else OpenEnd(s, i + 1, None, 0))
  {
  }

  lemma ProgressToken(s: string, yielded: seq<string>, start: nat, i: nat)
    requires start <= i < |s| && s[i] != ';' && Progress(s, yielded, start, Some(i))
    ensures Progress(s, yielded, start, TokenEnd(s, i))
  {
    assert Yielded(s, start, i) == match TokenEnd(s, i) case Some(e) => Yielded(s, start, e) case None => [];
  }

  lemma ProgressCut(s: string, yielded: seq<string>, start: nat, i: nat)
    requires start <= i < |s| && s[i] == ';' && Progress(s, yielded, start, Some(i))
    ensures Progress(s, yielded + [s[start..i]], i + 1, Some(i + 1))
  {
    var rest := Yielded(s, i + 1, i + 1);
    assert yielded + [s[start..i]] + rest == yielded + ([s[start..i]] + rest);
  }

  /** The three branches of the loop inside an open line comment, block comment or quoted text. */
  method InsideToken(sql: string, cursor: nat, token: Option<string>, depth: nat)
    returns (cursor': nat, token': Option<string>, depth': nat)
    requires cursor < |sql| && (token.Some? || depth > 0)
    requires token.Some? ==> |token.value| > 0 && depth == 0
    ensures cursor < cursor' <= |sql| && (token'.Some? ==> |token'.value| > 0 && depth' == 0)
    ensures OpenEnd(sql, cursor', token', depth') == OpenEnd(sql, cursor, token, depth)
  {
    cursor', token', depth' := cursor, token, depth;
    if token == Some("--") {
      InLine(sql, cursor);
      if sql[cursor] == '\n' {
        token' := None;
      }
      cursor' := cursor + 1;
    } else if depth > 0 {
      InBlock(sql, cursor, depth);
      if Pair(sql, cursor, '/', '*') {
        depth', cursor' := depth + 1, cursor + 2;
      } else if Pair(sql, cursor, '*', '/') {
        depth', cursor' := depth - 1, cursor + 2;
      } else {
        cursor' := cursor + 1;
      }
    } else {
      InQuote(sql, cursor, token.value);
      if StartsWith(sql, cursor, token.value) {
        if IsQuote(token.value) && StartsWith(sql, cursor, token.value + token.value) {
          cursor' := cursor + 2;
        } else {
          cursor', token' := cursor + |token.value|, None;
        }
      } else {
        cursor' := cursor + 1;
      }
    }
  }

  /** The branches that open a token, or pass over a single character. */
  method OpenToken(sql: string, cursor: nat) returns (cursor': nat, token: Option<string>, depth: nat)
    requires cursor < |sql| && sql[cursor] != ';'
    ensures cursor < cursor' <= |sql| && (token.Some? ==> |token.value| > 0 && depth == 0)
    ensures OpenEnd(sql, cursor', token, depth) == TokenEnd(sql, cursor)
  {
    AtToken(sql, cursor);
    token, depth := None, 0;
    var tag := DollarTag(sql, cursor);
    if Pair(sql, cursor, '-', '-') {
      token, cursor' := Some("--"), cursor + 2;
    } else if Pair(sql, cursor, '/', '*') {
      depth, cursor' := 1, cursor + 2;
    } else if IsQuote([sql[cursor]]) {
      token, cursor' := Some([sql[cursor]]), cursor + 1;
    } else if tag.Some? {
      token, cursor' := tag, cursor + |tag.value|;
    } else {
      cursor' := cursor + 1;
    }
  }

  /**
   `statements`: what it yields, and whether it then raises. It raises exactly when a token is never
   closed; the pieces before that token have been yielded by then.
   */
  method Statements(sql: string) returns (pieces: seq<string>, raised: bool)
    ensures raised <==> Split(sql, 0, 0) == None
    ensures !raised ==> Split(sql, 0, 0) == Some(pieces)
    ensures pieces == Yielded(sql, 0, 0)
  {
    var start, cursor, depth := 0, 0, 0;
    var token: Option<string> := None;
    pieces := [];
    while cursor < |sql|
      invariant 0 <= start <= cursor <= |sql|
      invariant token.Some? ==> |token.value| > 0 && depth == 0
      invariant Progress(sql, pieces, start, OpenEnd(sql, cursor, token, depth))
      decreases |sql| - cursor
    {
      if token.Some? || depth > 0 {
        cursor, token, depth := InsideToken(sql, cursor, token, depth);
      } else if sql[cursor] != ';' {
        ProgressToken(sql, pieces, start, cursor);
        cursor, token, depth := OpenToken(sql, cursor);
      } else {
        ProgressCut(sql, pieces, start, cursor);
        pieces := pieces + [sql[start..cursor]];
        cursor := cursor + 1;
        start := cursor;
      }
    }
    if depth > 0 || (token.Some? && token != Some("--")) {
      return pieces, true;
    }
    assert OpenEnd(sql, cursor, token, depth) == Some(|sql|);
    if Split(sql, 0, 0).Some? {
      SplitIsYielded(sql, 0, 0);
    }
    return pieces + [sql[start..]], false;
  }
}
