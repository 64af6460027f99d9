/** The conservative lexical mask: which bytes are code rather than comment or quoted text. */
module Lexing {
  datatype Kind = Code | LineComment | BlockComment | Quoted

  datatype Token = Token(kind: Kind, length: nat)

  predicate IsQuote(c: char) {
    c == '\'' || c == '"' || c == '`'
  }

  // ----- the grammar -----

  /** Backslashes immediately before position i of a literal that opens at 0. */
  function BackslashRun(s: string, i: nat): nat
    requires i <= |s|
  {
    if i > 1 && s[i - 1] == '\\' then 1 + BackslashRun(s, i - 1) else 0
  }

  /** A delimiter inside the literal that an even run of backslashes precedes. */
  predicate Closes(s: string, i: nat)
    requires 0 < i < |s|
  {
    s[i] == s[0] && BackslashRun(s, i) % 2 == 0
  }

  predicate EndsBlock(s: string, i: nat)
    requires i < |s|
  {
    s[i] == '*' && i + 1 < |s| && s[i + 1] == '/'
  }

  /** t is what the text s starts with. */
  ghost predicate StartsWith(s: string, t: Token) {
    0 < t.length <= |s| &&
    match t.kind
    case Code => t.length == 1 && !IsQuote(s[0]) && !("//" <= s) && !("/*" <= s)
    case LineComment => "//" <= s && (forall i :: 0 <= i < t.length ==> s[i] != '\n')
        && (t.length < |s| ==> s[t.length] == '\n')
    case BlockComment =>
      "/*" <= s
      && (forall i :: 2 <= i && i + 2 < t.length ==> !EndsBlock(s, i))
      && (t.length < |s| ==> t.length >= 4 && EndsBlock(s, t.length - 2))
    case Quoted =>
      IsQuote(s[0])
      && (forall i :: 1 <= i < t.length - 1 ==> !Closes(s, i))
      && (t.length < |s| ==> t.length >= 2 && Closes(s, t.length - 1))
  }

  /** A division of the whole text into code bytes, comments and literals. */
  ghost predicate Lexes(s: string, tokens: seq<Token>)
    decreases |tokens|
  {
    if tokens == [] then s == []
    else StartsWith(s, tokens[0]) && Lexes(s[tokens[0].length..], tokens[1..])
  }

  function Flags(n: nat, flag: bool): seq<bool> {
    seq(n, _ => flag)
  }

  function Marks(tokens: seq<Token>): seq<bool> {
    if tokens == [] then []
    else Flags(tokens[0].length, tokens[0].kind.Code?) + Marks(tokens[1..])
  }

  // ----- the lexer -----

  function ToNewline(s: string): (n: nat)
    ensures n <= |s|
  {
    if s == [] || s[0] == '\n' then 0 else 1 + ToNewline(s[1..])
  }

  function ToBlockEnd(s: string): (n: nat)
    ensures n <= |s|
  {
    if s == [] then 0 else if "*/" <= s then 2 else 1 + ToBlockEnd(s[1..])
  }

  function ToQuote(s: string, quote: char, escaped: bool): (n: nat)
    ensures n <= |s|
  {
    if s == [] then 0
    else if s[0] == quote && !escaped then 1
    else 1 + ToQuote(s[1..], quote, s[0] == '\\' && !escaped)
  }

  function First(s: string): (t: Token)
    requires s != []
    ensures 0 < t.length <= |s|
  {
    if "//" <= s then Token(LineComment, 2 + ToNewline(s[2..]))
    else if "/*" <= s then Token(BlockComment, 2 + ToBlockEnd(s[2..]))
    else if IsQuote(s[0]) then Token(Quoted, 1 + ToQuote(s[1..], s[0], false))
    else Token(Code, 1)
  }

  function Tokens(s: string): seq<Token> {
    if s == [] then [] else [First(s)] + Tokens(s[First(s).length..])
  }

  function Mask(s: string): (m: seq<bool>)
    ensures |m| == |s|
  {
    if s == [] then []
    else Flags(First(s).length, First(s).kind.Code?) + Mask(s[First(s).length..])
  }

  // ----- the lexer follows the grammar -----

  lemma {:induction false} NewlineEnds(s: string)
    ensures (forall i :: 0 <= i < ToNewline(s) ==> s[i] != '\n') && (ToNewline(s) < |s| ==> s[ToNewline(s)] == '\n')
  {
    if s != [] && s[0] != '\n' {
      NewlineEnds(s[1..]);
      forall i | 0 <= i < ToNewline(s) ensures s[i] != '\n' {
        if i > 0 { assert s[i] == s[1..][i - 1]; }
      }
    }
  }

  lemma {:induction false} BlockEnds(s: string, i: nat)
    requires i <= |s|
    ensures var n := i + ToBlockEnd(s[i..]);
            && (forall j :: i <= j && j + 2 < n ==> !EndsBlock(s, j))
            && (n < |s| ==> n >= i + 2 && EndsBlock(s, n - 2))
    decreases |s| - i
  {
    var rest := s[i..];
    if rest != [] {
      assert "*/" <= rest <==> EndsBlock(s, i);
      if !("*/" <= rest) {
        BlockEnds(s, i + 1);
        assert rest[1..] == s[i + 1..];
      }
    }
  }

  lemma {:induction false} QuoteEnds(s: string, i: nat, escaped: bool)
    requires 1 <= i <= |s| && IsQuote(s[0]) && escaped == (BackslashRun(s, i) % 2 == 1)
    ensures var n := i + ToQuote(s[i..], s[0], escaped);
            && (forall j :: i <= j < n - 1 ==> !Closes(s, j))
            && (n < |s| ==> n >= i + 1 && Closes(s, n - 1))
    decreases |s| - i
  {
    var rest := s[i..];
    if rest != [] && !(s[i] == s[0] && !escaped) {
      assert BackslashRun(s, i + 1) == if s[i] == '\\' then 1 + BackslashRun(s, i) else 0;
      QuoteEnds(s, i + 1, s[i] == '\\' && !escaped);
      assert rest[1..] == s[i + 1..];
    }
  }

  lemma FirstStarts(s: string)
    requires s != []
    ensures StartsWith(s, First(s))
  {
    hide ToNewline, ToBlockEnd, ToQuote, Closes;
    var n := First(s).length;
    if "//" <= s {
      NewlineEnds(s[2..]);
      forall i | 0 <= i < n ensures s[i] != '\n' {
        if i >= 2 { assert s[i] == s[2..][i - 2]; } else { assert s[i] == '/'; }
      }
    } else if "/*" <= s {
      BlockEnds(s, 2);
    } else if IsQuote(s[0]) {
      QuoteEnds(s, 1, false);
    }
  }

  lemma StartIsUnique(s: string, t: Token, u: Token)
    requires StartsWith(s, t) && StartsWith(s, u) && t.length <= u.length
    ensures t == u
  {
    hide Closes;
    assert "//" <= s ==> s[0] == '/' && s[1] == '/';
    assert "/*" <= s ==> s[0] == '/' && s[1] == '*';
    assert t.kind == u.kind;
  }

  lemma FirstIsUnique(s: string, t: Token)
    requires s != [] && StartsWith(s, t)
    ensures t == First(s)
  {
    FirstStarts(s);
    hide First;
    if t.length <= First(s).length { StartIsUnique(s, t, First(s)); } else { StartIsUnique(s, First(s), t); }
  }

  lemma {:induction false} TokensLex(s: string)
    ensures Lexes(s, Tokens(s)) && Marks(Tokens(s)) == Mask(s)
    decreases |s|
  {
    if s != [] {
      var t := First(s);
      FirstStarts(s);
      TokensLex(s[t.length..]);
      hide First, StartsWith;
      assert Tokens(s)[1..] == Tokens(s[t.length..]);
    }
  }

  /** There is one lexing, so the mask is exactly what the grammar marks as code. */
  lemma {:induction false} MaskIsTheLexing(s: string, tokens: seq<Token>)
    requires Lexes(s, tokens)
    ensures tokens == Tokens(s) && Marks(tokens) == Mask(s)
    decreases |tokens|
  {
    if tokens != [] {
      hide First, StartsWith;
      FirstIsUnique(s, tokens[0]);
      MaskIsTheLexing(s[tokens[0].length..], tokens[1..]);
      assert tokens == [tokens[0]] + tokens[1..];
    }
  }

  // ----- the mask as the scanner computes it -----

  datatype State = InCode | InLineComment | InBlockComment | Single | Double | Backtick

  function Delimiter(state: State): char
    requires state.Single? || state.Double? || state.Backtick?
  {
    if state.Single? then '\'' else if state.Double? then '"' else '`'
  }

  predicate InQuotes(state: State) {
    state.Single? || state.Double? || state.Backtick?
  }

  /** Bytes until the state is left. */
  function Inside(state: State, escaped: bool, s: string): (n: nat)
    ensures n <= |s|
  {
    match state
    case InCode => 0
    case InLineComment => ToNewline(s)
    case InBlockComment => ToBlockEnd(s)
    case _ => ToQuote(s, Delimiter(state), escaped)
  }

  /** The marks of the rest of the text, from the middle of a token. */
  function Rest(state: State, escaped: bool, s: string): (m: seq<bool>)
    ensures |m| == |s|
  {
    Flags(Inside(state, escaped, s), false) + Mask(s[Inside(state, escaped, s)..])
  }

  /** Splitting a run of unmarked bytes. */
  lemma SplitRun(s: string, a: nat, b: nat)
    requires a + b <= |s|
    ensures Flags(a + b, false) + Mask(s[a + b..]) == Flags(a, false) + (Flags(b, false) + Mask(s[a..][b..]))
  {
    hide Mask;
    assert s[a..][b..] == s[a + b..];
  }

  lemma RestByRun(state: State, escaped: bool, s: string, state': State, escaped': bool, k: nat)
    requires k <= |s| && Inside(state, escaped, s) == k + Inside(state', escaped', s[k..])
    ensures Rest(state, escaped, s) == Flags(k, false) + Rest(state', escaped', s[k..])
  {
    hide Inside, Mask;
    SplitRun(s, k, Inside(state', escaped', s[k..]));
  }

  lemma OpenByRun(s: string, state': State, k: nat)
    requires s != [] && k <= |s| && !First(s).kind.Code? && First(s).length == k + Inside(state', false, s[k..])
    ensures Rest(InCode, false, s) == Flags(k, false) + Rest(state', false, s[k..])
  {
    var n := Inside(state', false, s[k..]);
    assert Mask(s) == Flags(k + n, false) + Mask(s[k + n..]);
    assert Inside(InCode, false, s) == 0;
    hide Inside, Mask, First;
    SplitRun(s, k, n);
    SplitRun(s, 0, 0);
  }

  lemma LineOpens(s: string)
    requires "//" <= s
    ensures Rest(InCode, false, s) == Flags(2, false) + Rest(InLineComment, false, s[2..])
  {
    hide ToNewline, Mask, Rest;
    OpenByRun(s, InLineComment, 2);
  }

  lemma BlockOpens(s: string)
    requires "/*" <= s
    ensures Rest(InCode, false, s) == Flags(2, false) + Rest(InBlockComment, false, s[2..])
  {
    hide ToBlockEnd, Mask, Rest;
    assert s[1] == '*';
    assert !("//" <= s);
    OpenByRun(s, InBlockComment, 2);
  }

  lemma QuoteOpens(s: string, state: State)
    requires s != [] && InQuotes(state) && s[0] == Delimiter(state)
    ensures Rest(InCode, false, s) == Flags(1, false) + Rest(state, false, s[1..])
  {
    hide ToQuote, Mask, Rest;
    OpenByRun(s, state, 1);
  }

  lemma CodeMoves(s: string)
    requires s != [] && !IsQuote(s[0]) && !("//" <= s) && !("/*" <= s)
    ensures Rest(InCode, false, s) == Flags(1, true) + Rest(InCode, false, s[1..])
  {
    assert Mask(s) == Flags(1, true) + Mask(s[1..]);
    hide Mask;
  }

  lemma LineCloses(s: string)
    requires s != [] && s[0] == '\n'
    ensures Rest(InLineComment, false, s) == Flags(1, true) + Rest(InCode, false, s[1..])
  {
    CodeMoves(s);
    assert Inside(InLineComment, false, s) == 0 == Inside(InCode, false, s);
    hide Inside, Mask;
  }

  lemma LineGoesOn(s: string)
    requires s != [] && s[0] != '\n'
    ensures Rest(InLineComment, false, s) == Flags(1, false) + Rest(InLineComment, false, s[1..])
  {
    hide Mask, Rest;
    RestByRun(InLineComment, false, s, InLineComment, false, 1);
  }

  lemma BlockMoves(s: string)
    requires s != []
    ensures "*/" <= s ==> Rest(InBlockComment, false, s) == Flags(2, false) + Rest(InCode, false, s[2..])
    ensures !("*/" <= s) ==> Rest(InBlockComment, false, s) == Flags(1, false) + Rest(InBlockComment, false, s[1..])
  {
    hide Mask, Rest;
    if "*/" <= s {
      RestByRun(InBlockComment, false, s, InCode, false, 2);
    } else {
      RestByRun(InBlockComment, false, s, InBlockComment, false, 1);
    }
  }

  lemma QuoteCloses(s: string, state: State)
    requires s != [] && InQuotes(state) && s[0] == Delimiter(state)
    ensures Rest(state, false, s) == Flags(1, false) + Rest(InCode, false, s[1..])
  {
    hide Mask, Rest;
    RestByRun(state, false, s, InCode, false, 1);
  }

  lemma QuoteGoesOn(s: string, state: State, escaped: bool)
    requires s != [] && InQuotes(state) && !(s[0] == Delimiter(state) && !escaped)
    ensures Rest(state, escaped, s) == Flags(1, false) + Rest(state, s[0] == '\\' && !escaped, s[1..])
  {
    hide Mask, Rest;
    RestByRun(state, escaped, s, state, s[0] == '\\' && !escaped, 1);
  }

  /** What is known of the scan at a position: the marks so far and the marks still to come. */
  ghost predicate Scanned(source: string, mask: seq<bool>, index: nat, state: State, escaped: bool) {
    && index <= |source| == |mask|
    && Mask(source) == mask[..index] + Rest(state, escaped, source[index..])
    && (forall i :: index <= i < |mask| ==> !mask[i])
    && (escaped ==> InQuotes(state))
  }

  /** What one turn does: whether it marks the byte, how far it goes, and the state it moves to. */
  ghost predicate Moves(rest: string, state: State, escaped: bool, mark: bool, step: nat, state': State,
                        escaped': bool) {
    && 1 <= step <= |rest| && (mark ==> step == 1)
    && Rest(state, escaped, rest) == Flags(step, mark) + Rest(state', escaped', rest[step..])
    && (escaped' ==> InQuotes(state'))
  }

  lemma ScanStep(source: string, mask: seq<bool>, index: nat, mark: bool, step: nat, state: State, escaped: bool,
                 state': State, escaped': bool)
    requires Scanned(source, mask, index, state, escaped) && index < |source|
    requires Moves(source[index..], state, escaped, mark, step, state', escaped')
    ensures Scanned(source, if mark then mask[index := true] else mask, index + step, state', escaped')
  {
    hide Rest, Mask;
    var more := if mark then mask[index := true] else mask;
    assert source[index..][step..] == source[index + step..];
    assert more[..index + step] == mask[..index] + Flags(step, mark);
  }

  method ScanCode(source: string, index: nat) returns (mark: bool, step: nat, state: State)
    requires index < |source|
    ensures Moves(source[index..], InCode, false, mark, step, state, false) && 1 <= step <= |source| - index
  {
    hide Rest;
    ghost var rest := source[index..];
    var current := source[index];
    var next := if index + 1 < |source| then source[index + 1] else '\0';
    mark, step, state := false, 1, InCode;
    if current == '/' && next == '/' {
      LineOpens(rest);
      step, state := 2, InLineComment;
    } else if current == '/' && next == '*' {
      BlockOpens(rest);
      step, state := 2, InBlockComment;
    } else if current == '\'' {
      QuoteOpens(rest, Single);
      state := Single;
    } else if current == '"' {
      QuoteOpens(rest, Double);
      state := Double;
    } else if current == '`' {
      QuoteOpens(rest, Backtick);
      state := Backtick;
    } else {
      CodeMoves(rest);
      mark := true;
    }
  }

  method ScanComment(source: string, index: nat, before: State) returns (mark: bool, step: nat, state: State)
    requires index < |source| && (before.InLineComment? || before.InBlockComment?)
    ensures Moves(source[index..], before, false, mark, step, state, false) && 1 <= step <= |source| - index
  {
    hide Rest;
    ghost var rest := source[index..];
    mark, step, state := false, 1, before;
    if before.InLineComment? {
      if source[index] == '\n' {
        LineCloses(rest);
        mark, state := true, InCode;
      } else {
        LineGoesOn(rest);
      }
    } else {
      BlockMoves(rest);
      if source[index] == '*' && index + 1 < |source| && source[index + 1] == '/' {
        step, state := 2, InCode;
      }
    }
  }

  method ScanQuoted(source: string, index: nat, before: State, wasEscaped: bool) returns (state: State, escaped: bool)
    requires index < |source| && InQuotes(before)
    ensures Moves(source[index..], before, wasEscaped, false, 1, state, escaped) && (escaped ==> InQuotes(state))
  {
    hide Rest;
    state := if source[index] == Delimiter(before) && !wasEscaped then InCode else before;
    if state.InCode? {
      QuoteCloses(source[index..], before);
    } else {
      QuoteGoesOn(source[index..], before, wasEscaped);
    }
    escaped := source[index] == '\\' && !wasEscaped;
  }

  /** One turn of the scan. */
  method ScanOne(source: string, mask: array<bool>, index: nat, state: State, escaped: bool)
    returns (index': nat, state': State, escaped': bool)
    requires index < |source| == mask.Length && (escaped ==> InQuotes(state))
    requires Scanned(source, mask[..], index, state, escaped)
    modifies mask
    ensures index < index' <= |source| && (escaped' ==> InQuotes(state'))
    ensures Scanned(source, mask[..], index', state', escaped')
  {
    hide Scanned, Moves;
    ghost var before := mask[..];
    var mark, step := false, 1;
    escaped' := false;
    if state.InCode? {
      mark, step, state' := ScanCode(source, index);
    } else if !InQuotes(state) {
      mark, step, state' := ScanComment(source, index, state);
    } else {
      state', escaped' := ScanQuoted(source, index, state, escaped);
    }
    ScanStep(source, before, index, mark, step, state, escaped, state', escaped');
    if mark {
      mask[index] := true;
    }
    assert mask[..] == if mark then before[index := true] else before;
    index' := index + step;
  }

  method CodeMask(source: string) returns (marks: seq<bool>)
    ensures marks == Mask(source)
    ensures forall tokens :: Lexes(source, tokens) ==> marks == Marks(tokens)
  {
    hide Scanned, Lexes, Mask, Marks;
    var mask := new bool[|source|](_ => false);
    var state, escaped, index := InCode, false, 0;
    NothingScanned(source, mask[..]);
    while index < |source|
      invariant mask.Length == |source| && index <= |source| && (escaped ==> InQuotes(state))
      invariant Scanned(source, mask[..], index, state, escaped)
      decreases |source| - index
    {
      index, state, escaped := ScanOne(source, mask, index, state, escaped);
    }
    AllScanned(source, mask[..], index, state, escaped);
    marks := mask[..];
    forall tokens | Lexes(source, tokens) ensures marks == Marks(tokens) {
      MaskIsTheLexing(source, tokens);
    }
  }

  lemma NothingScanned(source: string, mask: seq<bool>)
    requires |mask| == |source| && forall i :: 0 <= i < |mask| ==> !mask[i]
    ensures Scanned(source, mask, 0, InCode, false)
  {
    assert source[0..] == source && Flags(0, false) == [];
    hide Mask;
  }

  lemma AllScanned(source: string, mask: seq<bool>, index: nat, state: State, escaped: bool)
    requires Scanned(source, mask, index, state, escaped) && index == |source|
    ensures mask == Mask(source)
  {
    assert source[index..] == [];
  }

  // ----- how far an edit can be felt -----

  /** Bytes that neither open nor continue a comment, a literal or a line end. */
  predicate Plain(c: char) {
    !IsQuote(c) && c != '/' && c != '*' && c != '\n'
  }

  lemma MaskUnfolds(s: string)
    requires s != []
    ensures Mask(s) == Flags(First(s).length, First(s).kind.Code?) + Mask(s[First(s).length..])
    ensures First(s).kind.Code? ==> First(s).length == 1
  {
    hide ToNewline, ToBlockEnd, ToQuote;
  }

  /** At a code byte the rest of the text is lexed on its own. */
  lemma {:induction false} CodeSuffix(s: string, i: nat)
    requires i < |s| && Mask(s)[i]
    ensures First(s[i..]).kind.Code? && Mask(s) == Mask(s)[..i] + Mask(s[i..])
    decreases |s|
  {
    hide First, Mask;
    MaskUnfolds(s);
    var n := First(s).length;
    if i < n {
      assert i == 0 && s[0..] == s;
    } else {
      var rest := s[n..];
      CodeSuffix(rest, i - n);
      assert rest[i - n..] == s[i..];
      assert Mask(s)[..i] == Flags(n, First(s).kind.Code?) + Mask(rest)[..i - n];
    }
  }

  lemma PlainStart(s: string)
    requires s != [] && !IsQuote(s[0]) && s[0] != '/'
    ensures First(s) == Token(Code, 1) && Mask(s) == Flags(1, true) + Mask(s[1..]) && Mask(s)[0]
  {
    hide ToNewline, ToBlockEnd, ToQuote;
    MaskUnfolds(s);
    hide Mask;
  }

  /** A byte that follows code and opens nothing is code. */
  lemma NextIsCode(s: string, i: nat)
    requires i + 1 < |s| && Mask(s)[i] && !IsQuote(s[i + 1]) && s[i + 1] != '/'
    ensures Mask(s)[i + 1]
  {
    hide Mask, First;
    CodeSuffix(s, i);
    var rest := s[i..];
    MaskUnfolds(rest);
    PlainStart(rest[1..]);
    assert Mask(rest)[1] == Mask(rest[1..])[0];
  }

  lemma {:induction false} CodeRunsOn(s: string, i: nat, j: nat)
    requires i < j <= |s| && Mask(s)[i] && forall k :: i < k < j ==> !IsQuote(s[k]) && s[k] != '/'
    ensures forall k :: i <= k < j ==> Mask(s)[k]
    decreases j - i
  {
    hide Mask;
    if i + 1 < j {
      NextIsCode(s, i);
      CodeRunsOn(s, i + 1, j);
    }
  }

  lemma {:induction false} PlainText(w: string, t: string)
    requires forall i :: 0 <= i < |w| ==> Plain(w[i])
    ensures Mask(w + t) == Flags(|w|, true) + Mask(t)
  {
    hide Mask, First;
    if w == [] {
      assert w + t == t;
    } else {
      PlainText(w[1..], t);
      assert (w + t)[1..] == w[1..] + t;
      assert (w + t)[0] == w[0];
      PlainStart(w + t);
      assert Flags(|w|, true) == Flags(1, true) + Flags(|w[1..]|, true);
    }
  }

  lemma {:induction false} NewlineSwap(x: string, b: string, c: string)
    requires b != [] && c != [] && Plain(b[0]) && Plain(c[0])
    ensures ToNewline(x + b) <= |x| ==> ToNewline(x + c) == ToNewline(x + b)
  {
    if x == [] {
      assert x + b == b;
    } else {
      assert (x + b)[0] == (x + c)[0] == x[0];
      assert (x + b)[1..] == x[1..] + b && (x + c)[1..] == x[1..] + c;
      NewlineSwap(x[1..], b, c);
    }
  }

  lemma ClosesAlike(x: string, b: string)
    requires x != [] && b != [] && Plain(b[0])
    ensures "*/" <= x + b <==> "*/" <= x
  {
    if |x| == 1 { assert (x + b)[1] == b[0]; }
  }

  lemma {:induction false} BlockSwap(x: string, b: string, c: string)
    requires b != [] && c != [] && Plain(b[0]) && Plain(c[0])
    ensures ToBlockEnd(x + b) <= |x| ==> ToBlockEnd(x + c) == ToBlockEnd(x + b)
  {
    if x == [] {
      assert x + b == b;
    } else {
      ClosesAlike(x, b);
      ClosesAlike(x, c);
      assert (x + b)[1..] == x[1..] + b && (x + c)[1..] == x[1..] + c;
      BlockSwap(x[1..], b, c);
    }
  }

  lemma {:induction false} QuoteSwap(x: string, b: string, c: string, quote: char, escaped: bool)
    requires b != [] && c != []
    ensures ToQuote(x + b, quote, escaped) <= |x| ==> ToQuote(x + c, quote, escaped) == ToQuote(x + b, quote, escaped)
  {
    if x == [] {
      assert x + b == b;
    } else {
      assert (x + b)[0] == (x + c)[0] == x[0];
      assert (x + b)[1..] == x[1..] + b && (x + c)[1..] == x[1..] + c;
      QuoteSwap(x[1..], b, c, quote, x[0] == '\\' && !escaped);
    }
  }

  lemma OpensAlike(a: string, b: string)
    requires a != [] && b != [] && Plain(b[0])
    ensures (a + b)[0] == a[0] && ("//" <= a + b <==> "//" <= a) && ("/*" <= a + b <==> "/*" <= a)
  {
    if |a| == 1 { assert (a + b)[1] == b[0]; }
  }

  /** A token that ends before a plain byte is the same before any other plain byte. */
  lemma FirstSwap(a: string, b: string, c: string)
    requires a != [] && b != [] && c != [] && Plain(b[0]) && Plain(c[0]) && First(a + b).length <= |a|
    ensures First(a + c) == First(a + b)
  {
    OpensAlike(a, b);
    OpensAlike(a, c);
    if "//" <= a || "/*" <= a {
      assert (a + b)[2..] == a[2..] + b && (a + c)[2..] == a[2..] + c;
      NewlineSwap(a[2..], b, c);
      BlockSwap(a[2..], b, c);
    } else {
      assert (a + b)[1..] == a[1..] + b && (a + c)[1..] == a[1..] + c;
      QuoteSwap(a[1..], b, c, a[0], false);
    }
    hide ToNewline, ToBlockEnd, ToQuote;
  }

  /** Exchanging the text from a plain code byte on leaves the marks before it alone. */
  lemma {:induction false} MaskSwap(a: string, b: string, c: string)
    requires b != [] && c != [] && Plain(b[0]) && Plain(c[0]) && Mask(a + b)[|a|]
    ensures Mask(a + c) == Mask(a + b)[..|a|] + Mask(c)
    decreases |a|
  {
    hide First, Mask;
    if a == [] {
      assert a + c == c;
    } else {
      MaskUnfolds(a + b);
      MaskUnfolds(a + c);
      var n := First(a + b).length;
      FirstSwap(a, b, c);
      assert (a + b)[n..] == a[n..] + b && (a + c)[n..] == a[n..] + c;
      assert Mask(a[n..] + b)[|a| - n] == Mask(a + b)[|a|];
      MaskSwap(a[n..], b, c);
      assert Mask(a + b)[..|a|] == Flags(n, First(a + b).kind.Code?) + Mask(a[n..] + b)[..|a| - n];
    }
  }
}
