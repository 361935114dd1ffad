/** PostgreSQL's own lexical rules (section 4.1 of the PostgreSQL 15 manual, with
    `standard_conforming_strings` on), cut into the tokens of `PgLexer`, and exactly where the
    scanner of `inline_params` departs from them. */
module PgDialect {
  import opened Bytes
  import opened PgLexer
  import opened PgInline
  import opened PgRescan

  const BACKSLASH: byte := 92
  const RETURN: byte := 13

  /** How an escape string that has been closed may still go on: at a quote right behind it, or
      after white space with a line break in it. */
  datatype Gap = Touching | Blank | Broken

  /** What the bytes before say about the next: inside an identifier (of the letter E alone, so
      far), inside a number, behind an escape string, or none of these. */
  datatype Context = Fresh | Word(e: bool) | Number | AfterEscape(gap: Gap)

  predicate IsHigh(c: byte) { 0x80 <= c }

  predicate StartsWord(c: byte) { c == UNDERSCORE || IsAlpha(c) || IsHigh(c) }

  /** A quote here opens, or goes on with, a string in which a backslash escapes. */
  predicate Escaping(ctx: Context) {
    ctx == Word(true) || (ctx.AfterEscape? && ctx.gap != Blank)
  }

  // ---- where each kind of span ends ----

  /** The end of a span, and whether it is closed there. */
  type End = (nat, bool)

  /** A backslash takes the byte after it along. */
  function EscapeEnd(s: seq<byte>, k: nat): (r: End)
    ensures r.1 ==> k < r.0 <= |s|
    ensures !r.1 ==> r.0 == |s|
    decreases |s| - k
  {
    if k >= |s| then (|s|, false)
    else if s[k] == QUOTE then (k + 1, true)
    else if s[k] == BACKSLASH then EscapeEnd(s, k + 2)
    else EscapeEnd(s, k + 1)
  }

  /** A carriage return, alone or before a line feed, breaks a line as a line feed does. */
  function LineEnd(s: seq<byte>, k: nat): (r: End)
    ensures r.1 ==> k < r.0 <= |s|
    ensures !r.1 ==> r.0 == |s|
    decreases |s| - k
  {
    if k >= |s| then (|s|, false)
    else if s[k] == NEWLINE then (k + 1, true)
    else if s[k] == RETURN then (if k + 1 < |s| && s[k + 1] == NEWLINE then k + 2 else k + 1, true)
    else LineEnd(s, k + 1)
  }

  /** Block comments nest. */
  function BlockEnd(s: seq<byte>, k: nat, depth: nat): (r: End)
    requires 0 < depth
    ensures r.1 ==> k + 2 * depth <= r.0 <= |s|
    ensures !r.1 ==> r.0 == |s|
    decreases |s| - k
  {
    if |s| < k + 2 then (|s|, false)
    else if s[k] == STAR && s[k + 1] == SLASH then
      if depth == 1 then (k + 2, true) else BlockEnd(s, k + 2, depth - 1)
    else if s[k] == SLASH && s[k + 1] == STAR then BlockEnd(s, k + 2, depth + 1)
    else BlockEnd(s, k + 1, depth)
  }

  function WordEnd(s: seq<byte>, k: nat): (r: nat)
    requires k <= |s|
    ensures k <= r <= |s| && (forall j | k <= j < r :: StartsWord(s[j]) || IsDigit(s[j]))
    ensures r < |s| ==> !StartsWord(s[r]) && !IsDigit(s[r])
    decreases |s| - k
  {
    if k < |s| && (StartsWord(s[k]) || IsDigit(s[k])) then WordEnd(s, k + 1) else k
  }

  /** The length of a dollar-quote delimiter: its tag is like an identifier, without `$`. */
  function QuoteLen(s: seq<byte>): (n: nat)
    ensures n <= |s| && n != 1
  {
    if |s| > 1 && s[0] == DOLLAR && !IsDigit(s[1]) && WordEnd(s, 1) < |s| && s[WordEnd(s, 1)] == DOLLAR
    then WordEnd(s, 1) + 1
    else 0
  }

  function SpanTo(st: State, s: seq<byte>, end: End): Token
    requires end.0 <= |s|
  {
    Span(st, s[..end.0], end.1)
  }

  /** A span that closes at the first closing mark. */
  function PlainEnd(s: seq<byte>, k: nat, p: seq<byte>): (r: End)
    requires k <= |s| && 0 < |p|
    ensures k <= r.0 <= |s| && (!r.1 ==> r.0 == |s|)
  {
    (SpanEnd(s, k, p), Find(s, k, p) != -1)
  }

  // ---- the lexer ----

  /** The token at the front of `s`. An identifier may contain `$`. */
  function PgFirst(ctx: Context, s: seq<byte>): (t: Token)
    requires 0 < |s|
    ensures 0 < |t.text| <= |s| && t.text == s[..|t.text|]
  {
    if s[0] == QUOTE then SpanTo(SQuote, s, if Escaping(ctx) then EscapeEnd(s, 1) else PlainEnd(s, 1, [QUOTE]))
    else if s[0] == DQUOTE then SpanTo(DQuote, s, PlainEnd(s, 1, [DQUOTE]))
    else if |s| > 1 && s[0] == DASH && s[1] == DASH then SpanTo(Line, s, LineEnd(s, 2))
    else if |s| > 1 && s[0] == SLASH && s[1] == STAR then SpanTo(Block, s, BlockEnd(s, 2, 1))
    else if ctx.Word? then Chr(s[..1])
    else if QuoteLen(s) != 0 then SpanTo(Dollar(s[..QuoteLen(s)]), s, PlainEnd(s, QuoteLen(s), s[..QuoteLen(s)]))
    else if IsParam(s) then Param(s[..DigitEnd(s, 1)])
    else Chr(s[..1])
  }

  predicate IsBlank(c: byte) { c == 32 || c == 9 || c == 12 }

  /** The context behind a token. A word right behind a number or a parameter is junk, taken as
      part of it. */
  function After(ctx: Context, t: Token): Context {
    match t
    case Span(SQuote, _, _) => if Escaping(ctx) then AfterEscape(Touching) else Fresh
    case Span(Line, _, _) => if ctx.AfterEscape? then AfterEscape(Broken) else Fresh
    case Span(_, _, _) => Fresh
    case Param(_) => Number
    case Chr(text) => if |text| == 0 then ctx else AfterByte(ctx, text[0])
  }

  function AfterByte(ctx: Context, c: byte): Context {
    if StartsWord(c) then
      if ctx.Number? then Number else Word(!ctx.Word? && (c == 69 || c == 101))
    else if IsDigit(c) then if ctx.Word? then Word(false) else Number
    else if c == DOLLAR && ctx.Word? then Word(false)
    else if ctx.AfterEscape? && (c == NEWLINE || c == RETURN) then AfterEscape(Broken)
    else if ctx.AfterEscape? && IsBlank(c) then AfterEscape(if ctx.gap == Touching then Blank else ctx.gap)
    else Fresh
  }

  function PgLex(ctx: Context, s: seq<byte>): seq<Token>
    decreases |s|
  {
    if |s| == 0 then []
    else
      var t := PgFirst(ctx, s);
      [t] + PgLex(After(ctx, t), s[|t.text|..])
  }

  // ---- where the two part ----

  /** How many backslashes stand right before `k`, from `lo` on. */
  function Slashes(s: seq<byte>, lo: nat, k: nat): (n: nat)
    requires k <= |s|
    ensures lo <= k ==> n <= k - lo
    decreases k
  {
    if lo < k && s[k - 1] == BACKSLASH then 1 + Slashes(s, lo, k - 1) else 0
  }

  /** In an escape string, the next quote is escaped. */
  predicate QuoteEscaped(ctx: Context, s: seq<byte>) {
    && 0 < |s| && s[0] == QUOTE && Escaping(ctx)
    && var q := Find(s, 1, [QUOTE]);
       q != -1 && Slashes(s, 1, q) % 2 == 1
  }

  /** In a line comment, a carriage return that no line feed follows. */
  predicate LoneReturn(s: seq<byte>) {
    && |s| > 1 && s[0] == DASH && s[1] == DASH
    && exists k | 2 <= k < SpanEnd(s, 2, [NEWLINE]) :: s[k] == RETURN && !(k + 1 < |s| && s[k + 1] == NEWLINE)
  }

  /** In a block comment, another one opens before the first closing mark. */
  predicate Nested(s: seq<byte>) {
    && |s| > 1 && s[0] == SLASH && s[1] == STAR
    && OpensBefore(s, 2, Find(s, 2, [STAR, SLASH]))
  }

  predicate OpensBefore(s: seq<byte>, k: nat, end: int) {
    exists j | k <= j < end :: At(s, j, [SLASH, STAR])
  }

  /** A parameter or a dollar-quote, inside an identifier. */
  predicate DollarInWord(ctx: Context, s: seq<byte>) {
    ctx.Word? && (IsParam(s) || DelimLen(s) != 0)
  }

  /** A dollar-quote whose tag is not ASCII. */
  predicate HighTag(ctx: Context, s: seq<byte>) {
    !ctx.Word? && exists k | 1 <= k < QuoteLen(s) :: IsHigh(s[k])
  }

  predicate Odd(ctx: Context, s: seq<byte>) {
    QuoteEscaped(ctx, s) || LoneReturn(s) || Nested(s) || DollarInWord(ctx, s) || HighTag(ctx, s)
  }

  /** Nowhere along the statement. */
  predicate NoneOdd(ctx: Context, s: seq<byte>)
    decreases |s|
  {
    |s| == 0 || (!Odd(ctx, s) && NoneOdd(After(ctx, First(s)), s[|First(s).text|..]))
  }

  lemma {:induction false} EscapedExact(s: seq<byte>, k: nat, q: nat)
    requires k <= q < |s| && s[q] == QUOTE && forall j | k <= j < q :: s[j] != QUOTE
    ensures EscapeEnd(s, k) == (q + 1, true) <==> Slashes(s, k, q) % 2 == 0
    decreases q - k
  {
    if k < q && s[k] == BACKSLASH {
      if k + 1 < q {
        EscapedExact(s, k + 2, q);
        SlashesFrom(s, k, q);
      } else {
        assert Slashes(s, k, k) == 0;
      }
    } else if k < q {
      EscapedExact(s, k + 1, q);
      SlashesSkip(s, k, q);
    }
  }

  lemma {:induction false} SlashesSkip(s: seq<byte>, k: nat, q: nat)
    requires k < q <= |s| && s[k] != BACKSLASH
    ensures Slashes(s, k, q) == Slashes(s, k + 1, q)
    decreases q
  {
    if k + 1 < q {
      SlashesSkip(s, k, q - 1);
    }
  }

  lemma {:induction false} SlashesFrom(s: seq<byte>, k: nat, q: nat)
    requires k + 2 <= q <= |s| && s[k] == BACKSLASH
    ensures Slashes(s, k, q) % 2 == Slashes(s, k + 2, q) % 2
    decreases q
  {
    if k + 2 < q {
      SlashesFrom(s, k, q - 1);
    } else {
      assert Slashes(s, k, k) == 0;
      assert Slashes(s, k, k + 1) == 1;
    }
  }

  lemma {:induction false} Unquoted(s: seq<byte>, k: nat)
    requires forall j | k <= j < |s| :: s[j] != QUOTE
    ensures EscapeEnd(s, k) == (|s|, false)
    decreases |s| - k
  {
    if k < |s| {
      Unquoted(s, k + 1);
      Unquoted(s, k + 2);
    }
  }

  lemma SameEnd(st: State, s: seq<byte>, a: End, b: End)
    requires a.0 <= |s| && b.0 <= |s|
    ensures SpanTo(st, s, a) == SpanTo(st, s, b) <==> a == b
  {
    assert |s[..a.0]| == a.0 && |s[..b.0]| == b.0;
  }

  lemma QuoteExact(ctx: Context, s: seq<byte>)
    requires 0 < |s| && s[0] == QUOTE && Escaping(ctx)
    ensures EscapeEnd(s, 1) == PlainEnd(s, 1, [QUOTE]) <==> !QuoteEscaped(ctx, s)
  {
    var q := Find(s, 1, [QUOTE]);
    forall j | 1 <= j < |s| && (q == -1 || j < q)
      ensures s[j] != QUOTE
    {
      assert !At(s, j, [QUOTE]);
      assert s[j..j + 1] == [s[j]];
    }
    if q == -1 {
      Unquoted(s, 1);
    } else {
      assert s[q..q + 1] == [s[q]];
      EscapedExact(s, 1, q);
    }
  }

  lemma {:induction false} LineExact(s: seq<byte>, k: nat)
    requires k <= |s|
    ensures LineEnd(s, k) == PlainEnd(s, k, [NEWLINE]) <==>
      !exists j | k <= j < SpanEnd(s, k, [NEWLINE]) :: s[j] == RETURN && !(j + 1 < |s| && s[j + 1] == NEWLINE)
    decreases |s| - k
  {
    if k < |s| {
      assert s[k..k + 1] == [s[k]];
      if k + 1 < |s| {
        assert s[k + 1..k + 2] == [s[k + 1]];
      }
      if s[k] != NEWLINE {
        LineExact(s, k + 1);
      }
    }
  }

  /** The first closing mark closes the comment if and only if nothing opens before it. */
  lemma {:induction false} BlockExact(s: seq<byte>, k: nat)
    requires k <= |s|
    ensures BlockEnd(s, k, 1) == PlainEnd(s, k, [STAR, SLASH]) <==> !OpensBefore(s, k, Find(s, k, [STAR, SLASH]))
    decreases |s| - k
  {
    hide Find, OpensBefore, At;
    BlockStep(s, k);
    if k + 2 <= |s| {
      if s[k] == SLASH && s[k + 1] == STAR {
        DeeperExact(s, k);
      } else if !(s[k] == STAR && s[k + 1] == SLASH) {
        BlockExact(s, k + 1);
      }
    }
  }

  lemma BlockStep(s: seq<byte>, k: nat)
    requires k <= |s|
    ensures var p := [STAR, SLASH]; var f := Find(s, k, p);
      && (|s| < k + 2 ==> f == -1)
      && !OpensBefore(s, k, -1)
      && (k + 2 <= |s| && s[k] == STAR && s[k + 1] == SLASH ==> f == k && !OpensBefore(s, k, f))
      && (k + 2 <= |s| && !(s[k] == STAR && s[k + 1] == SLASH) ==> f == Find(s, k + 1, p))
      && (k + 2 <= |s| && !(s[k] == SLASH && s[k + 1] == STAR) ==> (OpensBefore(s, k, f) <==> OpensBefore(s, k + 1, f)))
  {
    if k + 2 <= |s| {
      assert s[k..k + 2] == [s[k], s[k + 1]];
    }
  }

  lemma DeeperExact(s: seq<byte>, k: nat)
    requires k + 2 <= |s| && s[k] == SLASH && s[k + 1] == STAR
    ensures BlockEnd(s, k + 2, 2) == PlainEnd(s, k, [STAR, SLASH]) <==> !OpensBefore(s, k, Find(s, k, [STAR, SLASH]))
  {
    var f := Find(s, k, [STAR, SLASH]);
    assert s[k..k + 2] == [s[k], s[k + 1]];
    assert At(s, k, [SLASH, STAR]) && !At(s, k, [STAR, SLASH]);
    hide Find;
    if f == -1 {
      Uncommented(s, k + 2, 2);
    } else {
      Deeper(s, k + 2, f, 2);
    }
  }

  lemma {:induction false} Uncommented(s: seq<byte>, k: nat, depth: nat)
    requires 0 < depth && forall j {:trigger At(s, j, [STAR, SLASH])} | k <= j :: !At(s, j, [STAR, SLASH])
    ensures BlockEnd(s, k, depth) == (|s|, false)
    decreases |s| - k
  {
    if k + 2 <= |s| {
      assert s[k..k + 2] == [s[k], s[k + 1]];
      assert !At(s, k, [STAR, SLASH]);
      if s[k] == SLASH && s[k + 1] == STAR {
        Uncommented(s, k + 2, depth + 1);
      } else {
        Uncommented(s, k + 1, depth);
      }
    }
  }

  /** Two levels deep, the comment goes on past the first closing mark. */
  lemma {:induction false} Deeper(s: seq<byte>, k: nat, f: nat, depth: nat)
    requires 2 <= depth
    requires At(s, f, [STAR, SLASH]) && forall j {:trigger At(s, j, [STAR, SLASH])} | k <= j < f :: !At(s, j, [STAR, SLASH])
    ensures BlockEnd(s, k, depth) != (f + 2, true)
    decreases |s| - k
  {
    if k < f {
      assert s[k..k + 2] == [s[k], s[k + 1]];
      assert !At(s, k, [STAR, SLASH]);
      if s[k] == SLASH && s[k + 1] == STAR {
        Deeper(s, k + 2, f, depth + 1);
      } else {
        Deeper(s, k + 1, f, depth);
      }
    }
  }

  // ---- dollar quotes ----

  /** A tag of ASCII bytes only is the same to both. */
  lemma TagExact(s: seq<byte>)
    requires 0 < |s|
    ensures (exists k | 1 <= k < QuoteLen(s) :: IsHigh(s[k])) <==> QuoteLen(s) != DelimLen(s)
    ensures DelimLen(s) != 0 ==> QuoteLen(s) == DelimLen(s)
    ensures QuoteLen(s) != 0 ==> s[0] == DOLLAR && !IsParam(s)
  {
    if |s| > 1 {
      assert TagEnd(s, 1) <= WordEnd(s, 1);
      if k :| 1 <= k < QuoteLen(s) && IsHigh(s[k]) {
        assert TagEnd(s, 1) <= k;
      }
      if QuoteLen(s) != DelimLen(s) {
        var k := TagEnd(s, 1);
        assert IsHigh(s[k]);
      }
    }
  }

  // ---- the two lexers agree ----

  lemma FirstExact(ctx: Context, s: seq<byte>)
    requires 0 < |s|
    ensures PgFirst(ctx, s) == First(s) <==> !Odd(ctx, s)
  {
    hide Find, SpanEnd, PlainEnd, EscapeEnd, LineEnd, BlockEnd, SpanTo, OpensBefore, DelimLen, QuoteLen;
    TagExact(s);
    FirstSpan(s);
    if s[0] == QUOTE {
      if Escaping(ctx) {
        QuoteExact(ctx, s);
        SameEnd(SQuote, s, EscapeEnd(s, 1), PlainEnd(s, 1, [QUOTE]));
      }
    } else if |s| > 1 && s[0] == DASH && s[1] == DASH {
      LineExact(s, 2);
      SameEnd(Line, s, LineEnd(s, 2), PlainEnd(s, 2, [NEWLINE]));
    } else if |s| > 1 && s[0] == SLASH && s[1] == STAR {
      BlockExact(s, 2);
      SameEnd(Block, s, BlockEnd(s, 2, 1), PlainEnd(s, 2, [STAR, SLASH]));
    } else if s[0] == DOLLAR {
      DollarExact(ctx, s);
    }
  }

  lemma DollarExact(ctx: Context, s: seq<byte>)
    requires 0 < |s| && s[0] == DOLLAR
    ensures PgFirst(ctx, s) == First(s) <==> !DollarInWord(ctx, s) && !HighTag(ctx, s)
  {
    hide Find, SpanEnd, TagEnd, WordEnd, DigitEnd;
    TagExact(s);
    if DelimLen(s) == QuoteLen(s) && !ctx.Word? {
      assert PgFirst(ctx, s) == First(s);
    }
  }

  /** The scanner's span at the front of `s`, if there is one. */
  lemma FirstSpan(s: seq<byte>)
    requires 0 < |s|
    ensures var (st, n) := Opening(s);
      !st.Normal? ==> First(s) == SpanTo(st, s, PlainEnd(s, n, Close(st)))
  {
  }

  /** The scanner cuts a statement into the tokens PostgreSQL's lexer does, if and only if
      nothing odd stands at the head of one. */
  lemma {:induction false} LexersAgreeExact(ctx: Context, s: seq<byte>)
    ensures PgLex(ctx, s) == Lex(s) <==> NoneOdd(ctx, s)
    decreases |s|
  {
    hide PgFirst, First, Odd, After;
    if |s| > 0 {
      FirstExact(ctx, s);
      var t := First(s);
      if PgFirst(ctx, s) == t {
        LexersAgreeExact(After(ctx, t), s[|t.text|..]);
        SameTail(t, PgLex(After(ctx, t), s[|t.text|..]), Lex(s[|t.text|..]));
      } else {
        assert PgLex(ctx, s)[0] != Lex(s)[0];
      }
    }
  }

  lemma SameTail(t: Token, a: seq<Token>, b: seq<Token>)
    ensures [t] + a == [t] + b <==> a == b
  {
    assert ([t] + a)[1..] == a && ([t] + b)[1..] == b;
  }

  /** Where nothing odd stands, `inline_params` replaces exactly the parameters PostgreSQL would
      read in the statement: none inside a string, an identifier or a comment, and every other. */
  lemma ParametersAgree(s: seq<byte>, rendered: seq<seq<byte>>)
    requires NoneOdd(Fresh, s)
    ensures Inline(s, rendered) == Splice(PgLex(Fresh, s), rendered)
  {
    LexersAgreeExact(Fresh, s);
  }

  /** PostgreSQL reads the inlined text as the statement with the values' tokens in place of its
      parameters, if and only if nothing odd has come about in it. */
  lemma PgRescanExact(s: seq<byte>, rendered: seq<seq<byte>>)
    requires AllLiteral(rendered) && NoneOdd(Fresh, s) && NoClash(Lex(s), rendered)
    ensures PgLex(Fresh, Inline(s, rendered)) == Flat(PgLex(Fresh, s), rendered) <==> NoneOdd(Fresh, Inline(s, rendered))
  {
    LexersAgreeExact(Fresh, s);
    LexersAgreeExact(Fresh, Inline(s, rendered));
    RescanExact(s, rendered);
  }

  // ---- data that is rewritten ----

  const FIVE: seq<byte> := [53]

  /** A `$1` that the scanner comes to outside every span is replaced. */
  lemma Rewritten(s: seq<byte>, k: nat)
    requires k + 2 < |s| && s[k] == DOLLAR && s[k + 1] == 49 && !IsDigit(s[k + 2])
    requires Inline(s, [FIVE]) == s[..k] + Inline(s[k..], [FIVE])
    ensures At(Inline(s, [FIVE]), k, FIVE)
  {
    hide Find, SpanEnd, DigitEnd, Decimal, Inline, TagEnd;
    var p := s[k..];
    DigitEndIs(p, 1, 2);
    assert p[..2] == [DOLLAR, 49] && [DOLLAR, 49][1..] == [49];
    assert First(p) == Param([DOLLAR, 49]);
    DecimalOne();
    InlineStep(p, [FIVE]);
  }

  lemma DecimalOne()
    ensures AllDigits([49]) && Decimal([49]) == 1
  {
    assert [49][..0] == [];
    assert Decimal([]) == 0;
  }

  /** In `E'\'$1'` the parameter is part of the string, and is replaced. */
  lemma EscapedQuoteRewritten()
    ensures var s := [69, QUOTE, BACKSLASH, QUOTE, DOLLAR, 49, QUOTE];
      PgLex(Fresh, s) == [Chr([69]), Span(SQuote, s[1..], true)] && At(Inline(s, [FIVE]), 4, FIVE)
  {
    hide Inline, Find, SpanEnd;
    var s := [69, QUOTE, BACKSLASH, QUOTE, DOLLAR, 49, QUOTE];
    var t := s[1..];
    WholeEscape(t);
    assert t[6..] == [] && After(Fresh, Chr([69])) == Word(true);
    assert s[..1] == [69];
    assert PgFirst(Fresh, s) == Chr([69]) && First(s) == Chr([69]);
    assert PgLex(Fresh, s) == [Chr([69])] + PgLex(Word(true), t);
    assert PgLex(Word(true), t) == [Span(SQuote, t, true)] + [];
    InlineStep(s, [FIVE]);
    InlineStep(t, [FIVE]);
    assert t[3..] == s[4..] && s[..4] == [69] + t[..3];
    Rewritten(s, 4);
  }

  /** The whole string to PostgreSQL, to the scanner its first half. */
  lemma WholeEscape(t: seq<byte>)
    requires t == [QUOTE, BACKSLASH, QUOTE, DOLLAR, 49, QUOTE]
    ensures PgFirst(Word(true), t) == Span(SQuote, t, true) && First(t) == Span(SQuote, t[..3], true)
  {
    assert EscapeEnd(t, 5) == (6, true) && EscapeEnd(t, 4) == (6, true) && EscapeEnd(t, 3) == (6, true) && EscapeEnd(t, 1) == (6, true);
    assert t[..6] == t;
    assert !At(t, 1, [QUOTE]) && At(t, 2, [QUOTE]);
  }

  /** So it is in the comment around another one. */
  lemma NestedCommentRewritten()
    ensures var s := [SLASH, STAR, SLASH, STAR, STAR, SLASH, DOLLAR, 49, STAR, SLASH];
      PgLex(Fresh, s) == [Span(Block, s, true)] && At(Inline(s, [FIVE]), 6, FIVE)
  {
    hide Inline;
    var s := [SLASH, STAR, SLASH, STAR, STAR, SLASH, DOLLAR, 49, STAR, SLASH];
    assert BlockEnd(s, 8, 1) == (10, true) && BlockEnd(s, 6, 1) == (10, true) && BlockEnd(s, 4, 2) == (10, true);
    assert PgFirst(Fresh, s) == Span(Block, s, true) by { assert s[..10] == s; }
    assert s[10..] == [];
    assert s[2..4] == [SLASH, STAR] && s[3..5] == [STAR, STAR] && s[4..6] == [STAR, SLASH];
    assert !At(s, 2, [STAR, SLASH]) && !At(s, 3, [STAR, SLASH]) && At(s, 4, [STAR, SLASH]);
    assert First(s) == Span(Block, s[..6], true);
    InlineStep(s, [FIVE]);
    Rewritten(s, 6);
  }
}
