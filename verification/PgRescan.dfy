/** What inlining does to the lexical structure: the output lexes as the source with each
    in-range `$n` replaced by the tokens of its literal, exactly when no literal runs into
    the byte before it. */
module PgRescan {
  import opened Bytes
  import opened PgLexer
  import opened PgInline

  // ---- literals that can stand anywhere ----

  /** Only closed single-quoted spans and plain bytes, no `$`, and no trailing byte that
      could open a comment together with what follows. */
  ghost predicate Benign(r: seq<byte>)
    decreases |r|
  {
    0 < |r| ==>
      var t := First(r);
      && (t.Chr? || (t.Span? && t.st == SQuote && t.closed))
      && r[0] != DOLLAR
      && (|r| == 1 ==> r[0] != DASH && r[0] != SLASH)
      && Benign(r[|t.text|..])
  }

  ghost predicate Literal(r: seq<byte>) {
    0 < |r| && Benign(r) && r[0] != STAR
  }

  ghost predicate AllLiteral(rendered: seq<seq<byte>>) {
    forall i | 0 <= i < |rendered| :: Literal(rendered[i])
  }

  /** A token that stays the first one when the text after it changes to `y`. */
  lemma LexCons(t: Token, y: seq<byte>)
    requires 0 < |t.text| && First(t.text + y) == t
    ensures Lex(t.text + y) == [t] + Lex(y)
  {
    assert (t.text + y)[|t.text|..] == y;
  }

  lemma OpeningStays(s: seq<byte>, z: seq<byte>, k: nat)
    requires 0 < |s| && !Opening(s).0.Normal? && Opening(s).1 <= k <= |s| && k <= |z|
    requires z[..k] == s[..k]
    ensures Opening(z) == Opening(s)
  {
    hide Find;
    var (st, n) := Opening(s);
    assert forall j | 0 <= j < k :: z[j] == z[..k][j] == s[j];
    if st.Dollar? {
      TagEndIs(z, TagEnd(s, 1));
      assert z[..n] == s[..n];
    }
  }

  /** A closed span ends where it does whatever follows it. */
  lemma ClosedSpanStays(s: seq<byte>, y: seq<byte>)
    requires 0 < |s| && First(s).Span? && First(s).closed
    ensures First(First(s).text + y) == First(s)
  {
    var t := First(s);
    var (st, n) := Opening(s);
    var z := t.text + y;
    FindPrefix(s, n, Close(st), y);
    OpeningStays(s, z, |t.text|);
  }

  /** A plain byte that opens nothing, whatever follows it. */
  lemma PlainStays(c: byte, y: seq<byte>)
    requires c != QUOTE && c != DQUOTE && c != DOLLAR
    requires c == DASH ==> |y| == 0 || y[0] != DASH
    requires c == SLASH ==> |y| == 0 || y[0] != STAR
    ensures First([c] + y) == Chr([c])
  {
  }

  lemma {:induction false} BenignAppend(r: seq<byte>, y: seq<byte>)
    requires Benign(r)
    ensures Lex(r + y) == Lex(r) + Lex(y)
    decreases |r|
  {
    hide First;
    if |r| == 0 {
      assert r + y == y;
    } else {
      var t := First(r);
      var tail := r[|t.text|..];
      BenignAppend(tail, y);
      BenignHeadStays(r, y);
      LexCons(t, tail + y);
      assert r + y == t.text + (tail + y);
      assert [t] + (Lex(tail) + Lex(y)) == ([t] + Lex(tail)) + Lex(y);
    }
  }

  lemma {:induction false} BenignConcat(r: seq<byte>, y: seq<byte>)
    requires Benign(r) && Benign(y)
    ensures Benign(r + y)
    decreases |r|
  {
    hide First;
    if |r| == 0 {
      assert r + y == y;
    } else {
      var t := First(r);
      var tail := r[|t.text|..];
      BenignConcat(tail, y);
      BenignHeadStays(r, y);
      assert r + y == t.text + (tail + y);
      assert (r + y)[|t.text|..] == tail + y;
      assert (r + y)[0] == r[0];
    }
  }

  lemma BenignHeadStays(r: seq<byte>, y: seq<byte>)
    requires 0 < |r| && Benign(r)
    ensures First(First(r).text + (r[|First(r).text|..] + y)) == First(r)
  {
    var t := First(r);
    var tail := r[|t.text|..];
    if t.Span? {
      ClosedSpanStays(r, tail + y);
    } else {
      assert t.text == [r[0]];
      if |r| > 1 {
        assert (tail + y)[0] == r[1];
      }
      PlainStays(r[0], tail + y);
    }
  }

  // ---- the re-scan theorem ----

  /** The source's tokens with every in-range parameter replaced by its literal's tokens. */
  ghost function FlatOne(t: Token, rendered: seq<seq<byte>>): seq<Token> {
    if InRange(t, rendered) then Lex(rendered[ParamIndex(t) - 1]) else [t]
  }

  ghost function Flat(ts: seq<Token>, rendered: seq<seq<byte>>): seq<Token> {
    if |ts| == 0 then [] else FlatOne(ts[0], rendered) + Flat(ts[1..], rendered)
  }

  /** A literal that would merge with the token before it: `-` then a negative number
      makes a comment, and an unreplaced `$n` then a digit makes a longer number. */
  predicate Clash(t: Token, u: Token, rendered: seq<seq<byte>>) {
    InRange(u, rendered) &&
    var r := rendered[ParamIndex(u) - 1];
    0 < |r| && ((t == Chr([DASH]) && r[0] == DASH)
                || (t.Param? && !InRange(t, rendered) && IsDigit(r[0])))
  }

  predicate NoClash(ts: seq<Token>, rendered: seq<seq<byte>>) {
    forall i :: 0 <= i < |ts| - 1 ==> !Clash(ts[i], ts[i + 1], rendered)
  }

  /** How the inlined text begins. */
  lemma InlineHead(s: seq<byte>, rendered: seq<seq<byte>>)
    requires AllLiteral(rendered)
    ensures |s| == 0 <==> |Inline(s, rendered)| == 0
    ensures 0 < |s| ==> Inline(s, rendered)[0] == Replace(First(s), rendered)[0]
    ensures 0 < |s| && !IsParam(s) ==> Inline(s, rendered)[0] == s[0]
  {
    if 0 < |s| {
      InlineStep(s, rendered);
      if InRange(First(s), rendered) {
        assert Literal(rendered[ParamIndex(First(s)) - 1]);
      }
    }
  }

  /** Tag bytes are plain, so a run of them is copied and what follows it is inlined. */
  lemma {:induction false} InlineTagRun(s: seq<byte>, k: nat, rendered: seq<seq<byte>>)
    requires k <= |s| && forall j | 0 <= j < k :: IsTagByte(s[j])
    ensures Inline(s, rendered) == s[..k] + Inline(s[k..], rendered)
    decreases k
  {
    hide Inline, Find, Decimal;
    if k == 0 {
      assert s[0..] == s;
    } else {
      InlineStep(s, rendered);
      InlineTagRun(s[1..], k - 1, rendered);
      assert s[1..][k - 1..] == s[k..];
      assert s[..k] == s[..1] + s[1..][..k - 1];
      ConcatAssoc(s[..1], s[1..][..k - 1], Inline(s[k..], rendered));
    }
  }

  /** A `$` that opens nothing in the source opens nothing in the output. */
  lemma LoneDollarStays(s: seq<byte>, rendered: seq<seq<byte>>)
    requires 0 < |s| && s[0] == DOLLAR && First(s).Chr? && AllLiteral(rendered)
    ensures First([DOLLAR] + Inline(s[1..], rendered)) == Chr([DOLLAR])
  {
    hide Inline, Find, Lex, Splice, Benign;
    var rest := s[1..];
    var k := TagEnd(s, 1) - 1;
    assert forall j | 0 <= j < k :: rest[j] == s[j + 1];
    InlineTagRun(rest, k, rendered);
    InlineHead(rest[k..], rendered);
    var y := Inline(rest, rendered);
    var z := [DOLLAR] + y;
    assert forall j | 0 <= j < k :: y[j] == rest[j];
    assert k < |rest| ==> rest[k..][0] == s[k + 1];
    assert k < |rest| ==> y[k] == rest[k];
    if |s| > 1 && !IsDigit(s[1]) {
      TagEndIs(z, k + 1);
    }
  }

  /** Inlining commutes with lexing one token at a time, unless that token clashes with
      the next. */
  lemma RescanStep(s: seq<byte>, rendered: seq<seq<byte>>)
    requires 0 < |s| && AllLiteral(rendered)
    requires var rest := s[|First(s).text|..]; 0 < |rest| ==> !Clash(First(s), First(rest), rendered)
    ensures var t := First(s);
      Lex(Inline(s, rendered)) == FlatOne(t, rendered) + Lex(Inline(s[|t.text|..], rendered))
  {
    hide Inline, Lex, First;
    var t := First(s);
    var rest := s[|t.text|..];
    var y := Inline(rest, rendered);
    InlineStep(s, rendered);
    if InRange(t, rendered) {
      assert Literal(rendered[ParamIndex(t) - 1]);
      BenignAppend(rendered[ParamIndex(t) - 1], y);
    } else {
      HeadStays(s, rendered);
      LexCons(t, y);
    }
  }

  lemma HeadStays(s: seq<byte>, rendered: seq<seq<byte>>)
    requires 0 < |s| && AllLiteral(rendered)
    requires !InRange(First(s), rendered)
    requires var rest := s[|First(s).text|..]; 0 < |rest| ==> !Clash(First(s), First(rest), rendered)
    ensures var t := First(s); First(t.text + Inline(s[|t.text|..], rendered)) == t
  {
    hide Inline, First;
    var t := First(s);
    var rest := s[|t.text|..];
    if t.Span? && t.closed {
      ClosedSpanStays(s, Inline(rest, rendered));
    } else if t.Span? {
      OpenSpanIsLast(s);
      InlineHead(rest, rendered);
      assert t.text + Inline(rest, rendered) == s;
    } else if t.Param? {
      ParamStays(s, rendered);
    } else {
      ChrStays(s, rendered);
    }
  }

  lemma OpenSpanIsLast(s: seq<byte>)
    requires 0 < |s| && First(s).Span? && !First(s).closed
    ensures First(s).text == s
  {
  }

  lemma ParamStays(s: seq<byte>, rendered: seq<seq<byte>>)
    requires 0 < |s| && First(s).Param? && AllLiteral(rendered)
    requires !InRange(First(s), rendered)
    requires var rest := s[|First(s).text|..]; 0 < |rest| ==> !Clash(First(s), First(rest), rendered)
    ensures var t := First(s); First(t.text + Inline(s[|t.text|..], rendered)) == t
  {
    hide Inline, Find, Decimal;
    var t := First(s);
    var rest := s[|t.text|..];
    var y := Inline(rest, rendered);
    InlineHead(rest, rendered);
    var z := t.text + y;
    assert forall k | 0 <= k < |t.text| :: z[k] == s[k];
    assert 0 < |rest| ==> rest[0] == s[|t.text|];
    assert 0 < |y| ==> !IsDigit(y[0]);
    DigitEndIs(z, 1, |t.text|);
    assert z[..|t.text|] == t.text;
  }

  lemma ChrStays(s: seq<byte>, rendered: seq<seq<byte>>)
    requires 0 < |s| && First(s).Chr? && AllLiteral(rendered)
    requires var rest := s[|First(s).text|..]; 0 < |rest| ==> !Clash(First(s), First(rest), rendered)
    ensures var t := First(s); First(t.text + Inline(s[|t.text|..], rendered)) == t
  {
    hide Inline, Find, Decimal, TagEnd, DigitEnd, Lex, Benign, SpanEnd;
    var rest := s[1..];
    assert First(s).text == [s[0]];
    if s[0] == DOLLAR {
      LoneDollarStays(s, rendered);
    } else {
      InlineHead(rest, rendered);
      if 0 < |rest| && InRange(First(rest), rendered) {
        assert Literal(rendered[ParamIndex(First(rest)) - 1]);
      }
      PlainStays(s[0], Inline(rest, rendered));
    }
  }

  /** A clash is visible: the first token of the output is not the source's. */
  lemma ClashShows(s: seq<byte>, rendered: seq<seq<byte>>)
    requires 0 < |s| && AllLiteral(rendered)
    requires var rest := s[|First(s).text|..]; 0 < |rest| && Clash(First(s), First(rest), rendered)
    ensures Lex(Inline(s, rendered)) != Flat(Lex(s), rendered)
  {
    var t := First(s);
    var rest := s[|t.text|..];
    var y := Inline(rest, rendered);
    InlineStep(s, rendered);
    InlineHead(rest, rendered);
    var z := Inline(s, rendered);
    assert z == t.text + y;
    assert Flat(Lex(s), rendered)[0] == t;
    if t.Param? {
      assert z[|t.text|] == y[0];
      assert DigitEnd(z, 1) != |t.text|;
    }
    assert First(z) != t;
  }

  /** Exactly when inlining preserves the source's lexical structure: iff no literal
      clashes with the token before its placeholder. */
  lemma {:induction false} RescanExact(s: seq<byte>, rendered: seq<seq<byte>>)
    requires AllLiteral(rendered)
    ensures Lex(Inline(s, rendered)) == Flat(Lex(s), rendered) <==> NoClash(Lex(s), rendered)
    decreases |s|
  {
    if |s| == 0 {
      return;
    }
    var t := First(s);
    var rest := s[|t.text|..];
    assert Lex(s) == [t] + Lex(rest) && Lex(s)[1..] == Lex(rest);
    if 0 < |rest| && Clash(t, First(rest), rendered) {
      ClashShows(s, rendered);
      assert Clash(Lex(s)[0], Lex(s)[1], rendered);
    } else {
      RescanExact(rest, rendered);
      RescanStep(s, rendered);
      NoClashTail(t, Lex(rest), rendered);
      SamePrefix(FlatOne(t, rendered), Lex(Inline(rest, rendered)), Flat(Lex(rest), rendered));
    }
  }

  lemma NoClashTail(t: Token, ts: seq<Token>, rendered: seq<seq<byte>>)
    requires 0 < |ts| ==> !Clash(t, ts[0], rendered)
    ensures NoClash([t] + ts, rendered) <==> NoClash(ts, rendered)
  {
    var us := [t] + ts;
    assert us[1..] == ts;
    if NoClash(us, rendered) {
      forall i | 0 <= i < |ts| - 1
        ensures !Clash(ts[i], ts[i + 1], rendered)
      {
        assert !Clash(us[i + 1], us[i + 1 + 1], rendered);
      }
    }
  }

  lemma SamePrefix(p: seq<Token>, a: seq<Token>, b: seq<Token>)
    ensures p + a == p + b <==> a == b
  {
    assert (p + a)[|p|..] == a && (p + b)[|p|..] == b;
  }

  // ---- what follows from it ----

  /** A literal's own tokens: none is a parameter and none is left open. */
  lemma {:induction false} BenignTokens(r: seq<byte>)
    requires Benign(r)
    ensures forall t | t in Lex(r) :: !t.Param? && (t.Span? ==> t.closed)
    decreases |r|
  {
    if 0 < |r| {
      BenignTokens(r[|First(r).text|..]);
    }
  }

  lemma FinalConcat(a: seq<Token>, b: seq<Token>)
    ensures Final(a + b) == if |b| == 0 then Final(a) else Final(b)
  {
    if |b| == 0 {
      assert a + b == a;
    } else {
      assert (a + b)[|a| + |b| - 1] == b[|b| - 1];
    }
  }

  lemma LiteralTokens(rendered: seq<seq<byte>>, t: Token)
    requires AllLiteral(rendered) && InRange(t, rendered)
    ensures var ts := FlatOne(t, rendered);
      0 < |ts| && Final(ts) == Normal && forall u | u in ts :: !u.Param?
  {
    assert Literal(rendered[ParamIndex(t) - 1]);
    BenignTokens(rendered[ParamIndex(t) - 1]);
  }

  lemma {:induction false} FlatFinal(ts: seq<Token>, rendered: seq<seq<byte>>)
    requires AllLiteral(rendered)
    ensures |ts| == 0 <==> |Flat(ts, rendered)| == 0
    ensures Final(Flat(ts, rendered)) == Final(ts)
    decreases |ts|
  {
    hide FlatOne, Final, ParamIndex;
    if 0 < |ts| {
      FlatFinal(ts[1..], rendered);
      FlatOneFinal(ts[0], rendered);
      FinalConcat(FlatOne(ts[0], rendered), Flat(ts[1..], rendered));
      assert ts == [ts[0]] + ts[1..];
      FinalConcat([ts[0]], ts[1..]);
    }
  }

  lemma FlatOneFinal(t: Token, rendered: seq<seq<byte>>)
    requires AllLiteral(rendered)
    ensures 0 < |FlatOne(t, rendered)| && Final(FlatOne(t, rendered)) == Final([t])
  {
    if InRange(t, rendered) {
      LiteralTokens(rendered, t);
    }
  }

  lemma {:induction false} FlatParams(ts: seq<Token>, rendered: seq<seq<byte>>)
    requires AllLiteral(rendered)
    ensures forall t | t in Flat(ts, rendered) && t.Param? :: t in ts && !InRange(t, rendered)
    decreases |ts|
  {
    if 0 < |ts| {
      FlatParams(ts[1..], rendered);
      if InRange(ts[0], rendered) {
        LiteralTokens(rendered, ts[0]);
      }
    }
  }

  /** The scanner ends the rewritten statement in the state it ends the source in. */
  lemma FinalStateKept(s: seq<byte>, rendered: seq<seq<byte>>)
    requires AllLiteral(rendered) && NoClash(Lex(s), rendered)
    ensures Final(Lex(Inline(s, rendered))) == Final(Lex(s))
  {
    RescanExact(s, rendered);
    FlatFinal(Lex(s), rendered);
  }

  predicate AllInRange(ts: seq<Token>, rendered: seq<seq<byte>>) {
    forall t | t in ts && t.Param? :: InRange(t, rendered)
  }

  /** No placeholder stands directly behind a `-`. */
  predicate NoneAfterDash(ts: seq<Token>) {
    forall i :: 0 <= i < |ts| - 1 && ts[i + 1].Param? ==> ts[i] != Chr([DASH])
  }

  /** The callers' usual case: every placeholder has a value and none follows a `-`. */
  lemma RescanStable(s: seq<byte>, rendered: seq<seq<byte>>)
    requires AllLiteral(rendered)
    requires AllInRange(Lex(s), rendered) && NoneAfterDash(Lex(s))
    ensures Lex(Inline(s, rendered)) == Flat(Lex(s), rendered)
    ensures Final(Lex(Inline(s, rendered))) == Final(Lex(s))
    ensures forall t | t in Lex(Inline(s, rendered)) :: !t.Param?
  {
    var ts := Lex(s);
    forall i | 0 <= i < |ts| - 1
      ensures !Clash(ts[i], ts[i + 1], rendered)
    {
      assert ts[i] in ts;
    }
    RescanExact(s, rendered);
    FinalStateKept(s, rendered);
    FlatParams(ts, rendered);
  }

  lemma {:induction false} SpliceNoParams(ts: seq<Token>, rendered: seq<seq<byte>>)
    requires forall t | t in ts :: !InRange(t, rendered)
    ensures Splice(ts, rendered) == Text(ts)
    decreases |ts|
  {
    if 0 < |ts| {
      assert ts[0] in ts;
      SpliceNoParams(ts[1..], rendered);
    }
  }

  /** No parameters, no change. */
  lemma InlineNothing(s: seq<byte>)
    ensures Inline(s, []) == s
  {
    SpliceNoParams(Lex(s), []);
    LexLossless(s);
  }

  /** A statement whose placeholders are all filled has none left to fill: inlining it
      again, with any values, changes nothing. */
  lemma InlineOnce(s: seq<byte>, rendered: seq<seq<byte>>, more: seq<seq<byte>>)
    requires AllLiteral(rendered)
    requires AllInRange(Lex(s), rendered) && NoneAfterDash(Lex(s))
    ensures Inline(Inline(s, rendered), more) == Inline(s, rendered)
  {
    RescanStable(s, rendered);
    SpliceNoParams(Lex(Inline(s, rendered)), more);
    LexLossless(Inline(s, rendered));
  }

  /** The dash premise is needed: `-$1` with `-5` becomes the open comment `--5`. */
  lemma DashMakesComment()
    ensures var s, five := [DASH, DOLLAR, 49], [DASH, 53];
      && Literal(five) && AllInRange(Lex(s), [five]) && Final(Lex(s)) == Normal
      && Lex(Inline(s, [five])) == [Span(Line, [DASH, DASH, 53], false)]
  {
    hide Find;
    var s, five := [DASH, DOLLAR, 49], [DASH, 53];
    NegativeFive();
    DashParam();
    var p := s[1..];
    InlineStep(s, [five]);
    InlineStep(p, [five]);
    assert p[2..] == [] && s[1..] == p;
    var z := Inline(s, [five]);
    assert z == [DASH, DASH, 53];
    OpenComment(z);
  }

  lemma NegativeFive()
    ensures Literal([DASH, 53])
  {
    var five := [DASH, 53];
    assert five[1..] == [53] && [53][1..] == [];
    assert First(five) == Chr([DASH]) && First([53]) == Chr([53]);
  }

  lemma DashParam()
    ensures var s, p := [DASH, DOLLAR, 49], [DOLLAR, 49];
      Lex(s) == [Chr([DASH]), Param(p)] && First(s) == Chr([DASH]) && First(p) == Param(p)
      && ParamIndex(Param(p)) == 1
  {
    var s, p := [DASH, DOLLAR, 49], [DOLLAR, 49];
    assert s[1..] == p && p[2..] == [] && p[1..] == [49];
    DigitEndIs(p, 1, 2);
    assert First(s) == Chr([DASH]) && First(p) == Param(p);
    assert Lex(p) == [Param(p)] + Lex([]);
    assert Lex(s) == [Chr([DASH])] + Lex(p);
    assert Decimal([49]) == 1 by { assert [49][..0] == []; assert Decimal([]) == 0; }
  }

  lemma OpenComment(z: seq<byte>)
    requires z == [DASH, DASH, 53]
    ensures Lex(z) == [Span(Line, z, false)]
  {
    assert z[2..3] == [53] && !At(z, 2, [NEWLINE]);
    assert Find(z, 2, [NEWLINE]) == Find(z, 3, [NEWLINE]) == -1;
    assert First(z) == Span(Line, z, false);
    assert z[3..] == [];
  }
}
