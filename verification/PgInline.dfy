/** Parameter inlining: `inline_params` rewrites `$1..$n` in place, and the text it
    produces lexes as the source does with each parameter replaced by its literal. */
module PgInline {
  import opened Bytes
  import opened PgLexer

  /** `str::parse::<usize>().unwrap_or(0)` on a run of digits. */
  function ParseIndex(ds: seq<byte>): (n: nat)
    requires AllDigits(ds)
  {
    if Decimal(ds) < 0x1_0000_0000_0000_0000 then Decimal(ds) else 0
  }

  /** The number of the parameter a token names, or 0. */
  function ParamIndex(t: Token): (n: nat) {
    if t.Param? && 0 < |t.text| && AllDigits(t.text[1..])
    then ParseIndex(t.text[1..])
    else 0
  }

  predicate InRange(t: Token, rendered: seq<seq<byte>>) {
    1 <= ParamIndex(t) <= |rendered|
  }

  function Replace(t: Token, rendered: seq<seq<byte>>): seq<byte> {
    if InRange(t, rendered) then rendered[ParamIndex(t) - 1] else t.text
  }

  /** Replace every in-range parameter token and put the tokens back together. */
  function Splice(ts: seq<Token>, rendered: seq<seq<byte>>): seq<byte> {
    if |ts| == 0 then [] else Replace(ts[0], rendered) + Splice(ts[1..], rendered)
  }

  function Inline(s: seq<byte>, rendered: seq<seq<byte>>): seq<byte> {
    Splice(Lex(s), rendered)
  }

  lemma InlineStep(s: seq<byte>, rendered: seq<seq<byte>>)
    requires 0 < |s|
    ensures var t := First(s);
      Inline(s, rendered) == Replace(t, rendered) + Inline(s[|t.text|..], rendered)
  {
    assert Lex(s)[1..] == Lex(s[|First(s).text|..]);
  }

  // ---- the scanner itself ----

  /** What is still to be output when the scan stands at offset `i` in state `st`. */
  ghost function Rest(b: seq<byte>, rendered: seq<seq<byte>>, i: nat, st: State): seq<byte>
    requires i <= |b| && (!st.Normal? ==> 0 < |Close(st)|)
  {
    if st.Normal? then Inline(b[i..], rendered)
    else var e := SpanEnd(b, i, Close(st)); b[i..e] + Inline(b[e..], rendered)
  }

  /** One plain byte or one placeholder. */
  lemma RestNormal(b: seq<byte>, rendered: seq<seq<byte>>, i: nat)
    requires i < |b|
    ensures var t := First(b[i..]);
      Rest(b, rendered, i, Normal) == Replace(t, rendered) + Rest(b, rendered, i + |t.text|, Normal)
  {
    InlineStep(b[i..], rendered);
    assert b[i..][|First(b[i..]).text|..] == b[i + |First(b[i..]).text|..];
  }

  lemma RestChr(b: seq<byte>, rendered: seq<seq<byte>>, i: nat)
    requires i < |b| && Opening(b[i..]).0.Normal? && !IsParam(b[i..])
    ensures Rest(b, rendered, i, Normal) == [b[i]] + Rest(b, rendered, i + 1, Normal)
  {
    RestNormal(b, rendered, i);
    assert b[i..][..1] == [b[i]];
  }

  lemma RestParam(b: seq<byte>, rendered: seq<seq<byte>>, i: nat, j: nat)
    requires i + 1 < j <= |b| && b[i] == DOLLAR
    requires AllDigits(b[i + 1..j]) && (j < |b| ==> !IsDigit(b[j]))
    ensures var idx := ParseIndex(b[i + 1..j]);
      Rest(b, rendered, i, Normal)
      == (if 1 <= idx <= |rendered| then rendered[idx - 1] else b[i..j]) + Rest(b, rendered, j, Normal)
  {
    hide Inline, Rest, Find, SpanEnd, Decimal;
    var s := b[i..];
    assert forall k | 1 <= k < j - i :: s[k] == b[i + 1..j][k - 1];
    DigitEndIs(s, 1, j - i);
    assert s[..j - i] == b[i..j] && b[i..j][1..] == b[i + 1..j];
    assert First(s) == Param(b[i..j]);
    RestNormal(b, rendered, i);
  }

  /** A span opened at `i` is the token there, up to where the closing search ends. */
  lemma FirstIsSpan(b: seq<byte>, i: nat)
    requires i < |b| && !Opening(b[i..]).0.Normal?
    ensures var (st, n) := Opening(b[i..]);
      First(b[i..]).Span? && First(b[i..]).text == b[i..SpanEnd(b, i + n, Close(st))]
  {
    var (st, n) := Opening(b[i..]);
    FindShift(b, i, n, Close(st));
  }

  /** Split a span's text at a point inside it. */
  lemma RestSpan(b: seq<byte>, rendered: seq<seq<byte>>, i: nat, j: nat, st: State)
    requires i <= j <= |b| && !st.Normal? && 0 < |Close(st)|
    ensures var e := SpanEnd(b, j, Close(st));
      b[i..e] + Rest(b, rendered, e, Normal) == b[i..j] + Rest(b, rendered, j, st)
  {
    hide Inline, Find;
    var e := SpanEnd(b, j, Close(st));
    assert b[i..e] == b[i..j] + b[j..e];
    ConcatAssoc(b[i..j], b[j..e], Inline(b[e..], rendered));
  }

  /** The opening mark of a span. */
  lemma RestOpen(b: seq<byte>, rendered: seq<seq<byte>>, i: nat)
    requires i < |b| && !Opening(b[i..]).0.Normal?
    ensures var (st, n) := Opening(b[i..]);
      Rest(b, rendered, i, Normal) == b[i..i + n] + Rest(b, rendered, i + n, st)
  {
    hide Inline, First, Opening, Find, SpanEnd, ParseIndex, DelimLen;
    var (st, n) := Opening(b[i..]);
    FirstIsSpan(b, i);
    RestNormal(b, rendered, i);
    RestSpan(b, rendered, i, i + n, st);
  }

  /** One step inside a span: its closing mark, or one more byte of it. */
  lemma RestInside(b: seq<byte>, rendered: seq<seq<byte>>, i: nat, st: State)
    requires i < |b| && !st.Normal? && 0 < |Close(st)|
    ensures At(b, i, Close(st)) ==>
      Rest(b, rendered, i, st) == Close(st) + Rest(b, rendered, i + |Close(st)|, Normal)
    ensures !At(b, i, Close(st)) ==>
      Rest(b, rendered, i, st) == [b[i]] + Rest(b, rendered, i + 1, st)
  {
    hide Inline;
    var p := Close(st);
    var e := SpanEnd(b, i, p);
    if At(b, i, p) {
      assert b[i..e] == p;
    } else {
      assert SpanEnd(b, i + 1, p) == e;
      assert b[i..e] == [b[i]] + b[i + 1..e];
      ConcatAssoc([b[i]], b[i + 1..e], Inline(b[e..], rendered));
    }
  }

  /** `inline_params`: one pass of a six-state scanner over the bytes. */
  method InlineParams(b: seq<byte>, rendered: seq<seq<byte>>) returns (out: seq<byte>)
    ensures out == Inline(b, rendered)
  {
    hide Inline;
    var st := Normal;
    out := [];
    var i := 0;
    assert b[0..] == b;
    while i < |b|
      invariant 0 <= i <= |b|
      invariant !st.Normal? ==> 0 < |Close(st)|
      invariant out + Rest(b, rendered, i, st) == Inline(b, rendered)
    {
      var piece, i', st';
      if st.Normal? {
        piece, i', st' := StepNormal(b, rendered, i);
      } else {
        piece, i', st' := StepInside(b, rendered, i, st);
      }
      ConcatAssoc(out, piece, Rest(b, rendered, i', st'));
      out, i, st := out + piece, i', st';
    }
    assert b[|b|..] == [];
    InlineEmpty(rendered);
  }

  lemma InlineEmpty(rendered: seq<seq<byte>>)
    ensures Inline([], rendered) == []
  {
  }

  /** One turn of the scanner's loop inside a span: the bytes it writes, where it goes
      on, and in which state. */
  method StepInside(b: seq<byte>, rendered: seq<seq<byte>>, i: nat, st: State)
    returns (piece: seq<byte>, i': nat, st': State)
    requires i < |b| && !st.Normal? && 0 < |Close(st)|
    ensures i < i' <= |b| && (!st'.Normal? ==> 0 < |Close(st')|)
    ensures Rest(b, rendered, i, st) == piece + Rest(b, rendered, i', st')
  {
    hide Inline, Rest, Find;
    var c := b[i];
    RestInside(b, rendered, i, st);
    assert b[i..i + 1] == [c];
    assert i + 1 < |b| ==> b[i..i + 2] == [c, b[i + 1]];
    match st {
      case SQuote =>
        piece, i', st' := [c], i + 1, if c == QUOTE then Normal else st;
      case DQuote =>
        piece, i', st' := [c], i + 1, if c == DQUOTE then Normal else st;
      case Line =>
        piece, i', st' := [c], i + 1, if c == NEWLINE then Normal else st;
      case Block =>
        if c == STAR && i + 1 < |b| && b[i + 1] == SLASH {
          piece, i', st' := [c, SLASH], i + 2, Normal;
        } else {
          piece, i', st' := [c], i + 1, st;
        }
      case Dollar(delim) =>
        if i + |delim| <= |b| && b[i..i + |delim|] == delim {
          piece, i', st' := delim, i + |delim|, Normal;
        } else {
          piece, i', st' := [c], i + 1, st;
        }
    }
  }

  /** The same outside every span. */
  method StepNormal(b: seq<byte>, rendered: seq<seq<byte>>, i: nat)
    returns (piece: seq<byte>, i': nat, st': State)
    requires i < |b|
    ensures i < i' <= |b| && (!st'.Normal? ==> 0 < |Close(st')|)
    ensures Rest(b, rendered, i, Normal) == piece + Rest(b, rendered, i', st')
  {
    hide Inline, Rest, Find, SpanEnd, First, Decimal, ParseIndex, TagEnd, DigitEnd;
    var c := b[i];
    if c == QUOTE {
      RestOpen(b, rendered, i);
      piece, i', st' := [c], i + 1, SQuote;
    } else if c == DQUOTE {
      RestOpen(b, rendered, i);
      piece, i', st' := [c], i + 1, DQuote;
    } else if c == DASH && i + 1 < |b| && b[i + 1] == DASH {
      RestOpen(b, rendered, i);
      piece, i', st' := [DASH, DASH], i + 2, Line;
    } else if c == SLASH && i + 1 < |b| && b[i + 1] == STAR {
      RestOpen(b, rendered, i);
      piece, i', st' := [SLASH, STAR], i + 2, Block;
    } else if c == DOLLAR {
      piece, i', st' := StepDollar(b, rendered, i);
    } else {
      RestChr(b, rendered, i);
      piece, i', st' := [c], i + 1, Normal;
    }
  }

  /** The same at a `$`: a parameter, a dollar-quote, or a plain byte. */
  method StepDollar(b: seq<byte>, rendered: seq<seq<byte>>, i: nat)
    returns (piece: seq<byte>, i': nat, st': State)
    requires i < |b| && b[i] == DOLLAR
    ensures i < i' <= |b| && (!st'.Normal? ==> 0 < |Close(st')|)
    ensures Rest(b, rendered, i, Normal) == piece + Rest(b, rendered, i', st')
  {
    hide Inline, Rest, Find, SpanEnd, First, Decimal, ParseIndex, TagEnd, DigitEnd;
    if i + 1 < |b| && IsDigit(b[i + 1]) {
      var j := ScanDigits(b, i + 1);
      assert AllDigits(b[i + 1..j]);
      RestParam(b, rendered, i, j);
      var idx := ParseIndex(b[i + 1..j]);
      piece, i', st' := if 1 <= idx <= |rendered| then rendered[idx - 1] else b[i..j], j, Normal;
    } else if i + 1 < |b| && (b[i + 1] == DOLLAR || b[i + 1] == UNDERSCORE || IsAlpha(b[i + 1])) {
      var j := ScanTag(b, i + 1);
      TagEndIs(b[i..], j - i);
      if j < |b| && b[j] == DOLLAR {
        RestOpen(b, rendered, i);
        var delim := b[i..j + 1];
        assert b[i..][..j + 1 - i] == delim;
        piece, i', st' := delim, j + 1, Dollar(delim);
      } else {
        RestChr(b, rendered, i);
        piece, i', st' := [b[i]], i + 1, Normal;
      }
    } else {
      RestChr(b, rendered, i);
      piece, i', st' := [b[i]], i + 1, Normal;
    }
  }

  method ScanTag(b: seq<byte>, i: nat) returns (j: nat)
    requires i <= |b|
    ensures i <= j <= |b| && (forall k | i <= k < j :: IsTagByte(b[k])) && (j < |b| ==> !IsTagByte(b[j]))
  {
    j := i;
    while j < |b| && IsTagByte(b[j])
      invariant i <= j <= |b|
      invariant forall k | i <= k < j :: IsTagByte(b[k])
    {
      j := j + 1;
    }
  }

  lemma TagEndIs(s: seq<byte>, j: nat)
    requires 1 <= j <= |s| && (forall k | 1 <= k < j :: IsTagByte(s[k])) && (j < |s| ==> !IsTagByte(s[j]))
    ensures TagEnd(s, 1) == j
  {
  }
}
