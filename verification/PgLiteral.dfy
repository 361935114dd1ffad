/** Text as SQL literals: `quote_lit` and `is_safe_numeric`. What either lets into a statement
    can stand at a placeholder. */
module PgLiteral {
  import opened Bytes
  import opened PgLexer
  import opened PgRescan

  // ---- quoted literals ----

  /** The body of a quoted literal: every quote doubled. */
  function Doubled(s: seq<byte>): (r: seq<byte>) {
    if |s| == 0 then []
    else if s[0] == QUOTE then [QUOTE, QUOTE] + Doubled(s[1..])
    else [s[0]] + Doubled(s[1..])
  }

  function Quoted(s: seq<byte>): seq<byte> {
    [QUOTE] + Doubled(s) + [QUOTE]
  }

  /** `quote_lit`. On UTF-8 text, working byte by byte is working character by character:
      a quote is one byte that occurs inside no other character. */
  method QuoteLit(s: seq<byte>) returns (out: seq<byte>)
    ensures out == Quoted(s)
  {
    out := [QUOTE];
    assert s[0..] == s;
    for i := 0 to |s|
      invariant out + Doubled(s[i..]) == [QUOTE] + Doubled(s)
    {
      assert s[i..][1..] == s[i + 1..];
      ghost var rest := Doubled(s[i + 1..]);
      if s[i] == QUOTE {
        ConcatAssoc(out, [QUOTE, QUOTE], rest);
        assert out + [QUOTE] + [s[i]] == out + [QUOTE, QUOTE];
        out := out + [QUOTE];
      } else {
        ConcatAssoc(out, [s[i]], rest);
      }
      out := out + [s[i]];
    }
    assert s[|s|..] == [] && out + [] == out;
    out := out + [QUOTE];
  }

  /** The value of a quoted literal with standard-conforming strings: undouble the quotes. */
  function Undoubled(s: seq<byte>): seq<byte> {
    if |s| == 0 then []
    else if |s| > 1 && s[0] == QUOTE && s[1] == QUOTE then [QUOTE] + Undoubled(s[2..])
    else [s[0]] + Undoubled(s[1..])
  }

  /** The backend reads back exactly the value that was quoted. */
  lemma {:induction false} QuotedValue(s: seq<byte>)
    ensures Undoubled(Quoted(s)[1..|Quoted(s)| - 1]) == s
  {
    assert Quoted(s)[1..|Quoted(s)| - 1] == Doubled(s);
    UndoubleDouble(s);
  }

  lemma {:induction false} UndoubleDouble(s: seq<byte>)
    ensures Undoubled(Doubled(s)) == s
    decreases |s|
  {
    if 0 < |s| {
      UndoubleDouble(s[1..]);
      var d := Doubled(s[1..]);
      if s[0] == QUOTE {
        assert ([QUOTE, QUOTE] + d)[2..] == d;
      } else {
        assert ([s[0]] + d)[1..] == d;
      }
    }
  }

  /** A quoted literal scans as closed quoted spans, one more than the quotes in it. */
  lemma {:induction false} QuotedBenign(s: seq<byte>, skip: seq<byte>)
    requires forall i | 0 <= i < |skip| :: skip[i] != QUOTE
    ensures Benign([QUOTE] + skip + Doubled(s) + [QUOTE])
    decreases |s|
  {
    hide First, Benign;
    var z := [QUOTE] + skip + Doubled(s) + [QUOTE];
    if |s| == 0 {
      NothingBenign();
      ClosedQuote(skip, []);
      assert z == [QUOTE] + skip + [QUOTE] + [];
    } else if s[0] == QUOTE {
      var more := [QUOTE] + [] + Doubled(s[1..]) + [QUOTE];
      QuotedBenign(s[1..], []);
      ClosedQuote(skip, more);
      assert z == [QUOTE] + skip + [QUOTE] + more;
    } else {
      QuotedBenign(s[1..], skip + [s[0]]);
      assert z == [QUOTE] + (skip + [s[0]]) + Doubled(s[1..]) + [QUOTE];
    }
  }

  lemma NothingBenign()
    ensures Benign([])
  {
  }

  lemma ClosedQuote(skip: seq<byte>, more: seq<byte>)
    requires forall i | 0 <= i < |skip| :: skip[i] != QUOTE
    requires Benign(more)
    ensures Benign([QUOTE] + skip + [QUOTE] + more)
  {
    hide Benign, First;
    var z := [QUOTE] + skip + [QUOTE] + more;
    var n := |skip| + 1;
    assert forall j | 1 <= j < n :: z[j] == skip[j - 1];
    QuotedFirst(z, n);
    assert z[n + 1..] == more;
    SpanBenign(z);
  }

  /** A quote, no quote, a quote: the first token. */
  lemma QuotedFirst(z: seq<byte>, n: nat)
    requires 0 < n < |z| && z[0] == QUOTE == z[n] && forall j | 1 <= j < n :: z[j] != QUOTE
    ensures First(z) == Span(SQuote, z[..n + 1], true)
  {
    hide Find;
    forall j | 1 <= j < n
      ensures !At(z, j, [QUOTE])
    {
      assert z[j..j + 1] == [z[j]];
    }
    assert z[n..n + 1] == [QUOTE];
    assert At(z, n, [QUOTE]);
    assert Find(z, 1, [QUOTE]) == n;
  }

  lemma SpanBenign(z: seq<byte>)
    requires 0 < |z| && First(z).Span? && First(z).st == SQuote && First(z).closed && z[0] == QUOTE
    requires Benign(z[|First(z).text|..])
    ensures Benign(z)
  {
    hide First;
  }

  lemma QuotedLiteral(s: seq<byte>)
    ensures Literal(Quoted(s))
  {
    hide Benign, First, Doubled;
    QuotedBenign(s, []);
    assert [QUOTE] + [] + Doubled(s) + [QUOTE] == Quoted(s);
  }

  // ---- plain text ----

  /** A byte that is plain wherever it stands. */
  predicate Quiet(c: byte) {
    c != QUOTE && c != DQUOTE && c != DOLLAR && c != SLASH && c != STAR && c != DASH
  }

  /** Quiet bytes, and minus signs each followed by something other than a minus sign. */
  predicate Plain(s: seq<byte>) {
    forall i | 0 <= i < |s| :: PlainAt(s, i)
  }

  predicate PlainAt(s: seq<byte>, i: nat)
    requires i < |s|
  {
    Quiet(s[i]) || (s[i] == DASH && i + 1 < |s| && s[i + 1] != DASH)
  }

  lemma {:induction false} PlainBenign(s: seq<byte>)
    requires Plain(s)
    ensures Benign(s)
    decreases |s|
  {
    hide Find, SpanEnd, Close;
    if 0 < |s| {
      assert PlainAt(s, 0);
      forall i | 0 <= i < |s[1..]|
        ensures PlainAt(s[1..], i)
      {
        assert PlainAt(s, i + 1);
      }
      PlainBenign(s[1..]);
      assert First(s) == Chr(s[..1]);
    }
  }

  lemma PlainLiteral(s: seq<byte>)
    requires Plain(s) && 0 < |s|
    ensures Literal(s)
  {
    hide Benign;
    assert PlainAt(s, 0);
    PlainBenign(s);
  }

  // ---- numbers ----

  const PLUS: byte := 43
  const DOT: byte := 46

  predicate IsSign(c: byte) { c == PLUS || c == DASH }

  predicate IsE(c: byte) { c == 101 || c == 69 }

  function SignEnd(s: seq<byte>, k: nat): (r: nat)
    requires k <= |s|
    ensures k <= r <= |s|
  {
    if k < |s| && IsSign(s[k]) then k + 1 else k
  }

  /** The end of the mantissa at `k`, and whether it has a digit. */
  function MantissaEnd(s: seq<byte>, k: nat): (r: (nat, bool))
    requires k <= |s|
    ensures k <= r.0 <= |s|
  {
    var i := DigitEnd(s, k);
    if i < |s| && s[i] == DOT
    then (DigitEnd(s, i + 1), i > k || DigitEnd(s, i + 1) > i + 1)
    else (i, i > k)
  }

  /** `s` is a number from its first byte to its last. */
  predicate NumericText(s: seq<byte>) {
    var (i, digits) := MantissaEnd(s, SignEnd(s, 0));
    digits &&
    if i < |s| && IsE(s[i])
    then var k := SignEnd(s, i + 1); DigitEnd(s, k) > k && DigitEnd(s, k) == |s|
    else i == |s|
  }

  /** The UTF-8 length of the white-space character at the front of `s`, or 0. */
  function SpaceLen(s: seq<byte>): (n: nat)
    ensures n <= |s| && n <= 3
  {
    if |s| >= 1 && (9 <= s[0] <= 13 || s[0] == 32) then 1
    else if |s| >= 2 && s[0] == 0xC2 && (s[1] == 0x85 || s[1] == 0xA0) then 2
    else if |s| >= 3 && IsWideSpace(s[0], s[1], s[2]) then 3
    else 0
  }

  predicate IsWideSpace(a: byte, b: byte, c: byte) {
    || (a == 0xE1 && b == 0x9A && c == 0x80)
    || (a == 0xE2 && b == 0x80 && (0x80 <= c <= 0x8A || c == 0xA8 || c == 0xA9 || c == 0xAF))
    || (a == 0xE2 && b == 0x81 && c == 0x9F)
    || (a == 0xE3 && b == 0x80 && c == 0x80)
  }

  function TrimStart(s: seq<byte>): (r: seq<byte>)
    decreases |s|
  {
    if SpaceLen(s) == 0 then s else TrimStart(s[SpaceLen(s)..])
  }

  function LastSpaceLen(s: seq<byte>): (n: nat)
    ensures n <= |s|
  {
    if |s| >= 1 && SpaceLen(s[|s| - 1..]) == 1 then 1
    else if |s| >= 2 && SpaceLen(s[|s| - 2..]) == 2 then 2
    else if |s| >= 3 && SpaceLen(s[|s| - 3..]) == 3 then 3
    else 0
  }

  function TrimEnd(s: seq<byte>): (r: seq<byte>)
    decreases |s|
  {
    if LastSpaceLen(s) == 0 then s else TrimEnd(s[..|s| - LastSpaceLen(s)])
  }

  /** `str::trim`: Unicode white space off both ends. */
  function Trim(s: seq<byte>): (r: seq<byte>) {
    TrimEnd(TrimStart(s))
  }

  /** Nothing but white-space characters, one behind the other. */
  ghost predicate Spaces(s: seq<byte>) {
    |s| == 0 || exists n | 0 < n <= |s| :: SpaceLen(s[..n]) == n && Spaces(s[n..])
  }

  lemma {:induction false} SpacesJoin(a: seq<byte>, b: seq<byte>)
    requires Spaces(a) && Spaces(b)
    ensures Spaces(a + b)
    decreases |a|
  {
    hide SpaceLen;
    if |a| == 0 {
      assert a + b == b;
    } else {
      var n :| 0 < n <= |a| && SpaceLen(a[..n]) == n && Spaces(a[n..]);
      SpacesJoin(a[n..], b);
      assert (a + b)[..n] == a[..n] && (a + b)[n..] == a[n..] + b;
    }
  }

  lemma NoSpaces()
    ensures Spaces([])
  {
  }

  lemma SpaceAlone(s: seq<byte>)
    ensures SpaceLen(s[..SpaceLen(s)]) == SpaceLen(s)
  {
  }

  lemma LastSpaceAlone(s: seq<byte>)
    ensures SpaceLen(s[|s| - LastSpaceLen(s)..]) == LastSpaceLen(s)
  {
    hide SpaceLen;
    assert s[|s|..] == [];
    SpaceAlone([]);
  }

  lemma OneSpace(s: seq<byte>)
    requires 0 < |s| && SpaceLen(s) == |s|
    ensures Spaces(s)
  {
    assert s[..|s|] == s && s[|s|..] == [];
  }

  /** Trimming takes white space off both ends, and all of it: no white-space character begins
      or ends what is left. */
  lemma TrimExact(s: seq<byte>) returns (a: seq<byte>, b: seq<byte>)
    ensures s == a + Trim(s) + b && Spaces(a) && Spaces(b)
    ensures SpaceLen(Trim(s)) == 0 && LastSpaceLen(Trim(s)) == 0
  {
    hide SpaceLen, LastSpaceLen, Spaces;
    a := TrimStartExact(s);
    b := TrimEndExact(TrimStart(s));
    HeadStays(TrimStart(s), Trim(s), b);
  }

  lemma {:induction false} TrimStartExact(s: seq<byte>) returns (a: seq<byte>)
    ensures s == a + TrimStart(s) && Spaces(a) && SpaceLen(TrimStart(s)) == 0
    decreases |s|
  {
    hide SpaceLen, Spaces;
    if SpaceLen(s) == 0 {
      a := [];
      NoSpaces();
    } else {
      var n := SpaceLen(s);
      SpaceAlone(s);
      a := TrimStartExact(s[n..]);
      OneSpace(s[..n]);
      SpacesJoin(s[..n], a);
      a := s[..n] + a;
    }
  }

  lemma {:induction false} TrimEndExact(s: seq<byte>) returns (b: seq<byte>)
    ensures s == TrimEnd(s) + b && Spaces(b) && LastSpaceLen(TrimEnd(s)) == 0
    decreases |s|
  {
    hide SpaceLen, LastSpaceLen, Spaces;
    if LastSpaceLen(s) == 0 {
      b := [];
      NoSpaces();
    } else {
      var n := LastSpaceLen(s);
      LastSpaceAlone(s);
      var rest := s[..|s| - n];
      b := TrimEndExact(rest);
      OneSpace(s[|s| - n..]);
      SpacesJoin(b, s[|s| - n..]);
      b := b + s[|s| - n..];
    }
  }

  /** What follows a text does not take part in the white space at its front, unless it ends
      within. */
  lemma HeadStays(s: seq<byte>, head: seq<byte>, tail: seq<byte>)
    requires s == head + tail && SpaceLen(s) == 0
    ensures SpaceLen(head) == 0
  {
  }

  predicate IsNumericWord(s: seq<byte>) {
    || s == Ascii("NaN") || s == Ascii("Infinity")
    || s == Ascii("-Infinity") || s == Ascii("+Infinity")
  }

  predicate SafeNumeric(s: seq<byte>) {
    IsNumericWord(Trim(s)) || NumericText(Trim(s))
  }

  /** `is_safe_numeric`. */
  method IsSafeNumeric(text: seq<byte>) returns (safe: bool)
    ensures safe == SafeNumeric(text)
  {
    hide Trim, DigitEnd, MantissaEnd, IsNumericWord, IsSign, IsE;
    var s := Trim(text);
    if IsNumericWord(s) {
      return true;
    }
    var i := 0;
    if i < |s| && IsSign(s[i]) {
      i := i + 1;
    }
    var digits;
    i, digits := ScanMantissa(s, i);
    if !digits {
      return false;
    }
    if i < |s| && IsE(s[i]) {
      i := i + 1;
      if i < |s| && IsSign(s[i]) {
        i := i + 1;
      }
      var j := ScanDigits(s, i);
      if j == i {
        return false;
      }
      i := j;
    }
    return i == |s|;
  }

  /** Digits, a point, digits; whether there was a digit. */
  method ScanMantissa(s: seq<byte>, k: nat) returns (i: nat, digits: bool)
    requires k <= |s|
    ensures (i, digits) == MantissaEnd(s, k)
  {
    hide DigitEnd;
    i := ScanDigits(s, k);
    digits := i > k;
    if i < |s| && s[i] == DOT {
      i := i + 1;
      var j := ScanDigits(s, i);
      digits := digits || j > i;
      i := j;
    }
  }

  // ---- the numeric grammar ----

  predicate DigitsIn(s: seq<byte>, i: nat, j: nat)
    requires i <= j <= |s|
  {
    forall k | i <= k < j :: IsDigit(s[k])
  }

  /** `s` reads, between cut points, as an optional sign, whole digits up to `b`, a
      fraction up to `c`, and an exponent whose digits start at `d`. */
  ghost predicate IsNumber(s: seq<byte>, a: nat, b: nat, c: nat, d: nat) {
    && a <= b <= c <= d <= |s|
    && (a == 0 || (a == 1 && IsSign(s[0])))
    && DigitsIn(s, a, b)
    && (b == c || (s[b] == DOT && DigitsIn(s, b + 1, c)))
    && (a < b || b + 1 < c)
    && if c == |s| then c == d else
         && IsE(s[c]) && d < |s| && DigitsIn(s, d, |s|)
         && (d == c + 1 || (d == c + 2 && IsSign(s[c + 1])))
  }

  /** The greedy scan accepts exactly the SQL number grammar. */
  lemma NumericTextIsGrammar(s: seq<byte>)
    ensures NumericText(s) <==> exists a, b, c, d :: IsNumber(s, a, b, c, d)
  {
    if NumericText(s) {
      var a := SignEnd(s, 0);
      var c := MantissaEnd(s, a).0;
      assert IsNumber(s, a, DigitEnd(s, a), c, if c == |s| then c else SignEnd(s, c + 1));
    }
    forall a, b, c, d | IsNumber(s, a, b, c, d)
      ensures NumericText(s)
    {
      NumericOf(s, a, b, c, d);
    }
  }

  lemma NumericOf(s: seq<byte>, a: nat, b: nat, c: nat, d: nat)
    requires IsNumber(s, a, b, c, d)
    ensures NumericText(s)
  {
    hide DigitEnd;
    assert SignEnd(s, 0) == a;
    DigitEndIs(s, a, b);
    if b < c {
      DigitEndIs(s, b + 1, c);
    }
    assert MantissaEnd(s, a) == (c, true);
    if c < |s| {
      assert SignEnd(s, c + 1) == d;
      DigitEndIs(s, d, |s|);
    }
  }

  // ---- numbers are plain ----

  lemma NumericPlain(s: seq<byte>)
    requires NumericText(s)
    ensures Plain(s) && 0 < |s|
  {
    var a := SignEnd(s, 0);
    var b := DigitEnd(s, a);
    var c := MantissaEnd(s, a).0;
    forall i | 0 <= i < |s|
      ensures PlainAt(s, i)
    {
    }
  }

  predicate AllQuiet(s: seq<byte>) {
    forall i | 0 <= i < |s| :: Quiet(s[i])
  }

  lemma SpaceQuiet(s: seq<byte>)
    ensures AllQuiet(s[..SpaceLen(s)])
  {
  }

  lemma LastSpaceQuiet(s: seq<byte>)
    ensures AllQuiet(s[|s| - LastSpaceLen(s)..])
  {
    hide SpaceLen, Quiet;
    var last := s[|s| - LastSpaceLen(s)..];
    SpaceQuiet(last);
    assert last[..|last|] == last;
  }

  lemma {:induction false} TrimStartSplit(s: seq<byte>) returns (pre: seq<byte>)
    ensures s == pre + TrimStart(s) && AllQuiet(pre)
    decreases |s|
  {
    hide SpaceLen;
    var n := SpaceLen(s);
    if n == 0 {
      pre := [];
    } else {
      var more := TrimStartSplit(s[n..]);
      SpaceQuiet(s);
      pre := s[..n] + more;
      assert s == s[..n] + s[n..];
      ConcatAssoc(s[..n], more, TrimStart(s[n..]));
    }
  }

  lemma {:induction false} TrimEndSplit(s: seq<byte>) returns (post: seq<byte>)
    ensures s == TrimEnd(s) + post && AllQuiet(post)
    decreases |s|
  {
    hide LastSpaceLen, SpaceLen;
    var k := |s| - LastSpaceLen(s);
    if k == |s| {
      post := [];
    } else {
      var more := TrimEndSplit(s[..k]);
      LastSpaceQuiet(s);
      post := more + s[k..];
      assert s == s[..k] + s[k..];
      ConcatAssoc(TrimEnd(s[..k]), more, s[k..]);
    }
  }

  lemma PlainBetween(pre: seq<byte>, core: seq<byte>, post: seq<byte>)
    requires AllQuiet(pre) && Plain(core) && AllQuiet(post)
    ensures Plain(pre + (core + post))
  {
    var z := pre + (core + post);
    forall i | 0 <= i < |z|
      ensures PlainAt(z, i)
    {
      if |pre| <= i < |pre| + |core| {
        assert PlainAt(core, i - |pre|);
      }
    }
  }

  lemma SafeNumericLiteral(s: seq<byte>)
    requires SafeNumeric(s)
    ensures Literal(s)
  {
    hide TrimStart, TrimEnd, NumericText, Plain;
    var core := Trim(s);
    var pre := TrimStartSplit(s);
    var post := TrimEndSplit(TrimStart(s));
    assert s == pre + (core + post);
    if NumericText(core) {
      NumericPlain(core);
    } else {
      WordPlain(core);
    }
    PlainBetween(pre, core, post);
    PlainLiteral(s);
  }

  lemma WordPlain(s: seq<byte>)
    requires IsNumericWord(s)
    ensures Plain(s) && 0 < |s|
  {
  }
}
