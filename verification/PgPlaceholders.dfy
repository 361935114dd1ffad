/** Which value a placeholder gets: the one its decimal number names, at every place of a
    statement and for any number of digits. */
module PgPlaceholders {
  import opened Bytes
  import opened PgLexer
  import opened PgInline
  import opened PgRender

  /** One past the largest 64-bit index. */
  const INDEX_LIMIT := 0x1_0000_0000_0000_0000

  function Zeros(z: nat): (s: seq<byte>)
    ensures |s| == z && forall i | 0 <= i < z :: s[i] == 48
  {
    seq<byte>(z, i => 48)
  }

  // ---- digits and the number they write ----

  lemma {:induction false} LeadingZeros(z: nat, ds: seq<byte>)
    requires AllDigits(ds)
    ensures AllDigits(Zeros(z) + ds) && Decimal(Zeros(z) + ds) == Decimal(ds)
    decreases z + |ds|
  {
    var s := Zeros(z) + ds;
    if |ds| > 0 {
      assert s[..|s| - 1] == Zeros(z) + ds[..|ds| - 1];
      LeadingZeros(z, ds[..|ds| - 1]);
    } else if z > 0 {
      assert s[..|s| - 1] == Zeros(z - 1) + [];
      LeadingZeros(z - 1, []);
    }
  }

  /** Every run of digits is the decimal text of its number behind some zeros. */
  lemma {:induction false} DigitsExact(ds: seq<byte>) returns (z: nat)
    requires AllDigits(ds) && 0 < |ds|
    ensures ds == Zeros(z) + NatText(Decimal(ds))
    decreases |ds|
  {
    var init, last := ds[..|ds| - 1], ds[|ds| - 1];
    var n := Decimal(init);
    assert Decimal(ds) == n * 10 + (last as int - 48);
    if n == 0 {
      z := |init|;
      ZeroDigits(init);
      assert ds == init + [last];
      assert NatText(Decimal(ds)) == [last];
    } else {
      z := DigitsExact(init);
      assert NatText(Decimal(ds)) == NatText(n) + [last];
      assert ds == init + [last];
    }
  }

  lemma {:induction false} ZeroDigits(ds: seq<byte>)
    requires AllDigits(ds) && Decimal(ds) == 0
    ensures ds == Zeros(|ds|)
    decreases |ds|
  {
    if |ds| > 0 {
      ZeroDigits(ds[..|ds| - 1]);
      assert ds == ds[..|ds| - 1] + [ds[|ds| - 1]];
    }
  }

  // ---- one token ----

  /** The token is a `$` and the decimal text of `k`, perhaps behind zeros. */
  ghost predicate Names(t: Token, k: nat) {
    t.Param? && exists z: nat :: t.text == [DOLLAR] + Zeros(z) + NatText(k)
  }

  ghost predicate Usable(k: nat, rendered: seq<seq<byte>>) {
    1 <= k <= |rendered| && k < INDEX_LIMIT
  }

  /** What stands for the token in the output: the value of the number it names, if there is
      one, else the token as it was. */
  ghost predicate Becomes(t: Token, rendered: seq<seq<byte>>, piece: seq<byte>) {
    && (forall k: nat | Names(t, k) && Usable(k, rendered) :: piece == rendered[k - 1])
    && ((forall k: nat | Names(t, k) :: !Usable(k, rendered)) ==> piece == t.text)
  }

  lemma NamesDecimal(t: Token, k: nat)
    requires Names(t, k)
    ensures 0 < |t.text| && AllDigits(t.text[1..]) && Decimal(t.text[1..]) == k
  {
    var z: nat :| t.text == [DOLLAR] + Zeros(z) + NatText(k);
    assert t.text[1..] == Zeros(z) + NatText(k);
    LeadingZeros(z, NatText(k));
    NatTextValue(k);
  }

  /** A placeholder names exactly one number. */
  lemma NamesOne(t: Token)
    requires t.Param? && 1 < |t.text| && t.text[0] == DOLLAR && AllDigits(t.text[1..])
    ensures Names(t, Decimal(t.text[1..]))
    ensures forall k: nat | Names(t, k) :: k == Decimal(t.text[1..])
  {
    var z := DigitsExact(t.text[1..]);
    assert t.text == [DOLLAR] + Zeros(z) + NatText(Decimal(t.text[1..]));
    forall k: nat | Names(t, k)
      ensures k == Decimal(t.text[1..])
    {
      NamesDecimal(t, k);
    }
  }

  lemma ParamShape(s: seq<byte>)
    requires 0 < |s| && First(s).Param?
    ensures var t := First(s); 1 < |t.text| && t.text[0] == DOLLAR && AllDigits(t.text[1..])
  {
    hide Find;
    var t := First(s);
    assert t.text == s[..DigitEnd(s, 1)];
    assert forall i | 0 <= i < |t.text| :: t.text[i] == s[i];
  }

  lemma ReplaceExact(s: seq<byte>, rendered: seq<seq<byte>>)
    requires 0 < |s|
    ensures Becomes(First(s), rendered, Replace(First(s), rendered))
  {
    hide First, NatText, Zeros, Decimal;
    var t := First(s);
    if t.Param? {
      ParamShape(s);
      NamesOne(t);
    }
  }

  // ---- the whole statement ----

  function Joined(pieces: seq<seq<byte>>): seq<byte> {
    if |pieces| == 0 then [] else pieces[0] + Joined(pieces[1..])
  }

  /** The output is the statement's tokens in order, each placeholder in range turned into the
      value it names and everything else as it was. */
  lemma {:induction false} InlineExact(s: seq<byte>, rendered: seq<seq<byte>>) returns (pieces: seq<seq<byte>>)
    ensures Inline(s, rendered) == Joined(pieces) && |pieces| == |Lex(s)|
    ensures forall i | 0 <= i < |pieces| :: Becomes(Lex(s)[i], rendered, pieces[i])
    decreases |s|
  {
    hide First, Becomes, Replace;
    if |s| == 0 {
      pieces := [];
    } else {
      var t := First(s);
      var rest := s[|t.text|..];
      var more := InlineExact(rest, rendered);
      ReplaceExact(s, rendered);
      InlineStep(s, rendered);
      pieces := [Replace(t, rendered)] + more;
      assert pieces[1..] == more;
      assert Lex(s) == [t] + Lex(rest);
    }
  }

  lemma OneParam(ds: seq<byte>)
    requires AllDigits(ds) && 0 < |ds|
    ensures var s := [DOLLAR] + ds; First(s) == Param(s) && Lex(s) == [Param(s)]
  {
    hide Find;
    var s := [DOLLAR] + ds;
    assert forall i | 1 <= i < |s| :: s[i] == ds[i - 1];
    DigitEndIs(s, 1, |s|);
    assert s[..|s|] == s && s[|s|..] == [];
  }

  /** A placeholder on its own becomes the value of its number, however it is padded. */
  lemma PlaceholderGetsItsValue(k: nat, z: nat, rendered: seq<seq<byte>>)
    requires 1 <= k <= |rendered| && k < INDEX_LIMIT
    ensures Inline([DOLLAR] + Zeros(z) + NatText(k), rendered) == rendered[k - 1]
  {
    hide First, NatText, Zeros, Becomes;
    var s := [DOLLAR] + Zeros(z) + NatText(k);
    Alone(s, z, k, rendered);
    assert Names(Param(s), k);
    BecomesUsable(Param(s), k, rendered, Inline(s, rendered));
  }

  lemma BecomesUsable(t: Token, k: nat, rendered: seq<seq<byte>>, piece: seq<byte>)
    requires Becomes(t, rendered, piece) && Names(t, k) && Usable(k, rendered)
    ensures piece == rendered[k - 1]
  {
  }

  lemma Alone(s: seq<byte>, z: nat, k: nat, rendered: seq<seq<byte>>)
    requires s == [DOLLAR] + Zeros(z) + NatText(k)
    ensures Becomes(Param(s), rendered, Inline(s, rendered))
  {
    hide First, Becomes;
    assert s == [DOLLAR] + (Zeros(z) + NatText(k));
    OneParam(Zeros(z) + NatText(k));
    var pieces := InlineExact(s, rendered);
    assert pieces == [pieces[0]];
    assert Joined(pieces) == pieces[0] + Joined(pieces[1..]) == pieces[0];
  }

  /** Zero, a number beyond the values, and one that no 64-bit index holds, stay as they are. */
  lemma PlaceholderKept(k: nat, z: nat, rendered: seq<seq<byte>>)
    requires k == 0 || |rendered| < k || INDEX_LIMIT <= k
    ensures var s := [DOLLAR] + Zeros(z) + NatText(k); Inline(s, rendered) == s
  {
    hide First, NatText, Zeros;
    var s := [DOLLAR] + Zeros(z) + NatText(k);
    Alone(s, z, k, rendered);
    forall j: nat | Names(Param(s), j)
      ensures j == k
    {
      NamesDecimal(Param(s), j);
      assert Names(Param(s), k);
      NamesDecimal(Param(s), k);
    }
  }

  /** With eleven values, `$11` is the eleventh. */
  lemma ElevenValues(rendered: seq<seq<byte>>)
    requires |rendered| == 11
    ensures Inline([DOLLAR, 49, 49], rendered) == rendered[10]
  {
    assert NatText(11) == NatText(1) + [49] == [49, 49];
    assert [DOLLAR] + Zeros(0) + NatText(11) == [DOLLAR, 49, 49];
    PlaceholderGetsItsValue(11, 0, rendered);
  }
}
