/** Rendering bound parameters: `render_scalar` and `render_param`. Decoding lossily to
    text and formatting floats are foreign code and come in as functions. */
module PgRender {
  import opened Common
  import opened Bytes
  import opened PgLexer
  import opened PgRescan
  import opened PgArray
  import opened PgLiteral
  import opened Utf8

  // ---- what the standard library supplies ----

  type Utf8Text = s: seq<byte> | IsUtf8(s)

  type FiniteText = s: seq<byte> | NumericText(s) witness [48]

  /** A decoded float: what `to_string` prints for a finite one, or which of the others it is. */
  datatype Float = Finite(text: FiniteText) | NotANumber | PosInfinity | NegInfinity

  /** `String::from_utf8_lossy`, and the two float decodings. */
  datatype Foreign = Foreign(
    lossy: seq<byte> -> Utf8Text,
    float4: seq<byte> -> Float,
    float8: seq<byte> -> Float)

  // ---- integers ----

  function NatText(n: nat): (s: seq<byte>)
    ensures 0 < |s| && AllDigits(s)
  {
    if n < 10 then [48 + n] else NatText(n / 10) + [48 + n % 10]
  }

  /** `to_string` of a signed integer. */
  function IntText(n: int): (s: seq<byte>) {
    if n < 0 then [DASH] + NatText(-n) else NatText(n)
  }

  /** The number that decimal text denotes. */
  function IntValue(s: seq<byte>): (n: int)
    requires 0 < |s| && AllDigits(s[1..]) && (s[0] == DASH || IsDigit(s[0]))
  {
    if s[0] == DASH then 0 - Decimal(s[1..]) as int
    else assert AllDigits(s) by { assert forall i | 1 <= i < |s| :: s[i] == s[1..][i - 1]; } Decimal(s)
  }

  lemma {:induction false} NatTextValue(n: nat)
    ensures Decimal(NatText(n)) == n
    decreases n
  {
    if n < 10 {
      assert NatText(n)[..0] == [];
    } else {
      NatTextValue(n / 10);
      var s := NatText(n);
      assert s[..|s| - 1] == NatText(n / 10);
    }
  }

  /** Decimal text is a plain literal and denotes the integer it was printed from. */
  lemma IntTextExact(n: int)
    ensures Literal(IntText(n)) && IsUtf8(IntText(n))
    ensures var s := IntText(n);
      && AllDigits(s[1..]) && (s[0] == DASH || IsDigit(s[0]))
      && IntValue(s) == n
  {
    var s := IntText(n);
    var m: nat := if n < 0 then 0 - n else n;
    var ds := NatText(m);
    NatTextValue(m);
    if n < 0 {
      assert s[1..] == ds;
    }
    forall i | 0 <= i < |s|
      ensures PlainAt(s, i) && s[i] < 0x80
    {
      assert n < 0 && 0 < i ==> s[i] == ds[i - 1];
      assert n < 0 && i == 0 ==> s[1] == ds[0];
    }
    PlainLiteral(s);
    RunAscii(Start, s);
  }

  // ---- scalars ----

  const OID_BOOL := 16
  const OID_INT8 := 20
  const OID_INT2 := 21
  const OID_INT4 := 23
  const OID_OID := 26
  const OID_FLOAT4 := 700
  const OID_FLOAT8 := 701
  const OID_NUMERIC := 1700

  predicate IsNumericOid(oid: int) {
    oid in {OID_INT2, OID_INT4, OID_INT8, OID_OID, OID_FLOAT4, OID_FLOAT8, OID_NUMERIC}
  }

  /** The OID-like register types, sent as four-byte integers. */
  predicate IsRegisterOid(oid: int) {
    oid in {2202, 2203, 2204, 2205, 2206, 4089, 24, 28, 29, 2200}
  }

  function FloatText(f: Float): seq<byte> {
    match f
    case Finite(text) => text
    case NotANumber => Ascii("'NaN'")
    case PosInfinity => Ascii("'Infinity'")
    case NegInfinity => Ascii("'-Infinity'")
  }

  predicate IsTrueText(s: seq<byte>) {
    || s == Ascii("t") || s == Ascii("true") || s == Ascii("TRUE")
    || s == Ascii("1") || s == Ascii("y") || s == Ascii("yes")
  }

  function BoolText(b: bool): seq<byte> {
    if b then Ascii("TRUE") else Ascii("FALSE")
  }

  function RenderBinary(lib: Foreign, oid: int, b: seq<byte>): (r: Result<seq<byte>, string>) {
    if oid == OID_BOOL then Ok(BoolText(0 < |b| && b[0] != 0))
    else if oid == OID_INT2 && |b| == 2 then Ok(IntText(Signed(b, 0, 2)))
    else if (oid == OID_INT4 || oid == OID_OID) && |b| == 4 then Ok(IntText(Signed(b, 0, 4)))
    else if oid == OID_INT8 && |b| == 8 then Ok(IntText(Signed(b, 0, 8)))
    else if oid == OID_FLOAT4 && |b| == 4 then Ok(FloatText(lib.float4(b)))
    else if oid == OID_FLOAT8 && |b| == 8 then Ok(FloatText(lib.float8(b)))
    else if IsRegisterOid(oid) && |b| == 4 then Ok(IntText(Signed(b, 0, 4)))
    else if 0 in b then
      if |b| == 2 || |b| == 4 || |b| == 8 then Ok(IntText(Signed(b, 0, |b|)))
      else Err("unsupported binary parameter (NUL)")
    else Ok(Quoted(lib.lossy(b)))
  }

  function RenderText(lib: Foreign, oid: int, b: seq<byte>): (r: seq<byte>) {
    var s := lib.lossy(b);
    if oid == OID_BOOL then BoolText(IsTrueText(s))
    else if IsNumericOid(oid) && SafeNumeric(s) then s
    else Quoted(s)
  }

  /** `render_scalar`. */
  function RenderScalar(lib: Foreign, oid: int, fmt: int, cell: Cell): (r: Result<seq<byte>, string>) {
    match cell
    case None => Ok(Ascii("NULL"))
    case Some(b) => if fmt == 1 then RenderBinary(lib, oid, b) else Ok(RenderText(lib, oid, b))
  }

  // ---- arrays ----

  /** Plain ASCII text, nothing the scanner would stop at. */
  predicate IsQuietAscii(s: string) {
    forall i | 0 <= i < |s| :: s[i] as int < 128 && Quiet(s[i] as int)
  }

  function ElemTypeName(oid: int): (r: string)
    ensures IsQuietAscii(r)
  {
    hide Quiet;
    QuietLetters();
    match oid
    case 16 => "bool"
    case 21 => "int2"
    case 23 => "int4"
    case 20 => "int8"
    case 26 => "oid"
    case 700 => "float4"
    case 701 => "float8"
    case 1700 => "numeric"
    case 1042 => "bpchar"
    case 1043 => "varchar"
    case 19 => "name"
    case 18 => "char"
    case _ => "text"
  }

  lemma QuietLetters()
    ensures forall c | 97 <= c <= 122 || 48 <= c <= 57 :: Quiet(c)
  {
  }

  function ArrayElemOid(oid: int): (r: Option<int>) {
    match oid
    case 1000 => Some(OID_BOOL)
    case 1002 => Some(18)
    case 1003 => Some(19)
    case 1005 => Some(OID_INT2)
    case 1007 => Some(OID_INT4)
    case 1009 => Some(25)
    case 1014 => Some(1042)
    case 1015 => Some(1043)
    case 1016 => Some(OID_INT8)
    case 1021 => Some(OID_FLOAT4)
    case 1022 => Some(OID_FLOAT8)
    case 1028 => Some(OID_OID)
    case 1231 => Some(OID_NUMERIC)
    case _ => None
  }

  const COMMA: byte := 44

  /** The elements' literals, in order, each behind a comma; the first failure otherwise. */
  function RenderElems(lib: Foreign, oid: int, cells: seq<Cell>): (r: Result<seq<byte>, string>) {
    if |cells| == 0 then Ok([])
    else
      match RenderElems(lib, oid, cells[..|cells| - 1])
      case Err(e) => Err(e)
      case Ok(init) =>
        match RenderScalar(lib, oid, 1, cells[|cells| - 1])
        case Err(e) => Err(e)
        case Ok(last) => Ok(if |cells| == 1 then last else init + [COMMA] + last)
  }

  function RenderArray(lib: Foreign, elemOid: int, cells: seq<Cell>): (r: Result<seq<byte>, string>) {
    if |cells| == 0 then Ok(Ascii("ARRAY[]::") + Ascii(ElemTypeName(elemOid)) + Ascii("[]"))
    else
      match RenderElems(lib, elemOid, cells)
      case Err(e) => Err(e)
      case Ok(body) => Ok(Ascii("ARRAY[") + body + Ascii("]"))
  }

  /** `render_param`. */
  function RenderParam(lib: Foreign, oid: int, fmt: int, cell: Cell): (r: Result<seq<byte>, string>) {
    match cell
    case None => Ok(Ascii("NULL"))
    case Some(b) =>
      match ArrayElemOid(oid)
      case None => RenderScalar(lib, oid, fmt, Some(b))
      case Some(fallback) =>
        if fmt == 1 then
          match Decode(b)
          case Err(e) => Err(e)
          case Ok((elemOid, cells)) => RenderArray(lib, elemOid, cells)
        else if 0 in b then Err("array text contains NUL")
        else Ok(Quoted(lib.lossy(b)) + Ascii("::") + Ascii(ElemTypeName(fallback)) + Ascii("[]"))
  }

  /** The loop of `render_param` over an array's elements. */
  method RenderElemsLoop(lib: Foreign, oid: int, cells: seq<Cell>) returns (r: Result<seq<byte>, string>)
    ensures r == RenderElems(lib, oid, cells)
  {
    hide RenderScalar;
    var body: seq<byte> := [];
    assert cells[..|cells|] == cells;
    for i := 0 to |cells|
      invariant RenderElems(lib, oid, cells[..i]) == Ok(body)
    {
      assert cells[..i + 1][..i] == cells[..i];
      match RenderScalar(lib, oid, 1, cells[i]) {
        case Err(e) =>
          ElemFailure(lib, oid, cells, i, e);
          return Err(e);
        case Ok(part) =>
          body := if i == 0 then part else body + [COMMA] + part;
      }
    }
    return Ok(body);
  }

  /** Nothing after the first bad element matters. */
  lemma {:induction false} ElemFailure(lib: Foreign, oid: int, cells: seq<Cell>, i: nat, e: string)
    requires i < |cells| && RenderElems(lib, oid, cells[..i]).Ok?
    requires RenderScalar(lib, oid, 1, cells[i]) == Err(e)
    ensures RenderElems(lib, oid, cells) == Err(e)
    decreases |cells|
  {
    hide RenderScalar;
    var init := cells[..|cells| - 1];
    if i < |init| {
      assert init[..i] == cells[..i];
      ElemFailure(lib, oid, init, i, e);
    }
  }

  // ---- every rendered value is a literal ----

  /** Text the scanner passes over from outside every span back to outside every span. */
  ghost predicate Inert(s: seq<byte>) {
    Benign(s) && IsUtf8(s)
  }

  lemma InertConcat(a: seq<byte>, b: seq<byte>)
    requires Inert(a) && Inert(b)
    ensures Inert(a + b)
  {
    BenignConcat(a, b);
    RunConcat(Start, a, b);
  }

  lemma AsciiInert(s: string)
    requires IsQuietAscii(s)
    ensures Inert(Ascii(s))
  {
    var a := Ascii(s);
    forall i | 0 <= i < |a|
      ensures PlainAt(a, i)
    {
    }
    PlainBenign(a);
    if 0 < |a| {
      RunAscii(Start, a);
    }
  }

  lemma {:induction false} DoubledRun(q: Utf8State, s: seq<byte>)
    ensures Run(q, Doubled(s)) == Run(q, s)
    decreases |s|
  {
    if 0 < |s| {
      var d := Doubled(s[1..]);
      DoubledRun(Move(q, s[0]), s[1..]);
      if s[0] == QUOTE {
        RunConcat(q, [QUOTE, QUOTE], d);
        RunAscii(q, [QUOTE, QUOTE]);
        RunAscii(q, [QUOTE]);
        assert [QUOTE][1..] == [];
        assert Run(q, [QUOTE]) == Move(q, QUOTE);
      } else {
        assert ([s[0]] + d)[1..] == d;
      }
    }
  }

  lemma QuotedInert(s: Utf8Text)
    ensures Inert(Quoted(s)) && Literal(Quoted(s))
  {
    hide Benign, Doubled;
    QuotedLiteral(s);
    DoubledRun(Start, s);
    RunAscii(Start, [QUOTE]);
    RunConcat(Start, [QUOTE], Doubled(s));
    RunConcat(Start, [QUOTE] + Doubled(s), [QUOTE]);
  }

  /** A rendered scalar is text the scanner passes over, and can stand at a placeholder. */
  ghost predicate Fit(s: seq<byte>) {
    Inert(s) && Literal(s)
  }

  lemma WordFit(s: string)
    requires IsQuietAscii(s) && 0 < |s|
    ensures Fit(Ascii(s))
  {
    AsciiInert(s);
    assert Ascii(s)[0] == s[0] as int && Quiet(Ascii(s)[0]);
  }

  lemma FloatFit(f: Float)
    ensures Fit(FloatText(f))
  {
    match f
    case Finite(text) =>
      NumericPlain(text);
      PlainLiteral(text);
      NumericAscii(text);
      RunAscii(Start, text);
    case NotANumber => QuotedWord("'NaN'", "NaN");
    case PosInfinity => QuotedWord("'Infinity'", "Infinity");
    case NegInfinity => QuotedWord("'-Infinity'", "-Infinity");
  }

  lemma NumericAscii(s: seq<byte>)
    requires NumericText(s)
    ensures forall i | 0 <= i < |s| :: s[i] < 0x80
  {
  }

  lemma {:induction false} DoubledPlain(s: seq<byte>)
    requires QUOTE !in s
    ensures Doubled(s) == s
    decreases |s|
  {
    if 0 < |s| {
      DoubledPlain(s[1..]);
    }
  }

  lemma QuotedPlain(quoted: string, word: string)
    requires IsAscii(word) && IsAscii(quoted) && quoted == "'" + word + "'" && Doubled(Ascii(word)) == Ascii(word)
    ensures Ascii(quoted) == Quoted(Ascii(word))
  {
  }

  lemma QuotedWord(quoted: string, word: string)
    requires IsAscii(word) && IsAscii(quoted) && '\'' !in word && quoted == "'" + word + "'"
    ensures Fit(Ascii(quoted))
  {
    hide Fit, Quoted, Doubled;
    var w := Ascii(word);
    assert forall i | 0 <= i < |w| :: w[i] == word[i] as int && word[i] in word;
    DoubledPlain(w);
    QuotedPlain(quoted, word);
    if 0 < |w| {
      RunAscii(Start, w);
    }
    QuotedFit(w);
  }

  /** Every value `render_scalar` produces can stand at a placeholder. */
  lemma RenderScalarFit(lib: Foreign, oid: int, fmt: int, cell: Cell)
    requires RenderScalar(lib, oid, fmt, cell).Ok?
    ensures Fit(RenderScalar(lib, oid, fmt, cell).value)
  {
    hide Fit, Ascii, FloatText, IntText, Quoted, SafeNumeric, Signed;
    WordFit("NULL");
    WordFit("TRUE");
    WordFit("FALSE");
    if cell.Some? {
      var b := cell.value;
      FloatFit(lib.float4(b));
      FloatFit(lib.float8(b));
      QuotedFit(lib.lossy(b));
      if SafeNumeric(lib.lossy(b)) {
        SafeNumericFit(lib.lossy(b));
      }
      SignedFit(b);
    }
  }

  lemma QuotedFit(s: Utf8Text)
    ensures Fit(Quoted(s))
  {
    QuotedInert(s);
  }

  lemma SafeNumericFit(s: Utf8Text)
    requires SafeNumeric(s)
    ensures Fit(s)
  {
    SafeNumericLiteral(s);
  }

  lemma SignedFit(b: seq<byte>)
    ensures forall w | 0 < w <= |b| :: Fit(IntText(Signed(b, 0, w)))
  {
    forall w | 0 < w <= |b|
      ensures Fit(IntText(Signed(b, 0, w)))
    {
      IntTextExact(Signed(b, 0, w));
    }
  }

  lemma {:induction false} RenderElemsInert(lib: Foreign, oid: int, cells: seq<Cell>)
    requires RenderElems(lib, oid, cells).Ok?
    ensures Inert(RenderElems(lib, oid, cells).value)
    decreases |cells|
  {
    hide Inert, Literal, RenderScalar, Ascii;
    if |cells| == 0 {
      AsciiInert("");
      EmptyAscii();
    } else {
      RenderElemsInert(lib, oid, cells[..|cells| - 1]);
      RenderScalarFit(lib, oid, 1, cells[|cells| - 1]);
      var init := RenderElems(lib, oid, cells[..|cells| - 1]).value;
      var last := RenderScalar(lib, oid, 1, cells[|cells| - 1]).value;
      AsciiInert(",");
      CommaAscii();
      InertConcat(init, [COMMA]);
      InertConcat(init + [COMMA], last);
    }
  }

  lemma EmptyAscii()
    ensures Ascii("") == []
  {
  }

  lemma CommaAscii()
    ensures Ascii(",") == [COMMA]
  {
  }

  /** Every value `render_param` produces, for any type, format and bytes, is a literal the
      scanner passes over whole, and is UTF-8. */
  lemma RenderParamFit(lib: Foreign, oid: int, fmt: int, cell: Cell)
    requires RenderParam(lib, oid, fmt, cell).Ok?
    ensures Literal(RenderParam(lib, oid, fmt, cell).value)
    ensures IsUtf8(RenderParam(lib, oid, fmt, cell).value)
  {
    hide Ascii, Quoted, Benign, IsUtf8, RenderScalar, Decode, RenderElems, ElemTypeName;
    WordFit("NULL");
    if cell.Some? {
      var b := cell.value;
      if ArrayElemOid(oid).None? {
        RenderScalarFit(lib, oid, fmt, cell);
      } else if fmt == 1 {
        var (elemOid, cells) := Decode(b).value;
        RenderArrayFit(lib, elemOid, cells);
      } else {
        var elem := Ascii(ElemTypeName(ArrayElemOid(oid).value));
        QuotedInert(lib.lossy(b));
        AsciiInert(ElemTypeName(ArrayElemOid(oid).value));
        AsciiInert("::");
        AsciiInert("[]");
        InertConcat(Quoted(lib.lossy(b)), Ascii("::"));
        InertConcat(Quoted(lib.lossy(b)) + Ascii("::"), elem);
        InertConcat(Quoted(lib.lossy(b)) + Ascii("::") + elem, Ascii("[]"));
      }
    }
  }

  lemma RenderArrayFit(lib: Foreign, elemOid: int, cells: seq<Cell>)
    requires RenderArray(lib, elemOid, cells).Ok?
    ensures Fit(RenderArray(lib, elemOid, cells).value)
  {
    hide Benign, IsUtf8, RenderElems, ElemTypeName;
    AsciiInert("[]");
    AsciiInert("]");
    if |cells| == 0 {
      WordFit("ARRAY[]::");
      AsciiInert(ElemTypeName(elemOid));
      InertConcat(Ascii("ARRAY[]::"), Ascii(ElemTypeName(elemOid)));
      InertConcat(Ascii("ARRAY[]::") + Ascii(ElemTypeName(elemOid)), Ascii("[]"));
    } else {
      var body := RenderElems(lib, elemOid, cells).value;
      RenderElemsInert(lib, elemOid, cells);
      WordFit("ARRAY[");
      InertConcat(Ascii("ARRAY["), body);
      InertConcat(Ascii("ARRAY[") + body, Ascii("]"));
    }
  }

  // ---- what the literals mean ----

  /** A binary `oid` is read as a signed integer, so its literal denotes the unsigned OID
      that was sent exactly when that is below 2^31. */
  lemma OidExact(lib: Foreign, b: seq<byte>)
    requires |b| == 4
    ensures var r := RenderScalar(lib, OID_OID, 1, Some(b));
      && r.Ok? && 0 < |r.value| && AllDigits(r.value[1..]) && (r.value[0] == DASH || IsDigit(r.value[0]))
      && (IntValue(r.value) == Unsigned(b, 0, 4) <==> b[0] < 128)
  {
    IntTextExact(Signed(b, 0, 4));
  }
}
