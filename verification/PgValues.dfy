/** What the literal of a bound value denotes to the server that reads it. */
module PgValues {
  import opened Common
  import opened Bytes
  import opened PgLexer
  import opened PgRescan
  import opened PgArray
  import opened PgLiteral
  import opened PgRender

  // ---- reading literals ----

  /** The text is an integer in decimal, and denotes `n`. */
  ghost predicate DenotesInt(s: seq<byte>, n: int) {
    && 0 < |s| && AllDigits(s[1..]) && (s[0] == DASH || IsDigit(s[0]))
    && IntValue(s) == n
  }

  /** The text is a quoted string, and denotes `value`. */
  ghost predicate DenotesText(s: seq<byte>, value: seq<byte>) {
    && 2 <= |s| && s[0] == QUOTE == s[|s| - 1]
    && Undoubled(s[1..|s| - 1]) == value
  }

  lemma QuotedDenotes(value: seq<byte>)
    ensures DenotesText(Quoted(value), value)
  {
    QuotedValue(value);
  }

  // ---- two's complement ----

  /** The integer whose two's complement these bytes are, most significant first. */
  function Twos(b: seq<byte>): int
    requires 0 < |b|
  {
    if |b| == 1 then (if b[0] < 128 then b[0] as int else b[0] as int - 256)
    else Twos(b[..|b| - 1]) * 256 + b[|b| - 1]
  }

  lemma {:induction false} SignedIsTwos(b: seq<byte>, w: nat)
    requires 0 < w <= |b|
    ensures Signed(b, 0, w) == Twos(b[..w])
    decreases w
  {
    if w > 1 {
      SignedIsTwos(b, w - 1);
      assert b[..w][..w - 1] == b[..w - 1];
    } else {
      assert Unsigned(b, 0, 0) == 0 && Pow256(1) == 256 by { assert Pow256(0) == 1; }
    }
  }

  /** `to_be_bytes`: how a client sends an integer of `w` bytes. */
  function BeBytes(n: int, w: nat): (b: seq<byte>)
    ensures |b| == w
    decreases w
  {
    if w == 0 then [] else BeBytes(n / 256, w - 1) + [n % 256]
  }

  /** What a client encodes is what the bytes say, for every integer that fits. */
  lemma {:induction false} TwosBack(n: int, w: nat)
    requires 0 < w && 0 - Pow256(w) as int <= 2 * n < Pow256(w)
    ensures Twos(BeBytes(n, w)) == n
    decreases w
  {
    var b := BeBytes(n, w);
    if w == 1 {
      assert Pow256(1) == 256 by { assert Pow256(0) == 1; }
      assert b == [] + [n % 256];
    } else {
      assert b[..w - 1] == BeBytes(n / 256, w - 1);
      Halves(w - 1);
      Narrower(n, Pow256(w - 1));
      TwosBack(n / 256, w - 1);
    }
  }

  lemma Narrower(n: int, p: nat)
    requires p % 2 == 0 && 0 - 256 * p <= 2 * n < 256 * p
    ensures 0 - p <= 2 * (n / 256) < p
  {
    var half := p / 2;
    assert 0 - 256 * half <= n < 256 * half;
  }

  lemma Halves(w: nat)
    requires 0 < w
    ensures Pow256(w) % 2 == 0
  {
    assert Pow256(w) == 2 * (128 * Pow256(w - 1));
  }

  // ---- scalars ----

  /** The types whose binary values are integers of two, four and eight bytes. */
  predicate IntegerType(oid: int, w: nat) {
    || (oid == 21 && w == 2)
    || (oid in {23, 26, 24, 28, 29, 2200, 2202, 2203, 2204, 2205, 2206, 4089} && w == 4)
    || (oid == 20 && w == 8)
  }

  predicate FloatType(oid: int, w: nat) {
    (oid == 700 && w == 4) || (oid == 701 && w == 8)
  }

  ghost predicate DenotesFloat(s: seq<byte>, f: Float) {
    match f
    case Finite(text) => s == text
    case NotANumber => DenotesText(s, Ascii("NaN"))
    case PosInfinity => DenotesText(s, Ascii("Infinity"))
    case NegInfinity => DenotesText(s, Ascii("-Infinity"))
  }

  /** What a binary value's literal denotes, for every type and any bytes: a truth value by the
      first byte, an integer in two's complement, a float, else the bytes as text. Where there
      is a NUL the bytes cannot be text: they are read as an integer if their number allows it,
      and refused otherwise. */
  lemma BinaryExact(lib: Foreign, oid: int, b: seq<byte>)
    ensures var r := RenderScalar(lib, oid, 1, Some(b));
      if oid == 16 then r == Ok(if 0 < |b| && b[0] != 0 then Ascii("TRUE") else Ascii("FALSE"))
      else if IntegerType(oid, |b|) then r.Ok? && DenotesInt(r.value, Twos(b))
      else if oid == 700 && |b| == 4 then r.Ok? && DenotesFloat(r.value, lib.float4(b))
      else if oid == 701 && |b| == 8 then r.Ok? && DenotesFloat(r.value, lib.float8(b))
      else if 0 !in b then r.Ok? && DenotesText(r.value, lib.lossy(b))
      else if |b| in {2, 4, 8} then r.Ok? && DenotesInt(r.value, Twos(b))
      else r.Err?
  {
    hide Signed, Twos, Ascii, Undoubled, Quoted, FloatText, DenotesFloat;
    FloatDenotes(lib.float4(b));
    FloatDenotes(lib.float8(b));
    QuotedDenotes(lib.lossy(b));
    if |b| > 0 {
      SignedIsTwos(b, |b|);
      assert b[..|b|] == b;
      IntTextExact(Twos(b));
    }
  }

  lemma FloatDenotes(f: Float)
    ensures DenotesFloat(FloatText(f), f)
  {
    hide DenotesText;
    WordDenotes("'NaN'", "NaN");
    WordDenotes("'Infinity'", "Infinity");
    WordDenotes("'-Infinity'", "-Infinity");
  }

  lemma WordDenotes(quoted: string, word: string)
    requires IsAscii(word) && IsAscii(quoted) && '\'' !in word && quoted == "'" + word + "'"
    ensures DenotesText(Ascii(quoted), Ascii(word))
  {
    var w := Ascii(word);
    assert forall i | 0 <= i < |w| :: w[i] == word[i] as int && word[i] in word;
    DoubledPlain(w);
    QuotedPlain(quoted, word);
    QuotedDenotes(w);
  }

  /** So an integer that a client sends in binary, of the width of its type, is the integer the
      server reads. */
  lemma IntegerArrives(lib: Foreign, oid: int, n: int, w: nat)
    requires IntegerType(oid, w) && 0 - Pow256(w) as int <= 2 * n < Pow256(w)
    ensures var r := RenderScalar(lib, oid, 1, Some(BeBytes(n, w))); r.Ok? && DenotesInt(r.value, n)
  {
    hide Twos, BeBytes, RenderScalar, IntValue, Pow256;
    BinaryExact(lib, oid, BeBytes(n, w));
    TwosBack(n, w);
  }

  /** What a text value's literal denotes: the six words are true and all else false; for a number
      type, text that reads as a number stands as it was sent, white space included; everything
      else is text. */
  lemma TextExact(lib: Foreign, oid: int, fmt: int, b: seq<byte>)
    requires fmt != 1
    ensures var r := RenderScalar(lib, oid, fmt, Some(b)); var s := lib.lossy(b);
      && r.Ok?
      && (oid == 16 ==>
            if s in {[116], [116, 114, 117, 101], [84, 82, 85, 69], [49], [121], [121, 101, 115]}
            then r.value == Ascii("TRUE") else r.value == Ascii("FALSE"))
      && (oid in {20, 21, 23, 26, 700, 701, 1700} && SafeNumeric(s) ==> r.value == s)
      && (oid != 16 && !(oid in {20, 21, 23, 26, 700, 701, 1700} && SafeNumeric(s)) ==> DenotesText(r.value, s))
  {
    hide SafeNumeric, Undoubled, Quoted, Ascii;
    QuotedDenotes(lib.lossy(b));
    TrueWords();
  }

  lemma TrueWords()
    ensures Ascii("t") == [116] && Ascii("true") == [116, 114, 117, 101] && Ascii("TRUE") == [84, 82, 85, 69]
    ensures Ascii("1") == [49] && Ascii("y") == [121] && Ascii("yes") == [121, 101, 115]
  {
  }

  /** Text of a number type that stands as it was sent is a number literal, unless it is one of
      the four words, which the server reads as names. */
  lemma BareWordExact(s: seq<byte>)
    requires SafeNumeric(s)
    ensures (exists a, b, c, d :: IsNumber(Trim(s), a, b, c, d)) <==> !IsNumericWord(Trim(s))
  {
    hide IsNumber, Trim;
    NumericTextIsGrammar(Trim(s));
    WordsNoNumbers();
  }

  lemma WordsNoNumbers()
    ensures forall s | IsNumericWord(s) :: !NumericText(s)
  {
  }

  /** A NaN bound in binary is quoted, and bound as text it is a bare word. */
  lemma NotANumberBothWays(lib: Foreign, b: seq<byte>)
    requires |b| == 8 && lib.float8(b) == NotANumber && lib.lossy(Ascii("NaN")) == Ascii("NaN")
    ensures RenderScalar(lib, 701, 1, Some(b)) == Ok(Ascii("'NaN'"))
    ensures RenderScalar(lib, 701, 0, Some(Ascii("NaN"))) == Ok(Ascii("NaN"))
  {
  }

  // ---- arrays ----

  /** The parts with a comma between any two. */
  function Commas(parts: seq<seq<byte>>): seq<byte> {
    if |parts| == 0 then []
    else if |parts| == 1 then parts[0]
    else parts[0] + [44] + Commas(parts[1..])
  }

  /** The parts are the literals of the cells, each at its place. */
  ghost predicate CellLiterals(lib: Foreign, oid: int, cells: seq<Cell>, parts: seq<seq<byte>>) {
    |parts| == |cells| && forall i | 0 <= i < |cells| :: RenderScalar(lib, oid, 1, cells[i]) == Ok(parts[i])
  }

  lemma {:induction false} CommasLast(parts: seq<seq<byte>>, last: seq<byte>)
    requires |parts| > 0
    ensures Commas(parts + [last]) == Commas(parts) + [44] + last
    decreases |parts|
  {
    var all := parts + [last];
    assert all[1..] == parts[1..] + [last];
    if |parts| > 1 {
      CommasLast(parts[1..], last);
      ConcatAssoc(parts[0] + [44], Commas(parts[1..]) + [44], last);
      ConcatAssoc(parts[0] + [44], Commas(parts[1..]), [44]);
    } else {
      assert Commas([last]) == last;
    }
  }

  /** The elements come out in order with commas between, exactly if every one has a literal. */
  lemma {:induction false} ElementsExact(lib: Foreign, oid: int, cells: seq<Cell>) returns (parts: seq<seq<byte>>)
    ensures RenderElems(lib, oid, cells).Ok? <==> forall i | 0 <= i < |cells| :: RenderScalar(lib, oid, 1, cells[i]).Ok?
    ensures RenderElems(lib, oid, cells).Ok? ==>
      CellLiterals(lib, oid, cells, parts) && RenderElems(lib, oid, cells).value == Commas(parts)
    decreases |cells|
  {
    hide RenderScalar;
    parts := [];
    if |cells| > 0 {
      var init, last := cells[..|cells| - 1], cells[|cells| - 1];
      parts := ElementsExact(lib, oid, init);
      assert forall i | 0 <= i < |init| :: init[i] == cells[i];
      if RenderElems(lib, oid, init).Ok? && RenderScalar(lib, oid, 1, last).Ok? {
        var part := RenderScalar(lib, oid, 1, last).value;
        if |init| > 0 {
          CommasLast(parts, part);
        }
        parts := parts + [part];
      }
    }
  }

  // ---- and how they are read back ----

  /** Nothing but closed quoted text and bytes that are no comma. `q` says whether a quote is
      open. */
  predicate OneField(s: seq<byte>, q: bool) {
    if |s| == 0 then !q
    else if s[0] == QUOTE then OneField(s[1..], !q)
    else (q || s[0] != 44) && OneField(s[1..], q)
  }

  /** What stands between the commas outside quotes; `field` is the field read so far. */
  function Fields(s: seq<byte>, q: bool, field: seq<byte>): seq<seq<byte>>
    decreases |s|
  {
    if |s| == 0 then [field]
    else if s[0] == QUOTE then Fields(s[1..], !q, field + [s[0]])
    else if s[0] == 44 && !q then [field] + Fields(s[1..], false, [])
    else Fields(s[1..], q, field + [s[0]])
  }

  lemma {:induction false} FieldsPast(s: seq<byte>, q: bool, rest: seq<byte>, field: seq<byte>)
    requires OneField(s, q)
    ensures Fields(s + rest, q, field) == Fields(rest, false, field + s)
    decreases |s|
  {
    if |s| == 0 {
      assert s + rest == rest && field + s == field;
    } else {
      FieldsPast(s[1..], if s[0] == QUOTE then !q else q, rest, field + [s[0]]);
      assert (s + rest)[1..] == s[1..] + rest;
      assert field + [s[0]] + s[1..] == field + s;
    }
  }

  /** Splitting at the commas outside quotes gives the parts back. */
  lemma {:induction false} FieldsOfCommas(parts: seq<seq<byte>>)
    requires |parts| > 0 && forall i | 0 <= i < |parts| :: OneField(parts[i], false)
    ensures Fields(Commas(parts), false, []) == parts
    decreases |parts|
  {
    var first, rest := parts[0], parts[1..];
    if |parts| == 1 {
      FieldsPast(first, false, [], []);
      assert first + [] == first && [] + first == first;
    } else {
      var tail := [44] + Commas(rest);
      FieldsOfCommas(rest);
      FieldsPast(first, false, tail, []);
      assert Commas(parts) == first + tail && [] + first == first;
      assert tail[1..] == Commas(rest);
      assert parts == [first] + rest;
    }
  }

  lemma {:induction false} DoubledField(s: seq<byte>, rest: seq<byte>)
    ensures OneField(Doubled(s) + rest, true) == OneField(rest, true)
    decreases |s|
  {
    var d := Doubled(s);
    if |s| == 0 {
      assert d + rest == rest;
    } else {
      var more := Doubled(s[1..]) + rest;
      DoubledField(s[1..], rest);
      if s[0] == QUOTE {
        assert (d + rest)[1..] == [QUOTE] + more && ([QUOTE] + more)[1..] == more;
      } else {
        assert (d + rest)[1..] == more;
      }
    }
  }

  lemma QuotedField(s: seq<byte>)
    ensures OneField(Quoted(s), false)
  {
    var tail := Doubled(s) + [QUOTE];
    assert Quoted(s)[1..] == tail;
    DoubledField(s, [QUOTE]);
    assert [QUOTE][1..] == [];
  }

  lemma {:induction false} PlainField(s: seq<byte>)
    requires forall i | 0 <= i < |s| :: s[i] != QUOTE && s[i] != 44
    ensures OneField(s, false)
    decreases |s|
  {
    if |s| > 0 {
      PlainField(s[1..]);
    }
  }

  lemma ScalarField(lib: Foreign, oid: int, cell: Cell)
    requires RenderScalar(lib, oid, 1, cell).Ok?
    ensures OneField(RenderScalar(lib, oid, 1, cell).value, false)
  {
    hide OneField, Ascii, FloatText, IntText, Quoted, Signed;
    WordField("NULL");
    WordField("TRUE");
    WordField("FALSE");
    if cell.Some? {
      var b := cell.value;
      FloatField(lib.float4(b));
      FloatField(lib.float8(b));
      QuotedField(lib.lossy(b));
      forall n: int
        ensures OneField(IntText(n), false)
      {
        IntField(n);
      }
    }
  }

  lemma IntField(n: int)
    ensures OneField(IntText(n), false)
  {
    IntTextExact(n);
    var s := IntText(n);
    assert forall i | 1 <= i < |s| :: s[i] == s[1..][i - 1];
    PlainField(s);
  }

  lemma WordField(s: string)
    requires IsQuietAscii(s) && ',' !in s
    ensures OneField(Ascii(s), false)
  {
    var a := Ascii(s);
    assert forall i | 0 <= i < |a| :: a[i] == s[i] as int && Quiet(a[i]) && s[i] in s;
    PlainField(a);
  }

  lemma FloatField(f: Float)
    ensures OneField(FloatText(f), false)
  {
    hide OneField, NumericText;
    match f
    case Finite(text) =>
      NumberBytes(text);
      PlainField(text);
    case NotANumber => QuotedWordField("'NaN'", "NaN");
    case PosInfinity => QuotedWordField("'Infinity'", "Infinity");
    case NegInfinity => QuotedWordField("'-Infinity'", "-Infinity");
  }

  lemma NumberBytes(s: seq<byte>)
    requires NumericText(s)
    ensures forall i | 0 <= i < |s| :: s[i] != QUOTE && s[i] != 44
  {
  }

  lemma QuotedWordField(quoted: string, word: string)
    requires IsAscii(word) && IsAscii(quoted) && '\'' !in word && quoted == "'" + word + "'"
    ensures OneField(Ascii(quoted), false)
  {
    hide OneField;
    var w := Ascii(word);
    assert forall i | 0 <= i < |w| :: w[i] == word[i] as int && word[i] in word;
    DoubledPlain(w);
    QuotedPlain(quoted, word);
    QuotedField(w);
  }

  // ---- whole parameters ----

  /** The array types, the types of their elements, and the names of these. */
  const ARRAYS: seq<(int, int, string)> :=
    [(1000, 16, "bool"), (1002, 18, "char"), (1003, 19, "name"), (1005, 21, "int2"), (1007, 23, "int4"),
     (1009, 25, "text"), (1014, 1042, "bpchar"), (1015, 1043, "varchar"), (1016, 20, "int8"), (1021, 700, "float4"),
     (1022, 701, "float8"), (1028, 26, "oid"), (1231, 1700, "numeric")]

  predicate IsArray(oid: int) {
    exists i | 0 <= i < |ARRAYS| :: ARRAYS[i].0 == oid
  }

  /** A NULL is NULL, whatever its type; a value whose type is no array type is its scalar. */
  lemma ScalarParam(lib: Foreign, oid: int, fmt: int, cell: Cell)
    ensures cell.None? ==> RenderParam(lib, oid, fmt, cell) == Ok(Ascii("NULL"))
    ensures !IsArray(oid) ==> RenderParam(lib, oid, fmt, cell) == RenderScalar(lib, oid, fmt, cell)
  {
    assert ARRAYS[0].0 == 1000 && ARRAYS[1].0 == 1002 && ARRAYS[2].0 == 1003 && ARRAYS[3].0 == 1005 && ARRAYS[4].0 == 1007;
    assert ARRAYS[5].0 == 1009 && ARRAYS[6].0 == 1014 && ARRAYS[7].0 == 1015 && ARRAYS[8].0 == 1016 && ARRAYS[9].0 == 1021;
    assert ARRAYS[10].0 == 1022 && ARRAYS[11].0 == 1028 && ARRAYS[12].0 == 1231;
  }

  /** A quoted text, cast to the array type of the named element type. */
  ghost predicate CastText(s: seq<byte>, text: seq<byte>, name: string) {
    IsAscii(name) && exists literal :: DenotesText(literal, text) && s == literal + Ascii("::") + Ascii(name) + Ascii("[]")
  }

  /** Between the brackets, the comma-separated literals of the cells. */
  ghost predicate Constructs(lib: Foreign, oid: int, cells: seq<Cell>, s: seq<byte>) {
    exists body :: s == Ascii("ARRAY[") + body + Ascii("]") && CellLiterals(lib, oid, cells, Fields(body, false, []))
  }

  /** An array sent as text is that text, cast to the array type of its elements; with a NUL in it,
      it is refused. */
  lemma TextArrayExact(lib: Foreign, i: nat, fmt: int, b: seq<byte>)
    requires i < |ARRAYS| && fmt != 1
    ensures var r := RenderParam(lib, ARRAYS[i].0, fmt, Some(b));
      && (r.Ok? <==> 0 !in b)
      && (r.Ok? ==> CastText(r.value, lib.lossy(b), ARRAYS[i].2))
  {
    hide Ascii, Quoted, DenotesText, ArrayElemOid, ElemTypeName, IsAscii, ARRAYS;
    QuotedDenotes(lib.lossy(b));
    ArrayNames(i);
  }

  lemma ArrayNames(i: nat)
    requires i < |ARRAYS|
    ensures ArrayElemOid(ARRAYS[i].0).Some? && ElemTypeName(ArrayElemOid(ARRAYS[i].0).value) == ARRAYS[i].2
    ensures IsAscii(ARRAYS[i].2)
  {
  }

  /** An array sent in binary is the literals of its elements, in order: a reader that splits what
      is between the brackets at the commas outside quotes gets them back. An empty one is cast
      to the array type of the element type sent. It is refused exactly when it does not decode
      or some element has no literal. */
  lemma BinaryArrayExact(lib: Foreign, oid: int, b: seq<byte>)
    requires IsArray(oid)
    ensures var r := RenderParam(lib, oid, 1, Some(b));
      && (r.Ok? <==> Decode(b).Ok? && forall i | 0 <= i < |Decode(b).value.1| ::
            RenderScalar(lib, Decode(b).value.0, 1, Decode(b).value.1[i]).Ok?)
      && (r.Ok? ==> var (elemOid, cells) := Decode(b).value;
            if |cells| == 0 then r.value == Ascii("ARRAY[]::") + Ascii(ElemTypeName(elemOid)) + Ascii("[]")
            else Constructs(lib, elemOid, cells, r.value))
  {
    hide Ascii, RenderScalar, Decode, ElemTypeName, RenderElems, Fields;
    ArrayTypes(oid);
    if Decode(b).Ok? {
      var (elemOid, cells) := Decode(b).value;
      var parts := ElementsExact(lib, elemOid, cells);
      if |cells| > 0 && RenderElems(lib, elemOid, cells).Ok? {
        forall i | 0 <= i < |parts|
          ensures OneField(parts[i], false)
        {
          ScalarField(lib, elemOid, cells[i]);
        }
        FieldsOfCommas(parts);
      }
    }
  }

  lemma ArrayTypes(oid: int)
    ensures IsArray(oid) <==> ArrayElemOid(oid).Some?
  {
    assert ARRAYS[0].0 == 1000 && ARRAYS[1].0 == 1002 && ARRAYS[2].0 == 1003 && ARRAYS[3].0 == 1005 && ARRAYS[4].0 == 1007;
    assert ARRAYS[5].0 == 1009 && ARRAYS[6].0 == 1014 && ARRAYS[7].0 == 1015 && ARRAYS[8].0 == 1016 && ARRAYS[9].0 == 1021;
    assert ARRAYS[10].0 == 1022 && ARRAYS[11].0 == 1028 && ARRAYS[12].0 == 1231;
  }

  /** The names of the element types; a type that is not listed is called text. */
  lemma ElementNames(oid: int)
    ensures forall i | 0 <= i < |ARRAYS| && ARRAYS[i].1 == oid :: ElemTypeName(oid) == ARRAYS[i].2
    ensures (forall i | 0 <= i < |ARRAYS| :: ARRAYS[i].1 != oid) ==> ElemTypeName(oid) == "text"
  {
    assert ARRAYS[0].1 == 16 && ARRAYS[1].1 == 18 && ARRAYS[2].1 == 19 && ARRAYS[3].1 == 21 && ARRAYS[4].1 == 23;
    assert ARRAYS[5].1 == 25 && ARRAYS[6].1 == 1042 && ARRAYS[7].1 == 1043 && ARRAYS[8].1 == 20 && ARRAYS[9].1 == 700;
    assert ARRAYS[10].1 == 701 && ARRAYS[11].1 == 26 && ARRAYS[12].1 == 1700;
  }

  /** So what a client encodes arrives: the server reads the elements' literals in order. */
  lemma ArrayArrives(lib: Foreign, oid: int, flags: Int32, elemOid: Int32, dims: seq<Dim>, items: seq<Item>, tail: seq<byte>)
    requires IsArray(oid) && |dims| <= 6 && Small(dims)
    requires 0 < |items| && 0 < |dims| && |items| == Product(dims)
    requires forall i | 0 <= i < |Cells(items)| :: RenderScalar(lib, elemOid, 1, Cells(items)[i]).Ok?
    ensures var r := RenderParam(lib, oid, 1, Some(Encode(flags, elemOid, dims, items) + tail));
      r.Ok? && Constructs(lib, elemOid, Cells(items), r.value)
  {
    hide Ascii, RenderScalar, RenderParam, Decode, Encode, Fields, Small, Product, ElemTypeName, IsArray;
    DecodeEncode(flags, elemOid, dims, items, tail);
    BinaryArrayExact(lib, oid, Encode(flags, elemOid, dims, items) + tail);
  }
}
