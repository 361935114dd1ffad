/** Binary array parameters: `decode_bin_array`, against the wire grammar it reads. */
module PgArray {
  import opened Common
  import opened Bytes

  const MAX_ELEMENTS := 10_000_000

  type Cell = Option<seq<byte>>

  /** Element type OID and the elements, in row-major order. */
  type Decoded = Result<(Int32, seq<Cell>), string>

  // ---- the decoder ----

  /** The offset behind `n` dimension headers and the element count they multiply to. */
  function DecodeDims(b: seq<byte>, pos: nat, n: nat, total: nat): (r: Result<(nat, nat), string>)
    decreases n
  {
    if n == 0 then Ok((pos, total))
    else if pos + 8 > |b| then Err("bad binary array dims")
    else
      var dim := if I32(b, pos) < 0 then 0 else I32(b, pos);
      if total * dim > MAX_ELEMENTS then Err("binary array too large")
      else DecodeDims(b, pos + 8, n - 1, total * dim)
  }

  function DecodeElems(b: seq<byte>, pos: nat, n: nat): (r: Result<seq<Cell>, string>)
    decreases n
  {
    if n == 0 then Ok([])
    else if pos + 4 > |b| then Err("bad binary array elem len")
    else
      var len := I32(b, pos);
      if len >= 0 && pos + 4 + len > |b| then Err("bad binary array elem")
      else
        var cell := if len < 0 then None else Some(b[pos + 4..pos + 4 + len]);
        var next := if len < 0 then pos + 4 else pos + 4 + len;
        match DecodeElems(b, next, n - 1)
        case Err(e) => Err(e)
        case Ok(cells) => Ok([cell] + cells)
  }

  function Decode(b: seq<byte>): (r: Decoded) {
    if |b| < 12 then Err("bad binary array")
    else if I32(b, 0) == 0 then Ok((I32(b, 8), []))
    else if !(1 <= I32(b, 0) <= 6) then Err("bad binary array ndim")
    else
      match DecodeDims(b, 12, I32(b, 0), 1)
      case Err(e) => Err(e)
      case Ok((pos, total)) =>
        match DecodeElems(b, pos, total)
        case Err(e) => Err(e)
        case Ok(cells) => Ok((I32(b, 8), cells))
  }

  /** `decode_bin_array`: every read is inside `b`, whatever `b` holds. */
  method DecodeBinArray(b: seq<byte>) returns (r: Decoded)
    ensures r == Decode(b)
  {
    hide I32, DecodeDims, DecodeElems;
    if |b| < 12 {
      return Err("bad binary array");
    }
    var ndim, elemOid := I32(b, 0), I32(b, 8);
    if ndim == 0 {
      return Ok((elemOid, []));
    }
    if !(1 <= ndim <= 6) {
      return Err("bad binary array ndim");
    }
    var dims := ReadDimensions(b, 12, ndim);
    if dims.Err? {
      return Err(dims.error);
    }
    var elems := ReadElements(b, dims.value.0, dims.value.1);
    if elems.Err? {
      return Err(elems.error);
    }
    return Ok((elemOid, elems.value));
  }

  /** The first loop: the running product stays far inside an `i64`. */
  method ReadDimensions(b: seq<byte>, start: nat, ndim: nat) returns (r: Result<(nat, nat), string>)
    ensures r == DecodeDims(b, start, ndim, 1)
  {
    hide I32, DecodeDims;
    var pos: nat, total: nat := start, 1;
    for k := 0 to ndim
      invariant 0 <= total <= MAX_ELEMENTS
      invariant DecodeDims(b, start, ndim, 1) == DecodeDims(b, pos, ndim - k, total)
    {
      DimsStep(b, pos, ndim - k, total);
      if pos + 8 > |b| {
        return Err("bad binary array dims");
      }
      var dim := if I32(b, pos) < 0 then 0 else I32(b, pos);
      ProductFits(total, dim);
      var product := total * dim;
      assert product < 0x8000_0000_0000_0000;
      if product > MAX_ELEMENTS {
        return Err("binary array too large");
      }
      total := product;
      pos := pos + 8;
    }
    NoDims(b, pos, total);
    return Ok((pos, total));
  }

  lemma ProductFits(total: nat, dim: Int32)
    requires total <= MAX_ELEMENTS && 0 <= dim
    ensures 0 <= total * dim < 0x8000_0000_0000_0000
  {
    assert total * dim <= MAX_ELEMENTS * dim;
  }

  lemma DimsStep(b: seq<byte>, pos: nat, n: nat, total: nat)
    requires 0 < n
    ensures DecodeDims(b, pos, n, total) ==
      if pos + 8 > |b| then Err("bad binary array dims")
      else
        var dim := if I32(b, pos) < 0 then 0 else I32(b, pos);
        if total * dim > MAX_ELEMENTS then Err("binary array too large")
        else DecodeDims(b, pos + 8, n - 1, total * dim)
  {
    hide I32;
  }

  lemma NoDims(b: seq<byte>, pos: nat, total: nat)
    ensures DecodeDims(b, pos, 0, total) == Ok((pos, total))
  {
  }

  /** The second loop. */
  method ReadElements(b: seq<byte>, start: nat, total: nat) returns (r: Result<seq<Cell>, string>)
    ensures r == DecodeElems(b, start, total)
  {
    hide I32, Prepend;
    var pos: nat := start;
    var out: seq<Cell> := [];
    PrependNothing(DecodeElems(b, start, total));
    for k := 0 to total
      invariant |out| == k
      invariant DecodeElems(b, start, total) == Prepend(out, DecodeElems(b, pos, total - k))
    {
      PrependElem(out, b, pos, total - k);
      if pos + 4 > |b| {
        return Err("bad binary array elem len");
      }
      var len := I32(b, pos);
      pos := pos + 4;
      if len < 0 {
        out := out + [None];
      } else {
        if pos + len > |b| {
          return Err("bad binary array elem");
        }
        out := out + [Some(b[pos..pos + len])];
        pos := pos + len;
      }
    }
    PrependOk(out, []);
    assert out + [] == out;
    return Ok(out);
  }

  /** What one turn of the loop does to the outcome still to come. */
  lemma PrependElem(out: seq<Cell>, b: seq<byte>, pos: nat, n: nat)
    requires 0 < n
    ensures var r := Prepend(out, DecodeElems(b, pos, n));
      if pos + 4 > |b| then r == Err("bad binary array elem len")
      else var len := I32(b, pos);
        if len < 0 then r == Prepend(out + [None], DecodeElems(b, pos + 4, n - 1))
        else if pos + 4 + len > |b| then r == Err("bad binary array elem")
        else r == Prepend(out + [Some(b[pos + 4..pos + 4 + len])], DecodeElems(b, pos + 4 + len, n - 1))
  {
    hide I32;
    if pos + 4 <= |b| && I32(b, pos) < 0 {
      PrependStep(out, None, DecodeElems(b, pos + 4, n - 1));
    } else if pos + 4 <= |b| && pos + 4 + I32(b, pos) <= |b| {
      var next := pos + 4 + I32(b, pos);
      PrependStep(out, Some(b[pos + 4..next]), DecodeElems(b, next, n - 1));
    }
  }

  lemma PrependOk(out: seq<Cell>, cells: seq<Cell>)
    ensures Prepend(out, Ok(cells)) == Ok(out + cells)
  {
  }

  function Prepend(out: seq<Cell>, r: Result<seq<Cell>, string>): Result<seq<Cell>, string> {
    match r
    case Ok(cells) => Ok(out + cells)
    case Err(e) => Err(e)
  }

  lemma PrependNothing(r: Result<seq<Cell>, string>)
    ensures Prepend([], r) == r
  {
    if r.Ok? {
      assert [] + r.value == r.value;
    }
  }

  lemma PrependStep(out: seq<Cell>, c: Cell, r: Result<seq<Cell>, string>)
    ensures Prepend(out, Prepend([c], r)) == Prepend(out + [c], r)
  {
    if r.Ok? {
      assert out + ([c] + r.value) == out + [c] + r.value;
    }
  }

  // ---- the wire grammar ----

  type NegLen = n: Int32 | n < 0 witness -1

  type Payload = b: seq<byte> | |b| < 0x8000_0000

  /** A dimension header as sent: its size and its lower bound. */
  datatype Dim = Dim(size: Int32, lower: Int32)

  /** An element as sent: any negative length means NULL. */
  datatype Item = Null(len: NegLen) | Value(bytes: Payload)

  /** The number of elements the headers announce; a negative size counts as none. */
  ghost function Product(dims: seq<Dim>): (n: nat) {
    if |dims| == 0 then 1
    else Product(dims[..|dims| - 1]) * (if dims[|dims| - 1].size < 0 then 0 else dims[|dims| - 1].size)
  }

  /** The decoder checks the product after each header, not only at the end. */
  ghost predicate Small(dims: seq<Dim>) {
    forall k | 0 <= k <= |dims| :: Product(dims[..k]) <= 10_000_000
  }

  ghost function DimBytes(dims: seq<Dim>): (b: seq<byte>)
    ensures |b| == 8 * |dims|
  {
    if |dims| == 0 then []
    else DimBytes(dims[..|dims| - 1]) + (I32Bytes(dims[|dims| - 1].size) + I32Bytes(dims[|dims| - 1].lower))
  }

  ghost function ItemBytes(x: Item): (b: seq<byte>)
  {
    match x
    case Null(len) => I32Bytes(len)
    case Value(bytes) => I32Bytes(|bytes|) + bytes
  }

  ghost function ItemsBytes(items: seq<Item>): (b: seq<byte>)
  {
    if |items| == 0 then [] else ItemBytes(items[0]) + ItemsBytes(items[1..])
  }

  ghost function Cells(items: seq<Item>): (r: seq<Cell>)
    ensures |r| == |items|
  {
    seq(|items|, i requires 0 <= i < |items| => if items[i].Null? then None else Some(items[i].bytes))
  }

  lemma NoCells()
    ensures Cells([]) == []
  {
  }

  lemma CellsCons(x: Item, xs: seq<Item>)
    ensures Cells([x] + xs) == [if x.Null? then None else Some(x.bytes)] + Cells(xs)
  {
  }

  ghost function Encode(flags: Int32, oid: Int32, dims: seq<Dim>, items: seq<Item>): (b: seq<byte>)
    requires |dims| <= 6
  {
    I32Bytes(|dims|) + I32Bytes(flags) + I32Bytes(oid) + DimBytes(dims) + ItemsBytes(items)
  }

  // ---- encode, then decode ----

  lemma DecodeItem(x: Item, b: seq<byte>, pos: nat)
    requires At(b, pos, ItemBytes(x))
    ensures pos + 4 <= |b| && I32(b, pos) == if x.Null? then x.len else |x.bytes|
    ensures pos + |ItemBytes(x)| <= |b| && |ItemBytes(x)| == if x.Null? then 4 else 4 + |x.bytes|
    ensures x.Value? ==> b[pos + 4..pos + 4 + |x.bytes|] == x.bytes
  {
    hide I32, I32Bytes;
    if x.Value? {
      AtConcat(b, pos, I32Bytes(|x.bytes|), x.bytes);
    }
    I32RoundTrip(if x.Null? then x.len else |x.bytes|, b, pos);
  }

  lemma {:induction false} DecodeItems(items: seq<Item>, b: seq<byte>, pos: nat)
    requires At(b, pos, ItemsBytes(items))
    ensures DecodeElems(b, pos, |items|) == Ok(Cells(items))
    decreases |items|
  {
    hide I32, I32Bytes, Cells, At, ItemBytes;
    if |items| == 0 {
      NoCells();
    } else {
      var x, xs := items[0], items[1..];
      AtConcat(b, pos, ItemBytes(x), ItemsBytes(xs));
      DecodeItems(xs, b, pos + |ItemBytes(x)|);
      DecodeItem(x, b, pos);
      CellsCons(x, xs);
      assert items == [x] + xs;
    }
  }

  /** The decoder's header reads, once `dims` is what the headers hold. */
  lemma {:induction false} DecodeHeaders(dims: seq<Dim>, b: seq<byte>, k: nat)
    requires k <= |dims| && 12 + 8 * |dims| <= |b|
    requires forall i | 0 <= i < |dims| :: I32(b, 12 + 8 * i) == dims[i].size
    requires Small(dims)
    ensures DecodeDims(b, 12 + 8 * k, |dims| - k, Product(dims[..k]))
         == Ok((12 + 8 * |dims|, Product(dims)))
    decreases |dims| - k
  {
    hide I32, I32Bytes;
    if k == |dims| {
      assert dims[..k] == dims;
    } else {
      var more := dims[..k + 1];
      assert more[..k] == dims[..k] && more[k] == dims[k];
      assert Product(more) <= MAX_ELEMENTS;
      DecodeHeaders(dims, b, k + 1);
    }
  }

  lemma {:induction false} DimsAt(dims: seq<Dim>, b: seq<byte>, i: nat)
    requires At(b, 12, DimBytes(dims)) && i < |dims|
    ensures 12 + 8 * |dims| <= |b| && I32(b, 12 + 8 * i) == dims[i].size
    decreases |dims|
  {
    hide I32, I32Bytes;
    var init, last := dims[..|dims| - 1], dims[|dims| - 1];
    AtConcat(b, 12, DimBytes(init), I32Bytes(last.size) + I32Bytes(last.lower));
    if i < |init| {
      DimsAt(init, b, i);
    } else {
      AtConcat(b, 12 + 8 * i, I32Bytes(last.size), I32Bytes(last.lower));
      I32RoundTrip(last.size, b, 12 + 8 * i);
    }
  }

  /** The pieces of an encoded array, each where the decoder looks for it. */
  lemma EncodeAt(flags: Int32, oid: Int32, dims: seq<Dim>, items: seq<Item>, b: seq<byte>)
    requires |dims| <= 6
    ensures At(b, 0, Encode(flags, oid, dims, items)) <==>
      && At(b, 0, I32Bytes(|dims|)) && At(b, 4, I32Bytes(flags)) && At(b, 8, I32Bytes(oid))
      && At(b, 12, DimBytes(dims)) && At(b, 12 + 8 * |dims|, ItemsBytes(items))
  {
    hide I32Bytes, DimBytes, ItemsBytes, At;
    var h0, h1, h2 := I32Bytes(|dims|), I32Bytes(flags), I32Bytes(oid);
    AtConcat(b, 0, h0 + h1 + h2 + DimBytes(dims), ItemsBytes(items));
    AtConcat(b, 0, h0 + h1 + h2, DimBytes(dims));
    AtConcat(b, 0, h0 + h1, h2);
    AtConcat(b, 0, h0, h1);
  }

  /** What a client encodes is what the decoder returns, for zero to six dimensions and
      any bytes behind the array. */
  lemma DecodeEncode(flags: Int32, oid: Int32, dims: seq<Dim>, items: seq<Item>, tail: seq<byte>)
    requires |dims| <= 6 && Small(dims)
    requires |items| == if |dims| == 0 then 0 else Product(dims)
    ensures Decode(Encode(flags, oid, dims, items) + tail) == Ok((oid, Cells(items)))
  {
    hide I32, I32Bytes, Encode, DimBytes, ItemsBytes, Product, DecodeElems, DecodeDims;
    var e := Encode(flags, oid, dims, items);
    var b := e + tail;
    assert At(b, 0, e);
    EncodeAt(flags, oid, dims, items, b);
    I32RoundTrip(|dims|, b, 0);
    I32RoundTrip(oid, b, 8);
    if |dims| != 0 {
      forall i | 0 <= i < |dims|
        ensures 12 + 8 * |dims| <= |b| && I32(b, 12 + 8 * i) == dims[i].size
      {
        DimsAt(dims, b, i);
      }
      DimsAt(dims, b, 0);
      assert dims[..0] == [] && Product([]) == 1 by { EmptyProduct(); }
      DecodeHeaders(dims, b, 0);
      DecodeItems(items, b, 12 + 8 * |dims|);
    } else {
      assert Cells(items) == [];
    }
  }

  lemma EmptyProduct()
    ensures Product([]) == 1 && Small([])
  {
  }

  // ---- decode, then encode ----

  /** The elements the decoder consumed, as items of the wire grammar. */
  ghost function ReadItems(b: seq<byte>, pos: nat, n: nat): (items: seq<Item>)
    requires DecodeElems(b, pos, n).Ok?
    ensures |items| == n
    decreases n
  {
    if n == 0 then []
    else
      var len := I32(b, pos);
      if len < 0 then [Null(len)] + ReadItems(b, pos + 4, n - 1)
      else [Value(b[pos + 4..pos + 4 + len])] + ReadItems(b, pos + 4 + len, n - 1)
  }

  lemma ReadItemExact(b: seq<byte>, pos: nat, n: nat)
    requires 0 < n && pos <= |b| && DecodeElems(b, pos, n).Ok?
    ensures At(b, pos, ItemBytes(ReadItems(b, pos, n)[0]))
  {
    hide I32, I32Bytes;
    I32BytesOf(b, pos);
    var x := ReadItems(b, pos, n)[0];
    if x.Value? {
      AtConcat(b, pos, I32Bytes(|x.bytes|), x.bytes);
    }
  }

  lemma {:induction false} ReadItemsExact(b: seq<byte>, pos: nat, n: nat)
    requires pos <= |b| && DecodeElems(b, pos, n).Ok?
    ensures var items := ReadItems(b, pos, n);
      At(b, pos, ItemsBytes(items)) && DecodeElems(b, pos, n).value == Cells(items)
    decreases n
  {
    hide I32, I32Bytes, Cells;
    var items := ReadItems(b, pos, n);
    if n == 0 {
      NoCells();
    } else {
      var x, xs := items[0], items[1..];
      ReadItemExact(b, pos, n);
      var next := pos + |ItemBytes(x)|;
      ReadItemsExact(b, next, n - 1);
      assert xs == ReadItems(b, next, n - 1);
      AtConcat(b, pos, ItemBytes(x), ItemsBytes(xs));
      CellsCons(x, xs);
      assert items == [x] + xs;
    }
  }

  ghost function ReadDims(b: seq<byte>, n: nat): (dims: seq<Dim>)
    requires 12 + 8 * n <= |b|
  {
    seq(n, i requires 0 <= i < n => Dim(I32(b, 12 + 8 * i), I32(b, 16 + 8 * i)))
  }

  lemma {:induction false} ReadDimsExact(b: seq<byte>, n: nat)
    requires 12 + 8 * n <= |b|
    ensures At(b, 12, DimBytes(ReadDims(b, n)))
    decreases n
  {
    hide I32, I32Bytes;
    if n > 0 {
      ReadDimsExact(b, n - 1);
      var dims := ReadDims(b, n);
      assert dims[..n - 1] == ReadDims(b, n - 1);
      var p, last := 12 + 8 * (n - 1), dims[n - 1];
      I32BytesOf(b, p);
      I32BytesOf(b, p + 4);
      AtConcat(b, p, I32Bytes(last.size), I32Bytes(last.lower));
      AtConcat(b, 12, DimBytes(dims[..n - 1]), I32Bytes(last.size) + I32Bytes(last.lower));
    }
  }

  lemma {:induction false} DimsAreSmall(b: seq<byte>, ndim: nat, k: nat, total: nat)
    requires k <= ndim && DecodeDims(b, 12 + 8 * k, ndim - k, total).Ok?
    requires 12 + 8 * k <= |b|
    requires total == Product(ReadDims(b, k)) && Small(ReadDims(b, k))
    ensures 12 + 8 * ndim <= |b| && Small(ReadDims(b, ndim))
    ensures DecodeDims(b, 12 + 8 * k, ndim - k, total).value == (12 + 8 * ndim, Product(ReadDims(b, ndim)))
    decreases ndim - k
  {
    hide I32, I32Bytes;
    if k < ndim {
      var dims, more := ReadDims(b, k), ReadDims(b, k + 1);
      assert more[..k] == dims;
      forall j | 0 <= j <= k + 1
        ensures Product(more[..j]) <= MAX_ELEMENTS
      {
        if j <= k {
          assert more[..j] == dims[..j];
        } else {
          assert more[..j] == more;
        }
      }
      DimsAreSmall(b, ndim, k + 1, Product(more));
    }
  }

  /** `b` is this array in the wire grammar, with `tail` behind it, and its headers
      announce exactly the elements it holds. */
  ghost predicate IsWire(b: seq<byte>, oid: Int32, cells: seq<Cell>, flags: Int32, dims: seq<Dim>, items: seq<Item>)
  {
    && |dims| <= 6 && Small(dims)
    && |items| == (if |dims| == 0 then 0 else Product(dims))
    && At(b, 0, Encode(flags, oid, dims, items))
    && cells == Cells(items)
  }

  /** Whatever the decoder accepts is an array in the wire grammar, of at most ten million
      elements and exactly as many as its headers announce, and the result is its elements. */
  lemma DecodeSound(b: seq<byte>)
    requires Decode(b).Ok?
    ensures |Decode(b).value.1| <= 10_000_000
    ensures exists flags, dims, items :: IsWire(b, Decode(b).value.0, Decode(b).value.1, flags, dims, items)
  {
    hide I32, I32Bytes, Encode, DimBytes, ItemsBytes, Product, DecodeElems, DecodeDims, ReadDims, ReadItems;
    var ndim, oid, flags := I32(b, 0), I32(b, 8), I32(b, 4);
    I32BytesOf(b, 0);
    I32BytesOf(b, 4);
    I32BytesOf(b, 8);
    EmptyProduct();
    EmptyPieces(b);
    if ndim == 0 {
      EncodeAt(flags, oid, [], [], b);
      assert Cells([]) == [];
      assert IsWire(b, oid, [], flags, [], []);
    } else {
      DimsAreSmall(b, ndim, 0, 1);
      ReadDimsExact(b, ndim);
      var dims := ReadDims(b, ndim);
      ReadDimsLength(b, ndim);
      assert dims[..ndim] == dims;
      ReadItemsExact(b, 12 + 8 * ndim, Product(dims));
      var items := ReadItems(b, 12 + 8 * ndim, Product(dims));
      EncodeAt(flags, oid, dims, items, b);
      assert IsWire(b, oid, Cells(items), flags, dims, items);
    }
  }

  lemma ReadDimsLength(b: seq<byte>, n: nat)
    requires 12 + 8 * n <= |b|
    ensures |ReadDims(b, n)| == n
  {
  }

  lemma EmptyPieces(b: seq<byte>)
    requires 12 <= |b|
    ensures At(b, 12, DimBytes([])) && At(b, 12, ItemsBytes([])) && ReadDims(b, 0) == []
  {
  }
}
