/** Byte strings: the octets a Rust `&[u8]` or the UTF-8 text of a `&str` holds. */
module Bytes {

  type byte = x: int | 0 <= x < 256

  predicate IsAscii(s: string) {
    forall i | 0 <= i < |s| :: s[i] as int < 128
  }

  /** The bytes of an ASCII string literal. */
  function Ascii(s: string): (r: seq<byte>)
    requires IsAscii(s)
    ensures |r| == |s|
  {
    seq<byte>(|s|, i requires 0 <= i < |s| => s[i] as int)
  }

  predicate IsDigit(c: byte) { 48 <= c <= 57 }

  predicate IsAlpha(c: byte) { 65 <= c <= 90 || 97 <= c <= 122 }

  /** `p` occurs in `s` at offset `k`. */
  predicate At(s: seq<byte>, k: int, p: seq<byte>) {
    0 <= k && k + |p| <= |s| && s[k..k + |p|] == p
  }

  /** A concatenation occurs where its parts occur one behind the other. */
  lemma AtConcat(s: seq<byte>, k: int, x: seq<byte>, y: seq<byte>)
    ensures At(s, k, x + y) <==> At(s, k, x) && At(s, k + |x|, y)
  {
    if At(s, k, x + y) {
      assert s[k..k + |x|] == (x + y)[..|x|];
      assert s[k + |x|..k + |x| + |y|] == (x + y)[|x|..];
    }
  }

  /** The first offset at or after `k` where `p` occurs, or -1. */
  function Find(s: seq<byte>, k: nat, p: seq<byte>): (r: int)
    requires 0 < |p|
    ensures r == -1 ==> forall j {:trigger At(s, j, p)} :: k <= j ==> !At(s, j, p)
    ensures r != -1 ==> k <= r && At(s, r, p)
    ensures r != -1 ==> forall j {:trigger At(s, j, p)} :: k <= j < r ==> !At(s, j, p)
    decreases |s| - k
  {
    if k + |p| > |s| then -1 else if At(s, k, p) then k else Find(s, k + 1, p)
  }

  /** Searching a suffix is searching the whole from further on. */
  lemma FindShift(s: seq<byte>, i: nat, k: nat, p: seq<byte>)
    requires i <= |s| && 0 < |p|
    ensures Find(s, i + k, p) == if Find(s[i..], k, p) == -1 then -1 else Find(s[i..], k, p) + i
  {
    forall j: int | 0 <= j
      ensures At(s[i..], j, p) <==> At(s, i + j, p)
    {
      if i + j + |p| <= |s| {
        assert s[i..][j..j + |p|] == s[i + j..i + j + |p|];
      }
    }
    var a, b := Find(s[i..], k, p), Find(s, i + k, p);
    if a != -1 {
      assert At(s, i + a, p);
    }
    if b != -1 {
      assert At(s[i..], b - i, p);
    }
  }

  /** A match that ends inside a prefix is found whatever follows that prefix. */
  lemma FindPrefix(s: seq<byte>, k: nat, p: seq<byte>, y: seq<byte>)
    requires 0 < |p| && Find(s, k, p) != -1
    ensures var n := Find(s, k, p) + |p|; Find(s[..n] + y, k, p) == Find(s, k, p)
  {
    var f := Find(s, k, p);
    var z := s[..f + |p|] + y;
    forall j | 0 <= j && j + |p| <= f + |p|
      ensures At(z, j, p) <==> At(s, j, p)
    {
      assert z[j..j + |p|] == s[j..j + |p|];
    }
    assert At(z, f, p);
    var g := Find(z, k, p);
    assert g != -1 && g <= f;
  }

  /** The end of the run of digits that starts at `k`. */
  function DigitEnd(s: seq<byte>, k: nat): (r: nat)
    requires k <= |s|
    ensures k <= r <= |s| && (forall j | k <= j < r :: IsDigit(s[j])) && (r < |s| ==> !IsDigit(s[r]))
    decreases |s| - k
  {
    if k < |s| && IsDigit(s[k]) then DigitEnd(s, k + 1) else k
  }

  lemma DigitEndIs(s: seq<byte>, k: nat, j: nat)
    requires k <= j <= |s| && (forall i | k <= i < j :: IsDigit(s[i])) && (j < |s| ==> !IsDigit(s[j]))
    ensures DigitEnd(s, k) == j
  {
  }

  /** The inner loop of every scanner here: step over a run of digits. */
  method ScanDigits(s: seq<byte>, k: nat) returns (j: nat)
    requires k <= |s|
    ensures j == DigitEnd(s, k)
  {
    j := k;
    while j < |s| && IsDigit(s[j])
      invariant k <= j <= |s|
      invariant forall i | k <= i < j :: IsDigit(s[i])
    {
      j := j + 1;
    }
    DigitEndIs(s, k, j);
  }

  predicate AllDigits(ds: seq<byte>) {
    forall i | 0 <= i < |ds| :: IsDigit(ds[i])
  }

  lemma ConcatAssoc(a: seq<byte>, x: seq<byte>, y: seq<byte>)
    ensures a + (x + y) == a + x + y
  {
  }

  /** The number a digit string denotes. */
  function Decimal(ds: seq<byte>): nat
    requires AllDigits(ds)
  {
    if |ds| == 0 then 0 else Decimal(ds[..|ds| - 1]) * 10 + (ds[|ds| - 1] as int - 48)
  }

  // ---- big-endian integers ----

  type Int32 = n: int | -0x8000_0000 <= n < 0x8000_0000

  /** The unsigned number in the `w` bytes at `p`. */
  function Unsigned(b: seq<byte>, p: nat, w: nat): (n: nat)
    requires p + w <= |b|
  {
    if w == 0 then 0 else Unsigned(b, p, w - 1) * 256 + b[p + w - 1]
  }

  function Pow256(w: nat): (n: nat)
    ensures 0 < n
  {
    if w == 0 then 1 else 256 * Pow256(w - 1)
  }

  /** `from_be_bytes`: two's complement, most significant byte first. */
  function Signed(b: seq<byte>, p: nat, w: nat): (n: int)
    requires 0 < w && p + w <= |b|
  {
    if b[p] < 128 then Unsigned(b, p, w) else Unsigned(b, p, w) - Pow256(w)
  }

  function I32(b: seq<byte>, p: nat): (n: Int32)
    requires p + 4 <= |b|
  {
    var u := ((b[p] as int * 256 + b[p + 1]) * 256 + b[p + 2]) * 256 + b[p + 3];
    if u < 0x8000_0000 then u else u - 0x1_0000_0000
  }

  /** `to_be_bytes` of a 32-bit integer. */
  function I32Bytes(n: Int32): (b: seq<byte>)
    ensures |b| == 4
  {
    var u: nat := if n < 0 then n + 0x1_0000_0000 else n;
    var u1 := u / 256;
    var u2 := u1 / 256;
    [u2 / 256, u2 % 256, u1 % 256, u % 256]
  }

  lemma I32RoundTrip(n: Int32, b: seq<byte>, p: nat)
    requires At(b, p, I32Bytes(n))
    ensures p + 4 <= |b| && I32(b, p) == n
  {
    var w := b[p..p + 4];
    assert w[0] == b[p] && w[1] == b[p + 1] && w[2] == b[p + 2] && w[3] == b[p + 3];
  }

  lemma I32BytesOf(b: seq<byte>, p: nat)
    requires p + 4 <= |b|
    ensures At(b, p, I32Bytes(I32(b, p)))
  {
    var w := b[p..p + 4];
    assert w == [b[p], b[p + 1], b[p + 2], b[p + 3]];
    QuotientOf((b[p] as int * 256 + b[p + 1]) * 256 + b[p + 2], b[p + 3]);
    QuotientOf(b[p] as int * 256 + b[p + 1], b[p + 2]);
    QuotientOf(b[p], b[p + 1]);
  }

  lemma QuotientOf(q: nat, r: byte)
    ensures (q * 256 + r) / 256 == q && (q * 256 + r) % 256 == r
  {
  }
}
