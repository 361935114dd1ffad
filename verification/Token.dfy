/** Client tokens: random bytes as text (base64url of RFC 4648, section 5, without padding and
    with the last two symbols exchanged), and the check of a `mysql_native_password` answer. */
module Token {
  import opened Common
  import opened Bytes

  type Six = n: int | 0 <= n < 64

  /** The alphabet: upper case, lower case, digits, `_`, `-`. */
  function Symbol(n: Six): char {
    if n < 26 then (n + 65) as char
    else if n < 52 then (n + 71) as char
    else if n < 62 then (n - 4) as char
    else if n == 62 then '_' else '-'
  }

  /** The inverse of the alphabet. */
  function Value(c: char): Option<Six> {
    if 'A' <= c <= 'Z' then Some(c as int - 65)
    else if 'a' <= c <= 'z' then Some(c as int - 71)
    else if '0' <= c <= '9' then Some(c as int + 4)
    else if c == '_' then Some(62)
    else if c == '-' then Some(63)
    else None
  }

  lemma SymbolValue(n: Six)
    ensures Value(Symbol(n)) == Some(n)
  {
  }

  lemma ValueSymbol(c: char)
    ensures Value(c).Some? ==> Symbol(Value(c).value) == c
  {
  }

  // ---- one group ----

  /** Three bytes as four symbols of six bits each. */
  function Symbols(a: byte, b: byte, c: byte): (s: string)
    ensures |s| == 4
  {
    [Symbol(a / 4), Symbol(a % 4 * 16 + b / 16), Symbol(b % 16 * 4 + c / 64), Symbol(c % 64)]
  }

  function Encode(raw: seq<byte>): string {
    if |raw| == 0 then []
    else if |raw| == 1 then Symbols(raw[0], 0, 0)[..2]
    else if |raw| == 2 then Symbols(raw[0], raw[1], 0)[..3]
    else Symbols(raw[0], raw[1], raw[2]) + Encode(raw[3..])
  }

  /** Dividing takes apart what multiplying and adding put together. */
  lemma Split(q: nat, r: nat)
    ensures r < 4 ==> (q * 4 + r) / 4 == q && (q * 4 + r) % 4 == r
    ensures r < 16 ==> (q * 16 + r) / 16 == q && (q * 16 + r) % 16 == r
    ensures r < 64 ==> (q * 64 + r) / 64 == q && (q * 64 + r) % 64 == r
    ensures r < 0x1000 ==> (q * 0x1000 + r) / 0x1000 == q
    ensures r < 0x4_0000 ==> (q * 0x4_0000 + r) / 0x4_0000 == q
  {
  }

  /** `n >> 18`, `n >> 12 & 63`, `n >> 6 & 63` and `n & 63` are those four. */
  lemma Shifts(a: byte, b: byte, c: byte)
    ensures var n := a as int * 0x1_0000 + b as int * 256 + c;
      && 0 <= n / 0x4_0000 < 64
      && Symbols(a, b, c) == [Symbol(n / 0x4_0000), Symbol(n / 0x1000 % 64), Symbol(n / 64 % 64), Symbol(n % 64)]
  {
    var n := a as int * 0x1_0000 + b as int * 256 + c;
    FirstShifts(a, b, c);
    LastShifts(a, b, c);
    hide Symbol;
  }

  lemma FirstShifts(a: byte, b: byte, c: byte)
    ensures var n := a as int * 0x1_0000 + b as int * 256 + c;
      n / 0x4_0000 == a / 4 && n / 0x1000 % 64 == a % 4 * 16 + b / 16
  {
    Split(a / 4, a % 4 * 0x1_0000 + b as int * 256 + c);
    Split(16 * a as int + b / 16, b % 16 * 256 + c);
    Split(a / 4, a % 4 * 16 + b / 16);
  }

  lemma LastShifts(a: byte, b: byte, c: byte)
    ensures var n := a as int * 0x1_0000 + b as int * 256 + c;
      n / 64 % 64 == b % 16 * 4 + c / 64 && n % 64 == c % 64
  {
    Split(1024 * a as int + 4 * b as int + c / 64, c % 64);
    Split(16 * a as int + b / 16, b % 16 * 4 + c / 64);
  }

  /** The encoding loop of `generate_token`. */
  method EncodeToken(raw: seq<byte>) returns (s: string)
    ensures s == Encode(raw)
  {
    hide Encode, Symbols;
    s := [];
    var i := 0;
    assert raw[0..] == raw;
    while i + 3 <= |raw|
      invariant i <= |raw| && s + Encode(raw[i..]) == Encode(raw)
      decreases |raw| - i
    {
      EncodeStep(raw, i);
      Shifts(raw[i], raw[i + 1], raw[i + 2]);
      var n := raw[i] as int * 0x1_0000 + raw[i + 1] as int * 256 + raw[i + 2];
      ghost var before := s;
      s := s + [Symbol(n / 0x4_0000)];
      s := s + [Symbol(n / 0x1000 % 64)];
      s := s + [Symbol(n / 64 % 64)];
      s := s + [Symbol(n % 64)];
      Pushed(before, Symbols(raw[i], raw[i + 1], raw[i + 2]), Encode(raw[i + 3..]));
      i := i + 3;
    }
    EncodeTail(raw, i);
    if |raw| - i == 1 {
      Shifts(raw[i], 0, 0);
      var n := raw[i] as int * 0x1_0000;
      s := s + [Symbol(n / 0x4_0000)];
      s := s + [Symbol(n / 0x1000 % 64)];
    } else if |raw| - i == 2 {
      Shifts(raw[i], raw[i + 1], 0);
      var n := raw[i] as int * 0x1_0000 + raw[i + 1] as int * 256;
      s := s + [Symbol(n / 0x4_0000)];
      s := s + [Symbol(n / 0x1000 % 64)];
      s := s + [Symbol(n / 64 % 64)];
    }
  }

  lemma Pushed(before: string, group: string, rest: string)
    requires |group| == 4
    ensures before + [group[0]] + [group[1]] + [group[2]] + [group[3]] + rest == before + (group + rest)
  {
    assert group == [group[0]] + [group[1]] + [group[2]] + [group[3]];
  }

  lemma EncodeStep(raw: seq<byte>, i: nat)
    requires i + 3 <= |raw|
    ensures Encode(raw[i..]) == Symbols(raw[i], raw[i + 1], raw[i + 2]) + Encode(raw[i + 3..])
  {
    hide Symbols;
    assert raw[i..][3..] == raw[i + 3..];
  }

  lemma EncodeTail(raw: seq<byte>, i: nat)
    requires i <= |raw| < i + 3
    ensures Encode(raw[i..]) ==
      if |raw| == i then []
      else if |raw| == i + 1 then Symbols(raw[i], 0, 0)[..2]
      else Symbols(raw[i], raw[i + 1], 0)[..3]
  {
    hide Symbols;
  }

  // ---- and back ----

  function Unpack(u: Six, v: Six, x: Six, y: Six): (b: seq<byte>)
    ensures |b| == 3
  {
    [u * 4 + v / 16, v % 16 * 16 + x / 4, x % 4 * 64 + y]
  }

  /** The three bytes that four symbols stand for. */
  function Ungroup(s: string): (r: Option<seq<byte>>)
    requires |s| == 4
    ensures r.Some? ==> |r.value| == 3
  {
    if Value(s[0]).Some? && Value(s[1]).Some? && Value(s[2]).Some? && Value(s[3]).Some? then
      Some(Unpack(Value(s[0]).value, Value(s[1]).value, Value(s[2]).value, Value(s[3]).value))
    else
      None
  }

  /** What fills a short last group up. */
  function Padding(s: string): string
    requires 0 < |s| < 4
  {
    if |s| == 1 then "AAA" else if |s| == 2 then "AA" else "A"
  }

  /** A short last group stands for one byte or two; its unused bits must be zero. */
  function DecodeLast(s: string): Option<seq<byte>>
    requires 0 < |s| < 4
  {
    match Ungroup(s + Padding(s))
    case None => None
    case Some(b) =>
      if |s| == 1 || b[2] != 0 || (|s| == 2 && b[1] != 0) then None else Some(b[..|s| - 1])
  }

  function Decode(s: string): Option<seq<byte>> {
    if |s| == 0 then Some([])
    else if |s| < 4 then DecodeLast(s)
    else
      match Ungroup(s[..4])
      case None => None
      case Some(b) =>
        match Decode(s[4..])
        case None => None
        case Some(rest) => Some(b + rest)
  }

  lemma UngroupSymbols(a: byte, b: byte, c: byte)
    ensures Ungroup(Symbols(a, b, c)) == Some([a, b, c])
  {
    hide Symbol, Value, Unpack;
    SymbolValue(a / 4);
    SymbolValue(a % 4 * 16 + b / 16);
    SymbolValue(b % 16 * 4 + c / 64);
    SymbolValue(c % 64);
    UnpackPacked(a, b, c);
  }

  lemma UnpackPacked(a: byte, b: byte, c: byte)
    ensures Unpack(a / 4, a % 4 * 16 + b / 16, b % 16 * 4 + c / 64, c % 64) == [a, b, c]
  {
    Split(a % 4, b / 16);
    Split(b % 16, c / 64);
  }

  lemma LastBack(raw: seq<byte>)
    requires 0 < |raw| < 3
    ensures Decode(Encode(raw)) == Some(raw)
  {
    hide Ungroup, Symbols;
    var a, b: byte := raw[0], if |raw| == 2 then raw[1] else 0;
    UngroupSymbols(a, b, 0);
    PaddedSymbols(a, b);
    var s := Encode(raw);
    assert s == Symbols(a, b, 0)[..|raw| + 1];
    assert s + Padding(s) == Symbols(a, b, 0);
    assert [a, b, 0][..|raw|] == raw;
  }

  lemma PaddedSymbols(a: byte, b: byte)
    ensures Symbols(a, b, 0)[..3] + "A" == Symbols(a, b, 0)
    ensures Symbols(a, 0, 0)[..2] + "AA" == Symbols(a, 0, 0)
  {
    assert Symbol(0) == 'A';
    hide Symbol;
  }

  /** Decoding undoes encoding, for any number of bytes. */
  lemma {:induction false} DecodeEncode(raw: seq<byte>)
    ensures Decode(Encode(raw)) == Some(raw)
    decreases |raw|
  {
    hide Ungroup, Symbols, DecodeLast;
    if 0 < |raw| < 3 {
      LastBack(raw);
    } else if |raw| >= 3 {
      UngroupSymbols(raw[0], raw[1], raw[2]);
      DecodeEncode(raw[3..]);
      var group := Symbols(raw[0], raw[1], raw[2]);
      var s := group + Encode(raw[3..]);
      assert Encode(raw) == s;
      assert s[..4] == group && s[4..] == Encode(raw[3..]);
      assert raw == [raw[0], raw[1], raw[2]] + raw[3..];
    }
  }

  // ---- no other text decodes to it ----

  lemma SymbolsUngroup(s: string)
    requires |s| == 4 && Ungroup(s).Some?
    ensures var b := Ungroup(s).value; Symbols(b[0], b[1], b[2]) == s
  {
    hide Symbol, Value, Unpack;
    ValueSymbol(s[0]);
    ValueSymbol(s[1]);
    ValueSymbol(s[2]);
    ValueSymbol(s[3]);
    PackedUnpack(Value(s[0]).value, Value(s[1]).value, Value(s[2]).value, Value(s[3]).value);
    assert s == [s[0], s[1], s[2], s[3]];
  }

  lemma PackedUnpack(u: Six, v: Six, x: Six, y: Six)
    ensures var b := Unpack(u, v, x, y);
      b[0] / 4 == u && b[0] % 4 * 16 + b[1] / 16 == v && b[1] % 16 * 4 + b[2] / 64 == x && b[2] % 64 == y
  {
    Split(u, v / 16);
    Split(v % 16, x / 4);
    Split(x % 4, y);
  }

  lemma LastForth(s: string)
    requires 0 < |s| < 4 && Decode(s).Some?
    ensures Encode(Decode(s).value) == s
  {
    var whole := s + Padding(s);
    SymbolsUngroup(whole);
    hide Ungroup, Symbols;
    var b := Ungroup(whole).value;
    assert whole[..|s|] == s;
    assert Decode(s).value == b[..|s| - 1];
  }

  /** A text decodes to some bytes exactly when it is their encoding. */
  lemma {:induction false} EncodeDecode(s: string, raw: seq<byte>)
    ensures Decode(s) == Some(raw) <==> Encode(raw) == s
  {
    if Encode(raw) == s {
      DecodeEncode(raw);
    }
    if Decode(s) == Some(raw) {
      EncodeOfDecoded(s);
    }
  }

  lemma EncodeMore(b: seq<byte>, rest: seq<byte>)
    requires |b| == 3
    ensures Encode(b + rest) == Symbols(b[0], b[1], b[2]) + Encode(rest)
  {
    hide Symbols;
    var raw := b + rest;
    assert raw[3..] == rest;
  }

  lemma {:induction false} EncodeOfDecoded(s: string)
    requires Decode(s).Some?
    ensures Encode(Decode(s).value) == s
    decreases |s|
  {
    hide Ungroup, Symbols, DecodeLast, Encode;
    if |s| == 0 {
      EncodeTail([], 0);
    } else if |s| < 4 {
      LastForth(s);
    } else {
      var b, rest := Ungroup(s[..4]).value, Decode(s[4..]).value;
      SymbolsUngroup(s[..4]);
      EncodeOfDecoded(s[4..]);
      EncodeMore(b, rest);
      assert s == s[..4] + s[4..];
    }
  }

  // ---- what a token looks like ----

  predicate InAlphabet(c: char) {
    'A' <= c <= 'Z' || 'a' <= c <= 'z' || '0' <= c <= '9' || c == '_' || c == '-'
  }

  /** Four characters for three bytes, rounded up, all from the alphabet: 43 for the 32 bytes
      of a token. */
  lemma {:induction false} TokenShape(raw: seq<byte>)
    ensures |Encode(raw)| == (4 * |raw| + 2) / 3
    ensures forall i | 0 <= i < |Encode(raw)| :: InAlphabet(Encode(raw)[i])
    ensures |raw| == 32 ==> |Encode(raw)| == 43
    decreases |raw|
  {
    hide Symbols, InAlphabet;
    if 0 < |raw| < 3 {
      SymbolsInAlphabet(raw[0], if |raw| == 2 then raw[1] else 0, 0);
    } else if |raw| >= 3 {
      SymbolsInAlphabet(raw[0], raw[1], raw[2]);
      TokenShape(raw[3..]);
    }
  }

  lemma SymbolsInAlphabet(a: byte, b: byte, c: byte)
    ensures forall i | 0 <= i < 4 :: InAlphabet(Symbols(a, b, c)[i])
  {
  }
}

/** The `mysql_native_password` exchange over an abstract 20-byte hash. */
module NativePassword {

  type Digest = d: seq<bv8> | |d| == 20 witness seq(20, _ => 0)

  type Hash = seq<bv8> -> Digest

  function Xor(a: Digest, b: Digest): (r: Digest) {
    seq(20, i requires 0 <= i < 20 => a[i] ^ b[i])
  }

  lemma XorTwice(a: Digest, b: Digest)
    ensures Xor(Xor(a, b), b) == a
  {
    forall i | 0 <= i < 20
      ensures Xor(Xor(a, b), b)[i] == a[i]
    {
      assert Xor(a, b)[i] == a[i] ^ b[i];
      assert (a[i] ^ b[i]) ^ b[i] == a[i];
    }
  }

  /** What the server stores for a password. */
  function Stored(h: Hash, password: seq<bv8>): Digest {
    h(h(password))
  }

  function Mask(h: Hash, scramble: Digest, stored: Digest): Digest {
    h(scramble + stored)
  }

  /** The answer of a client that knows the password. */
  function Response(h: Hash, password: seq<bv8>, scramble: Digest): Digest {
    Xor(h(password), Mask(h, scramble, Stored(h, password)))
  }

  predicate Accepts(h: Hash, scramble: Digest, response: seq<bv8>, stored: Digest) {
    |response| == 20 && h(Xor(response, Mask(h, scramble, stored))) == stored
  }

  method XorInto(a: Digest, b: Digest) returns (out: Digest)
    ensures out == Xor(a, b)
  {
    var bytes := new bv8[20](_ => 0);
    for i := 0 to 20
      invariant forall j | 0 <= j < i :: bytes[j] == a[j] ^ b[j]
    {
      bytes[i] := a[i] ^ b[i];
    }
    out := bytes[..];
  }

  /** `native_response`. */
  method NativeResponse(h: Hash, password: seq<bv8>, scramble: Digest) returns (out: Digest)
    ensures out == Response(h, password, scramble)
  {
    var once := h(password);
    var twice := h(once);
    var inner := h(scramble + twice);
    out := XorInto(once, inner);
  }

  /** `verify_native_response`. */
  method VerifyNativeResponse(h: Hash, scramble: Digest, response: seq<bv8>, stored: Digest) returns (ok: bool)
    ensures ok == Accepts(h, scramble, response, stored)
  {
    if |response| != 20 {
      return false;
    }
    var inner := h(scramble + stored);
    var recovered := XorInto(response, inner);
    ok := h(recovered) == stored;
  }

  /** An answer is accepted exactly when it is a preimage of what is stored, masked: whoever
      can answer knows the single hash of the password or something as good. */
  lemma AcceptsExact(h: Hash, scramble: Digest, response: seq<bv8>, stored: Digest)
    ensures Accepts(h, scramble, response, stored) <==>
      exists p: Digest :: h(p) == stored && response == Xor(p, Mask(h, scramble, stored))
  {
    var mask := Mask(h, scramble, stored);
    if Accepts(h, scramble, response, stored) {
      var p := Xor(response, mask);
      XorTwice(response, mask);
      assert h(p) == stored && response == Xor(p, mask);
    }
    forall p: Digest | h(p) == stored && response == Xor(p, mask)
      ensures Accepts(h, scramble, response, stored)
    {
      XorTwice(p, mask);
    }
  }

  /** The answer is the single hash of the password, bit by bit against the hash of the scramble and
      the double hash; one is accepted exactly if, masked so, it hashes to what is stored. */
  lemma Formulas(h: Hash, scramble: Digest, password: seq<bv8>, response: seq<bv8>, stored: Digest)
    ensures var answer := Response(h, password, scramble);
      forall i | 0 <= i < 20 :: answer[i] == h(password)[i] ^ h(scramble + h(h(password)))[i]
    ensures Accepts(h, scramble, response, stored) <==> exists p: Digest ::
      h(p) == stored && |response| == 20 && forall i | 0 <= i < 20 :: response[i] == p[i] ^ h(scramble + stored)[i]
  {
    AcceptsExact(h, scramble, response, stored);
    var mask := h(scramble + stored);
    forall p: Digest
      ensures response == Xor(p, mask) <==> |response| == 20 && forall i | 0 <= i < 20 :: response[i] == p[i] ^ mask[i]
    {
    }
  }

  /** The right password is always accepted. */
  lemma RightPassword(h: Hash, scramble: Digest, password: seq<bv8>)
    ensures Accepts(h, scramble, Response(h, password, scramble), Stored(h, password))
  {
    XorTwice(h(password), Mask(h, scramble, Stored(h, password)));
  }

  /** An answer made for one scramble is accepted under another exactly when the hash of the
      password, shifted by the difference of the two masks, is a preimage again. */
  lemma Replay(h: Hash, first: Digest, second: Digest, password: seq<bv8>)
    ensures var stored := Stored(h, password);
      var shift := Xor(Mask(h, first, stored), Mask(h, second, stored));
      Accepts(h, second, Response(h, password, first), stored) <==> h(Xor(h(password), shift)) == stored
  {
    var stored := Stored(h, password);
    XorRegroup(h(password), Mask(h, first, stored), Mask(h, second, stored));
  }

  lemma XorRegroup(a: Digest, b: Digest, c: Digest)
    ensures Xor(Xor(a, b), c) == Xor(a, Xor(b, c))
  {
    forall i | 0 <= i < 20
      ensures Xor(Xor(a, b), c)[i] == Xor(a, Xor(b, c))[i]
    {
      assert (a[i] ^ b[i]) ^ c[i] == a[i] ^ (b[i] ^ c[i]);
    }
  }
}
