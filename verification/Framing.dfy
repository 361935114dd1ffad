/** MySQL packets and length-encoded values (the MySQL client/server protocol, basic types). */
module Framing {
  import opened Common
  import opened Bytes

  // ---- little-endian integers ----

  function LeBytes(v: nat, w: nat): (b: seq<byte>)
    ensures |b| == w
  {
    if w == 0 then [] else [v % 256] + LeBytes(v / 256, w - 1)
  }

  function LeValue(b: seq<byte>): nat {
    if |b| == 0 then 0 else b[0] as int + 256 * LeValue(b[1..])
  }

  lemma {:induction false} LeRoundTrip(v: nat, w: nat)
    requires v < Pow256(w)
    ensures LeValue(LeBytes(v, w)) == v
  {
    if w > 0 {
      LeRoundTrip(v / 256, w - 1);
      assert LeBytes(v, w)[1..] == LeBytes(v / 256, w - 1);
    }
  }

  lemma Powers()
    ensures Pow256(2) == 0x1_0000 && Pow256(3) == 0x100_0000 && Pow256(8) == 0x1_0000_0000_0000_0000
  {
    assert Pow256(4) == 0x1_0000_0000;
    assert Pow256(6) == 0x1_0000_0000_0000;
  }

  // ---- length-encoded integers ----

  type UInt64 = v: int | 0 <= v < 0x1_0000_0000_0000_0000

  function Lenenc(v: UInt64): (b: seq<byte>) {
    if v < 0xFB then [v]
    else if v < 0x1_0000 then [0xFC] + LeBytes(v, 2)
    else if v < 0x100_0000 then [0xFD] + LeBytes(v, 3)
    else [0xFE] + LeBytes(v, 8)
  }

  /** The value at the front of `buf` and the bytes it takes. */
  function ReadLenenc(buf: seq<byte>): Option<(nat, nat)> {
    if |buf| == 0 then None
    else if buf[0] < 0xFB then Some((buf[0] as int, 1))
    else
      var w := if buf[0] == 0xFC then 2 else if buf[0] == 0xFD then 3 else 8;
      if buf[0] == 0xFB || buf[0] == 0xFF || |buf| < 1 + w then None
      else Some((LeValue(buf[1..1 + w]), 1 + w))
  }

  /** `write_lenenc_int`. */
  method WriteLenencInt(out: seq<byte>, v: UInt64) returns (grown: seq<byte>)
    ensures grown == out + Lenenc(v)
  {
    grown := out;
    if v < 0xFB {
      grown := grown + [v];
    } else if v < 0x1_0000 {
      grown := grown + [0xFC];
      grown := grown + LeBytes(v, 2);
    } else if v < 0x100_0000 {
      grown := grown + [0xFD];
      grown := grown + [v % 256];
      grown := grown + [v / 256 % 256];
      grown := grown + [v / 0x1_0000 % 256];
      ThreeBytes(v);
    } else {
      grown := grown + [0xFE];
      grown := grown + LeBytes(v, 8);
    }
  }

  lemma ThreeBytes(v: nat)
    requires v < 0x100_0000
    ensures LeBytes(v, 3) == [v % 256, v / 256 % 256, v / 0x1_0000 % 256]
  {
    assert v / 256 / 256 == v / 0x1_0000;
    assert LeBytes(v / 0x1_0000, 1) == [v / 0x1_0000 % 256];
    assert LeBytes(v / 256, 2) == [v / 256 % 256] + LeBytes(v / 256 / 256, 1);
  }

  /** `read_lenenc_int`, the eight-byte form in a loop. */
  method ReadLenencInt(buf: seq<byte>) returns (r: Option<(nat, nat)>)
    ensures r == ReadLenenc(buf)
  {
    hide LeFrom, LeValue, Pow256;
    if |buf| == 0 {
      return None;
    }
    var first := buf[0];
    if first < 0xFB {
      return Some((first as int, 1));
    }
    if first == 0xFB || first == 0xFF {
      return None;
    }
    var w := if first == 0xFC then 2 else if first == 0xFD then 3 else 8;
    if |buf| < 1 + w {
      return None;
    }
    var b := buf[1..1 + w];
    LeEnds(b);
    var v: nat := 0;
    for i := 0 to w
      invariant v + LeFrom(b, i) == LeValue(b)
    {
      LeStep(b, i);
      v := v + Pow256(i) * b[i];
    }
    return Some((v, 1 + w));
  }

  /** What the bytes from the `i`th on are worth. */
  function LeFrom(b: seq<byte>, i: nat): nat
    requires i <= |b|
  {
    Pow256(i) * LeValue(b[i..])
  }

  lemma LeEnds(b: seq<byte>)
    ensures LeFrom(b, 0) == LeValue(b) && LeFrom(b, |b|) == 0
  {
    assert b[0..] == b;
    assert LeValue(b[|b|..]) == 0;
  }

  lemma LeStep(b: seq<byte>, i: nat)
    requires i < |b|
    ensures LeFrom(b, i) == Pow256(i) * b[i] + LeFrom(b, i + 1)
  {
    var rest := LeValue(b[i + 1..]);
    assert b[i..][1..] == b[i + 1..];
    assert LeValue(b[i..]) == b[i] as int + 256 * rest;
    assert Pow256(i + 1) * rest == Pow256(i) * (256 * rest) by {
      assert Pow256(i + 1) == 256 * Pow256(i);
    }
  }

  /** Reading undoes writing, whatever follows. */
  lemma LenencBack(v: UInt64, rest: seq<byte>)
    ensures ReadLenenc(Lenenc(v) + rest) == Some((v as nat, |Lenenc(v)|))
  {
    hide LeBytes, LeValue, Pow256;
    Powers();
    var buf := Lenenc(v) + rest;
    if v >= 0xFB {
      var w := |Lenenc(v)| - 1;
      LeRoundTrip(v, w);
      assert buf[1..1 + w] == LeBytes(v, w);
    }
  }

  /** The four forms: one byte, or a mark and two, three or eight bytes, least significant first. */
  lemma LenencForms(v: UInt64)
    ensures var b := Lenenc(v);
      && (v < 251 ==> b == [v])
      && (251 <= v < 0x1_0000 ==> b == [0xFC, v % 256, v / 256])
      && (0x1_0000 <= v < 0x100_0000 ==> b == [0xFD, v % 256, v / 256 % 256, v / 0x1_0000])
      && (0x100_0000 <= v ==> |b| == 9 && b[0] == 0xFE && LeValue(b[1..]) == v)
  {
    hide LeBytes, LeValue, Pow256;
    Powers();
    if v < 0x1_0000 {
      TwoBytes(v);
    } else if v < 0x100_0000 {
      ThreeBytes(v);
    } else {
      LeRoundTrip(v, 8);
      assert Lenenc(v)[1..] == LeBytes(v, 8);
    }
  }

  lemma TwoBytes(v: nat)
    requires v < 0x1_0000
    ensures LeBytes(v, 2) == [v % 256, v / 256]
  {
    assert LeBytes(v / 256, 1) == [v / 256 % 256];
    assert v / 256 < 256;
  }

  /** What a length can begin with tells NULL, errors and very long values apart. */
  lemma LenencFirst(v: UInt64)
    ensures var b := Lenenc(v);
      && 1 <= |b| <= 9 && b[0] != 0xFB && b[0] != 0xFF
      && (b[0] == 0xFE <==> 0x100_0000 <= v) && (b[0] == 0 <==> v == 0)
  {
  }

  // ---- packets ----

  const MAX_PAYLOAD := 0xFF_FFFF

  datatype FrameError = UnexpectedEof | PayloadTooLarge | OutOfOrder | MultiPacket

  /** The `n`th sequence number. */
  function Number(n: nat): byte {
    n % 256
  }

  lemma NumberNext(n: nat)
    ensures Number(Number(n) + 1) == Number(n + 1) && Number(Number(n)) == Number(n)
  {
  }

  class SequenceCounter {
    var value: byte

    constructor ()
      ensures value == 0
    {
      value := 0;
    }

    method Reset()
      modifies this
      ensures value == 0
    {
      value := 0;
    }

    /** The number to use, then the one after it, modulo 256. */
    method Next() returns (v: byte)
      modifies this
      ensures v == old(value) && value == Number(old(value) + 1)
    {
      v := value;
      value := (value + 1) % 256;
    }

    method Expect(got: byte) returns (ok: bool)
      modifies this
      ensures ok == (got == old(value)) && value == if ok then Number(old(value) + 1) else old(value)
    {
      if got != value {
        return false;
      }
      value := (value + 1) % 256;
      return true;
    }
  }

  /** One packet with the `n`th sequence number. */
  function Packet(payload: seq<byte>, n: nat): seq<byte> {
    LeBytes(|payload|, 3) + [Number(n)] + payload
  }

  /** Three bytes of length, least significant first, the number modulo 256, the payload. */
  lemma PacketLayout(payload: seq<byte>, n: nat)
    requires |payload| < MAX_PAYLOAD
    ensures MAX_PAYLOAD == 0xFF_FFFF
    ensures var len := |payload|;
      Packet(payload, n) == [len % 256, len / 256 % 256, len / 0x1_0000, n % 256] + payload
  {
    ThreeBytes(|payload|);
    assert LeBytes(|payload|, 3) + [Number(n)] == [|payload| % 256, |payload| / 256 % 256, |payload| / 0x1_0000, n % 256];
  }

  /** Packets numbered `n`, `n + 1`, ... */
  function Packets(payloads: seq<seq<byte>>, n: nat): seq<byte> {
    if |payloads| == 0 then [] else Packet(payloads[0], n) + Packets(payloads[1..], n + 1)
  }

  predicate Fit(payloads: seq<seq<byte>>) {
    forall i | 0 <= i < |payloads| :: |payloads[i]| < MAX_PAYLOAD
  }

  /** The payload of the packet at the front of `s`, expected to have the `n`th number, and the
      bytes after it. */
  function TakePacket(s: seq<byte>, n: nat): (r: Result<(seq<byte>, seq<byte>), FrameError>)
    ensures r.Ok? ==> |r.value.0| + |r.value.1| + 4 == |s|
  {
    if |s| < 4 then Err(UnexpectedEof)
    else
      var len := LeValue(s[..3]);
      if s[3] != Number(n) then Err(OutOfOrder)
      else if len == MAX_PAYLOAD then Err(MultiPacket)
      else if |s| < 4 + len then Err(UnexpectedEof)
      else Ok((s[4..4 + len], s[4 + len..]))
  }

  lemma PacketHeader(payload: seq<byte>, n: nat, rest: seq<byte>)
    requires |payload| < MAX_PAYLOAD
    ensures var s := Packet(payload, n) + rest;
      |s| >= 4 + |payload| && LeValue(s[..3]) == |payload| && s[3] == Number(n)
      && s[4..4 + |payload|] == payload && s[4 + |payload|..] == rest
  {
    hide LeBytes, LeValue, Pow256;
    Powers();
    LeRoundTrip(|payload|, 3);
    var s := Packet(payload, n) + rest;
    assert s[..3] == LeBytes(|payload|, 3);
  }

  /** A reader takes the packet off the front exactly when its count agrees modulo 256. */
  lemma TakeExact(payload: seq<byte>, n: nat, m: nat, rest: seq<byte>)
    requires |payload| < MAX_PAYLOAD
    ensures TakePacket(Packet(payload, n) + rest, m) ==
      if Number(n) == Number(m) then Ok((payload, rest)) else Err(OutOfOrder)
  {
    hide LeBytes, LeValue, Packet;
    PacketHeader(payload, n, rest);
  }

  /** A packet is taken exactly if its header is there, counts as expected, announces less than the
      largest length, and as many bytes follow; else the first of these that fails is the error. */
  lemma TakeRefused(s: seq<byte>, n: nat)
    ensures |s| < 4 ==> TakePacket(s, n) == Err(UnexpectedEof)
    ensures |s| >= 4 ==> var len := s[0] as int + 256 * s[1] as int + 0x1_0000 * s[2] as int;
      TakePacket(s, n) ==
        if s[3] as int != n % 256 then Err(OutOfOrder)
        else if len == 0xFF_FFFF then Err(MultiPacket)
        else if |s| - 4 < len then Err(UnexpectedEof)
        else Ok((s[4..4 + len], s[4 + len..]))
  {
    hide LeValue;
    if |s| >= 4 {
      ThreeValue(s[..3]);
    }
  }

  /** The payloads of `k` packets in a row. */
  function TakeAll(s: seq<byte>, n: nat, k: nat): Result<(seq<seq<byte>>, seq<byte>), FrameError>
    decreases k
  {
    if k == 0 then Ok(([], s))
    else
      match TakePacket(s, n)
      case Err(e) => Err(e)
      case Ok((payload, rest)) =>
        match TakeAll(rest, n + 1, k - 1)
        case Err(e) => Err(e)
        case Ok((payloads, left)) => Ok(([payload] + payloads, left))
  }

  lemma {:induction false} PacketsJoin(a: seq<seq<byte>>, b: seq<seq<byte>>, n: nat)
    ensures Packets(a + b, n) == Packets(a, n) + Packets(b, n + |a|)
    decreases |a|
  {
    hide Packet;
    if |a| == 0 {
      assert a + b == b;
    } else {
      PacketsJoin(a[1..], b, n + 1);
      assert (a + b)[1..] == a[1..] + b;
      ConcatAssoc(Packet(a[0], n), Packets(a[1..], n + 1), Packets(b, n + |a|));
    }
  }

  lemma NextAgrees(n: nat, m: nat)
    requires Number(n) == Number(m)
    ensures Number(n + 1) == Number(m + 1)
  {
  }

  /** A reader in step recovers every payload, past any number of wrap-arounds. */
  lemma {:induction false} PacketsBack(payloads: seq<seq<byte>>, n: nat, m: nat, rest: seq<byte>)
    requires Fit(payloads) && Number(n) == Number(m)
    ensures TakeAll(Packets(payloads, n) + rest, m, |payloads|) == Ok((payloads, rest))
    decreases |payloads|
  {
    hide TakePacket, Packet, Number;
    if |payloads| == 0 {
      assert Packets(payloads, n) + rest == rest;
    } else {
      NextAgrees(n, m);
      var tail := Packets(payloads[1..], n + 1) + rest;
      ConcatAssoc(Packet(payloads[0], n), Packets(payloads[1..], n + 1), rest);
      TakeExact(payloads[0], n, m, tail);
      PacketsBack(payloads[1..], n + 1, m + 1, rest);
      assert payloads == [payloads[0]] + payloads[1..];
    }
  }

  // ---- reading and writing in place ----

  lemma PacketIs(payload: seq<byte>, n: byte, header: seq<byte>)
    requires |payload| < MAX_PAYLOAD
    requires header == [|payload| % 256, |payload| / 256 % 256, |payload| / 0x1_0000 % 256, n]
    ensures Packet(payload, n) == header + payload
  {
    ThreeBytes(|payload|);
    assert header == LeBytes(|payload|, 3) + [Number(n)];
  }

  /** A connection: what has been written to it, and what is left to read. */
  class Stream {
    var sent: seq<byte>
    var pending: seq<byte>

    constructor (input: seq<byte>)
      ensures sent == [] && pending == input
    {
      sent, pending := [], input;
    }

    /** `write_packet`; a payload that does not fit is refused before anything is written. */
    method WritePacket(seqno: SequenceCounter, payload: seq<byte>) returns (ok: bool)
      modifies this`sent, seqno
      ensures ok <==> |payload| < MAX_PAYLOAD
      ensures sent == if ok then old(sent) + Packet(payload, old(seqno.value)) else old(sent)
      ensures seqno.value == if ok then Number(old(seqno.value) + 1) else old(seqno.value)
    {
      hide Packet;
      if |payload| >= MAX_PAYLOAD {
        return false;
      }
      var len := |payload|;
      var n := seqno.Next();
      var header: seq<byte> := [len % 256, len / 256 % 256, len / 0x1_0000 % 256, n];
      PacketIs(payload, n, header);
      ConcatAssoc(sent, header, payload);
      sent := sent + header;
      sent := sent + payload;
      return true;
    }

    /** `read_packet`. */
    method ReadPacket(seqno: SequenceCounter) returns (r: Result<seq<byte>, FrameError>)
      modifies this`pending, seqno
      ensures match TakePacket(old(pending), old(seqno.value))
              case Ok((payload, rest)) =>
                r == Ok(payload) && pending == rest && seqno.value == Number(old(seqno.value) + 1)
              case Err(e) => r == Err(e)
    {
      if |pending| < 4 {
        pending := [];
        return Err(UnexpectedEof);
      }
      var header := pending[..4];
      pending := pending[4..];
      ThreeValue(header[..3]);
      var len := header[0] as int + 256 * header[1] as int + 0x1_0000 * header[2] as int;
      assert header[..3] == old(pending)[..3];
      var ok := seqno.Expect(header[3]);
      if !ok {
        return Err(OutOfOrder);
      }
      if len == MAX_PAYLOAD {
        return Err(MultiPacket);
      }
      if |pending| < len {
        pending := [];
        return Err(UnexpectedEof);
      }
      var payload := pending[..len];
      pending := pending[len..];
      assert payload == old(pending)[4..4 + len];
      assert pending == old(pending)[4 + len..];
      return Ok(payload);
    }
  }

  lemma ThreeValue(b: seq<byte>)
    requires |b| == 3
    ensures LeValue(b) == b[0] as int + 256 * b[1] as int + 0x1_0000 * b[2] as int
  {
    assert LeValue(b[1..][1..]) == b[2] as int + 256 * LeValue(b[1..][1..][1..]);
    assert LeValue(b[1..]) == b[1] as int + 256 * LeValue(b[1..][1..]);
  }
}
