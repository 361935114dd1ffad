/** Well-formed UTF-8 as a byte automaton, after the table of byte sequences in section 4
    of RFC 3629, and why inlining UTF-8 literals into UTF-8 text gives UTF-8 text. */
module Utf8 {
  import opened Bytes
  import opened PgLexer
  import opened PgInline

  /** Start: between characters. Tail(n): n continuation bytes to come. The others: the
      restricted second byte after 0xE0, 0xED, 0xF0 and 0xF4. */
  datatype Utf8State = Start | Tail(n: nat) | AfterE0 | AfterED | AfterF0 | AfterF4 | Bad

  function Move(q: Utf8State, c: byte): (r: Utf8State) {
    match q
    case Start =>
      if c < 0x80 then Start
      else if 0xC2 <= c <= 0xDF then Tail(1)
      else if c == 0xE0 then AfterE0
      else if c == 0xED then AfterED
      else if 0xE1 <= c <= 0xEF then Tail(2)
      else if c == 0xF0 then AfterF0
      else if 0xF1 <= c <= 0xF3 then Tail(3)
      else if c == 0xF4 then AfterF4
      else Bad
    case Tail(n) =>
      if !(0x80 <= c <= 0xBF) then Bad else if n <= 1 then Start else Tail(n - 1)
    case AfterE0 => if 0xA0 <= c <= 0xBF then Tail(1) else Bad
    case AfterED => if 0x80 <= c <= 0x9F then Tail(1) else Bad
    case AfterF0 => if 0x90 <= c <= 0xBF then Tail(2) else Bad
    case AfterF4 => if 0x80 <= c <= 0x8F then Tail(2) else Bad
    case Bad => Bad
  }

  function Run(q: Utf8State, s: seq<byte>): (r: Utf8State)
    decreases |s|
  {
    if |s| == 0 then q else Run(Move(q, s[0]), s[1..])
  }

  predicate IsUtf8(s: seq<byte>) {
    Run(Start, s) == Start
  }

  lemma {:induction false} RunConcat(q: Utf8State, a: seq<byte>, b: seq<byte>)
    ensures Run(q, a + b) == Run(Run(q, a), b)
    decreases |a|
  {
    if |a| == 0 {
      assert a + b == b;
    } else {
      RunConcat(Move(q, a[0]), a[1..], b);
      assert (a + b)[1..] == a[1..] + b;
    }
  }

  lemma {:induction false} BadStays(s: seq<byte>)
    ensures Run(Bad, s) == Bad
    decreases |s|
  {
    if 0 < |s| {
      BadStays(s[1..]);
    }
  }

  /** An ASCII byte is a whole character or an error, never part of a longer one. */
  lemma {:induction false} RunAscii(q: Utf8State, s: seq<byte>)
    requires 0 < |s| && forall i | 0 <= i < |s| :: s[i] < 0x80
    ensures Run(q, s) == if q == Start then Start else Bad
    decreases |s|
  {
    if q != Start {
      BadStays(s[1..]);
    } else if |s| > 1 {
      RunAscii(Start, s[1..]);
    }
  }

  lemma ParamIsAscii(s: seq<byte>)
    requires 0 < |s| && First(s).Param?
    ensures forall i | 0 <= i < |First(s).text| :: First(s).text[i] < 0x80
  {
  }

  /** Literals only ever stand where a character may begin, so they disturb nothing. */
  lemma {:induction false} InlineRun(q: Utf8State, s: seq<byte>, rendered: seq<seq<byte>>)
    requires forall i | 0 <= i < |rendered| :: IsUtf8(rendered[i])
    requires Run(q, s) == Start
    ensures Run(q, Inline(s, rendered)) == Start
    decreases |s|
  {
    hide Inline, First;
    if 0 < |s| {
      var t := First(s);
      var rest := s[|t.text|..];
      assert s == t.text + rest;
      RunConcat(q, t.text, rest);
      InlineStep(s, rendered);
      RunConcat(q, Replace(t, rendered), Inline(rest, rendered));
      if InRange(t, rendered) {
        ParamIsAscii(s);
        RunAscii(q, t.text);
        BadStays(rest);
      }
      InlineRun(Run(q, t.text), rest, rendered);
    } else {
      InlineEmpty(rendered);
    }
  }

  /** UTF-8 in, UTF-8 out: the final lossy decoding of `inline_params` replaces nothing. */
  lemma InlineUtf8(s: seq<byte>, rendered: seq<seq<byte>>)
    requires IsUtf8(s) && forall i | 0 <= i < |rendered| :: IsUtf8(rendered[i])
    ensures IsUtf8(Inline(s, rendered))
  {
    InlineRun(Start, s, rendered);
  }

  // ---- slicing text ----

  predicate Continuation(c: byte) { 0x80 <= c <= 0xBF }

  /** Text can be cut at `k` exactly where no character is cut: at its end, or before a byte that
      starts one. Rust panics on a slice of a `str` anywhere else. */
  lemma CutExact(s: seq<byte>, k: nat)
    requires IsUtf8(s) && k <= |s|
    ensures IsUtf8(s[..k]) <==> k == |s| || !Continuation(s[k])
  {
    assert s == s[..k] + s[k..];
    RunConcat(Start, s[..k], s[k..]);
    if k < |s| {
      BadStays(s[k..][1..]);
    }
  }
}
