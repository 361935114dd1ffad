/** The lexical rules `inline_params` applies to a PostgreSQL statement, as a
    tokenizer: which bytes are quoted, commented or dollar-quoted text, which are a
    positional parameter, and which are plain. */
module PgLexer {
  import opened Bytes

  const QUOTE: byte := 39
  const DQUOTE: byte := 34
  const DASH: byte := 45
  const SLASH: byte := 47
  const STAR: byte := 42
  const DOLLAR: byte := 36
  const UNDERSCORE: byte := 95
  const NEWLINE: byte := 10

  /** The scanner's states. */
  datatype State = Normal | SQuote | DQuote | Line | Block | Dollar(delim: seq<byte>)

  /** What ends the span a state is inside of. */
  function Close(st: State): (p: seq<byte>)
    requires !st.Normal?
  {
    match st
    case SQuote => [QUOTE]
    case DQuote => [DQUOTE]
    case Line => [NEWLINE]
    case Block => [STAR, SLASH]
    case Dollar(d) => d
  }

  /** A plain byte, a `$n`, or a span of the kind its state names; an open span runs
      to the end of the text without being closed. */
  datatype Token =
    | Chr(text: seq<byte>)
    | Param(text: seq<byte>)
    | Span(st: State, text: seq<byte>, closed: bool)

  predicate IsTagByte(c: byte) { c == UNDERSCORE || IsAlpha(c) || IsDigit(c) }

  function TagEnd(s: seq<byte>, k: nat): (r: nat)
    requires k <= |s|
    ensures k <= r <= |s| && (forall j | k <= j < r :: IsTagByte(s[j])) && (r < |s| ==> !IsTagByte(s[r]))
    decreases |s| - k
  {
    if k < |s| && IsTagByte(s[k]) then TagEnd(s, k + 1) else k
  }

  /** The length of a dollar-quote delimiter `$tag$` at the front of `s`, or 0. */
  function DelimLen(s: seq<byte>): (n: nat)
    ensures n <= |s| && n != 1
  {
    if |s| > 1 && s[0] == DOLLAR && !IsDigit(s[1]) && TagEnd(s, 1) < |s| && s[TagEnd(s, 1)] == DOLLAR
    then TagEnd(s, 1) + 1
    else 0
  }

  predicate IsParam(s: seq<byte>) {
    |s| > 1 && s[0] == DOLLAR && IsDigit(s[1])
  }

  /** The state that the front of `s` opens, with the length of the opening mark. */
  function Opening(s: seq<byte>): (r: (State, nat))
    requires 0 < |s|
    ensures r.0.Normal? <==> r.1 == 0
    ensures r.1 <= |s|
    ensures !r.0.Normal? ==> 0 < |Close(r.0)|
  {
    if s[0] == QUOTE then (SQuote, 1)
    else if s[0] == DQUOTE then (DQuote, 1)
    else if |s| > 1 && s[0] == DASH && s[1] == DASH then (Line, 2)
    else if |s| > 1 && s[0] == SLASH && s[1] == STAR then (Block, 2)
    else if DelimLen(s) != 0 then (Dollar(s[..DelimLen(s)]), DelimLen(s))
    else (Normal, 0)
  }

  /** Where a span that is open at offset `k` ends: just past its first closing mark. */
  function SpanEnd(s: seq<byte>, k: nat, p: seq<byte>): (e: nat)
    requires k <= |s| && 0 < |p|
    ensures k <= e <= |s|
  {
    if Find(s, k, p) == -1 then |s| else Find(s, k, p) + |p|
  }

  /** The token at the front of `s`. */
  function First(s: seq<byte>): (t: Token)
    requires 0 < |s|
    ensures 0 < |t.text| <= |s| && t.text == s[..|t.text|]
  {
    var (st, n) := Opening(s);
    if !st.Normal? then Span(st, s[..SpanEnd(s, n, Close(st))], Find(s, n, Close(st)) != -1)
    else if IsParam(s) then Param(s[..DigitEnd(s, 1)])
    else Chr(s[..1])
  }

  function Lex(s: seq<byte>): seq<Token>
    decreases |s|
  {
    if |s| == 0 then [] else [First(s)] + Lex(s[|First(s).text|..])
  }

  function Text(ts: seq<Token>): seq<byte> {
    if |ts| == 0 then [] else ts[0].text + Text(ts[1..])
  }

  /** The tokens partition the text: nothing is dropped, added or reordered. */
  lemma {:induction false} LexLossless(s: seq<byte>)
    ensures Text(Lex(s)) == s
    decreases |s|
  {
    hide First;
    if 0 < |s| {
      var t := First(s);
      var rest := s[|t.text|..];
      LexLossless(rest);
      var ts := [t] + Lex(rest);
      assert Lex(s) == ts && ts[0] == t && ts[1..] == Lex(rest);
      assert Text(ts) == t.text + Text(Lex(rest));
      assert s == t.text + rest;
    }
  }

  /** The scanner's state after the whole text: inside the last span if that is open. */
  function Final(ts: seq<Token>): State {
    if |ts| > 0 && ts[|ts| - 1].Span? && !ts[|ts| - 1].closed then ts[|ts| - 1].st else Normal
  }
}
