/** The report of `mwsqld test --json` and the parser of the other binary that reads it. The
    printer and the parser share no code; that they agree is what is proved. */
module Probe {
  import opened Common

  datatype Report = Report(env: string, ok: bool, supported: bool, reason: string)

  // ---- the printer ----

  function HexDigit(n: nat): char
    requires n < 16
  {
    "0123456789abcdef"[n]
  }

  function EscapeChar(c: char): string {
    if c == '"' then "\\\""
    else if c == '\\' then "\\\\"
    else if c == '\n' then "\\n"
    else if c == '\r' then "\\r"
    else if c == '\t' then "\\t"
    else if c as int < 0x20 then "\\u00" + [HexDigit(c as int / 16), HexDigit(c as int % 16)]
    else [c]
  }

  function Escape(s: string): string {
    if |s| == 0 then [] else EscapeChar(s[0]) + Escape(s[1..])
  }

  /** `json_escape`. */
  method JsonEscape(s: string) returns (o: string)
    ensures o == Escape(s)
  {
    hide Escape, EscapeChar;
    o := [];
    assert s[0..] == s;
    for i := 0 to |s|
      invariant o + Escape(s[i..]) == Escape(s)
    {
      EscapeStep(s, i);
      Regroup(o, EscapeChar(s[i]), Escape(s[i + 1..]));
      o := o + EscapeChar(s[i]);
    }
    EscapeEnd(s);
  }

  lemma EscapeStep(s: string, i: nat)
    requires i < |s|
    ensures Escape(s[i..]) == EscapeChar(s[i]) + Escape(s[i + 1..])
  {
    hide EscapeChar;
    assert s[i..][1..] == s[i + 1..];
  }

  lemma EscapeEnd(s: string)
    ensures Escape(s[|s|..]) == []
  {
  }

  lemma Regroup(a: string, b: string, c: string)
    ensures (a + b) + c == a + (b + c)
  {
  }

  const OK := "{\"ok\":"
  const SUPPORTED := ",\"supported\":"
  const ENV := ",\"env\":\""
  const REASON := "\",\"reason\":\""
  const END := "\"}"

  function Bool(b: bool): string {
    if b then "true" else "false"
  }

  // A line and its tails, so that a position can be followed from piece to piece.

  function AfterReason(r: Report): string { Escape(r.reason) + END }
  function AfterEnv(r: Report): string { REASON + AfterReason(r) }
  function FromEnv(r: Report): string { Escape(r.env) + AfterEnv(r) }
  function AfterSupported(r: Report): string { ENV + FromEnv(r) }
  function FromSupported(r: Report): string { Bool(r.supported) + AfterSupported(r) }
  function AfterOk(r: Report): string { SUPPORTED + FromSupported(r) }
  function FromOk(r: Report): string { Bool(r.ok) + AfterOk(r) }

  /** One line of the report. */
  function Print(r: Report): string { OK + FromOk(r) }

  function PrintAll(rs: seq<Report>): string {
    if |rs| == 0 then [] else Print(rs[0]) + "\n" + PrintAll(rs[1..])
  }

  // ---- text functions of the standard library ----

  predicate OccursAt(s: string, t: string, p: nat) {
    p + |t| <= |s| && s[p..p + |t|] == t
  }

  function FindFrom(s: string, t: string, p: nat): (r: Option<nat>)
    ensures r.Some? ==> p <= r.value && OccursAt(s, t, r.value) && forall q: nat | p <= q < r.value :: !OccursAt(s, t, q)
    ensures r.None? ==> forall q: nat | p <= q :: !OccursAt(s, t, q)
    decreases |s| - p
  {
    if |s| < p + |t| then None else if OccursAt(s, t, p) then Some(p) else FindFrom(s, t, p + 1)
  }

  function Find(s: string, t: string): Option<nat> {
    FindFrom(s, t, 0)
  }

  predicate Contains(s: string, t: string) {
    Find(s, t).Some?
  }

  /** `rfind`, from `p` downwards. */
  function RFindFrom(s: string, t: string, p: nat): (r: Option<nat>)
    ensures r.Some? ==> r.value <= p && OccursAt(s, t, r.value) && forall q: nat | r.value < q <= p :: !OccursAt(s, t, q)
    ensures r.None? ==> forall q: nat | q <= p :: !OccursAt(s, t, q)
  {
    if OccursAt(s, t, p) then Some(p) else if p == 0 then None else RFindFrom(s, t, p - 1)
  }

  function RFind(s: string, t: string): Option<nat> {
    RFindFrom(s, t, |s|)
  }

  predicate White(c: char) {
    var n := c as int;
    || 0x9 <= n <= 0xD || n == 0x20 || n == 0x85 || n == 0xA0 || n == 0x1680 || 0x2000 <= n <= 0x200A
    || n == 0x2028 || n == 0x2029 || n == 0x202F || n == 0x205F || n == 0x3000
  }

  function Trim(s: string): string {
    if |s| > 0 && White(s[0]) then Trim(s[1..])
    else if |s| > 0 && White(s[|s| - 1]) then Trim(s[..|s| - 1])
    else s
  }

  function StripCr(s: string): string {
    if |s| > 0 && s[|s| - 1] == '\r' then s[..|s| - 1] else s
  }

  /** `str::lines`. */
  function Lines(s: string): seq<string> {
    if |s| == 0 then []
    else
      match Find(s, "\n")
      case None => [s]
      case Some(p) => [StripCr(s[..p])] + Lines(s[p + 1..])
  }

  // ---- the parser ----

  const REPLACEMENT := '\U{FFFD}'

  function Unescape(s: string): string {
    if |s| == 0 then []
    else if s[0] != '\\' then [s[0]] + Unescape(s[1..])
    else if |s| == 1 then []
    else if s[1] == 'n' then ['\n'] + Unescape(s[2..])
    else if s[1] == 'r' then ['\r'] + Unescape(s[2..])
    else if s[1] == 't' then ['\t'] + Unescape(s[2..])
    else if s[1] == 'u' then [REPLACEMENT] + Unescape(s[if |s| < 6 then |s| else 6..])
    else [s[1]] + Unescape(s[2..])
  }

  /** What the first escape or character of the rest stands for, and where it ends. */
  function Head(s: string, i: nat): (r: (string, nat))
    requires i < |s|
    ensures i < r.1 <= |s|
  {
    if s[i] != '\\' then ([s[i]], i + 1)
    else if i + 1 == |s| then ([], i + 1)
    else if s[i + 1] == 'n' then (['\n'], i + 2)
    else if s[i + 1] == 'r' then (['\r'], i + 2)
    else if s[i + 1] == 't' then (['\t'], i + 2)
    else if s[i + 1] == 'u' then ([REPLACEMENT], if |s| < i + 6 then |s| else i + 6)
    else ([s[i + 1]], i + 2)
  }

  lemma UnescapeStep(s: string, i: nat)
    requires i < |s|
    ensures Unescape(s[i..]) == Head(s, i).0 + Unescape(s[Head(s, i).1..])
  {
    var k := Head(s, i).1;
    assert s[i..][k - i..] == s[k..];
    if k == |s| {
      assert Unescape(s[k..]) == [];
    }
  }

  /** `unescape`: one pass, consuming an escape whole. */
  method UnescapeLoop(s: string) returns (o: string)
    ensures o == Unescape(s)
  {
    hide Unescape, Head;
    o := [];
    var i := 0;
    assert s[0..] == s;
    while i < |s|
      invariant i <= |s|
      invariant o + Unescape(s[i..]) == Unescape(s)
      decreases |s| - i
    {
      UnescapeStep(s, i);
      var text, next := NextText(s, i);
      Regroup(o, text, Unescape(s[next..]));
      o := o + text;
      i := next;
    }
    UnescapeEnd(s);
  }

  method NextText(s: string, i: nat) returns (text: string, next: nat)
    requires i < |s|
    ensures (text, next) == Head(s, i)
  {
    var c := s[i];
    next := i + 1;
    if c != '\\' {
      return [c], next;
    }
    if next == |s| {
      return [], next;
    }
    var e := s[next];
    next := next + 1;
    match e
    case 'n' => text := ['\n'];
    case 'r' => text := ['\r'];
    case 't' => text := ['\t'];
    case 'u' =>
      for skipped := 0 to 4
        invariant next == if |s| < i + 2 + skipped then |s| else i + 2 + skipped
      {
        if next < |s| {
          next := next + 1;
        }
      }
      text := [REPLACEMENT];
    case _ => text := [e];
  }

  lemma UnescapeEnd(s: string)
    ensures Unescape(s[|s|..]) == []
  {
  }

  const REASON_KEY := "\"reason\":\""
  const ENV_KEY := "\"env\":\""

  function ExtractReason(line: string): Option<string> {
    match Find(line, REASON_KEY)
    case None => None
    case Some(p) =>
      var rest := line[p + |REASON_KEY|..];
      match RFind(rest, END)
      case None => None
      case Some(e) => Some(Unescape(rest[..e]))
  }

  function ExtractField(line: string, key: string): Option<string> {
    var needle := "\"" + key + "\":\"";
    match Find(line, needle)
    case None => None
    case Some(p) =>
      var rest := line[p + |needle|..];
      match Find(rest, "\"")
      case None => None
      case Some(e) => Some(rest[..e])
  }

  // ---- escaping is undone, but for control characters ----

  /** A character as it comes back: control characters other than the three with an escape of
      their own are replaced. */
  function LossyChar(c: char): char {
    if c as int < 0x20 && c != '\n' && c != '\r' && c != '\t' then REPLACEMENT else c
  }

  function Lossy(s: string): (r: string)
    ensures |r| == |s|
    ensures forall i | 0 <= i < |s| :: r[i] == LossyChar(s[i])
  {
    if |s| == 0 then [] else [LossyChar(s[0])] + Lossy(s[1..])
  }

  lemma UnescapeHead(c: char, rest: string)
    ensures Unescape(EscapeChar(c) + rest) == [LossyChar(c)] + Unescape(rest)
  {
    var e := EscapeChar(c);
    assert (e + rest)[|e|..] == rest;
    if |e| == 1 {
      assert c != '\\';
    } else {
      assert (e + rest)[0] == '\\' && (e + rest)[1] == e[1];
    }
  }

  lemma {:induction false} UnescapeEscape(s: string)
    ensures Unescape(Escape(s)) == Lossy(s)
  {
    if |s| > 0 {
      UnescapeHead(s[0], Escape(s[1..]));
      UnescapeEscape(s[1..]);
    }
  }

  // ---- and read by any JSON parser ----

  function HexValue(c: char): Option<nat> {
    if '0' <= c <= '9' then Some((c - '0') as nat)
    else if 'a' <= c <= 'f' then Some((c - 'a') as nat + 10)
    else if 'A' <= c <= 'F' then Some((c - 'A') as nat + 10)
    else None
  }

  /** The inside of a JSON string, by section 7 of RFC 8259 (no `\b`, `\f` or `\/`, and no escape
      beyond U+00FF, is ever printed here; they are taken as errors). */
  function JsonRead(s: string): Option<string> {
    if |s| == 0 then Some([])
    else if s[0] == '"' || s[0] as int < 0x20 then None
    else if s[0] != '\\' then Prefixed(s[0], JsonRead(s[1..]))
    else if |s| == 1 then None
    else if s[1] == '"' || s[1] == '\\' then Prefixed(s[1], JsonRead(s[2..]))
    else if s[1] == 'n' then Prefixed('\n', JsonRead(s[2..]))
    else if s[1] == 'r' then Prefixed('\r', JsonRead(s[2..]))
    else if s[1] == 't' then Prefixed('\t', JsonRead(s[2..]))
    else if s[1] == 'u' && |s| >= 6 && s[2] == '0' && s[3] == '0' && HexValue(s[4]).Some? && HexValue(s[5]).Some? then
      Prefixed((16 * HexValue(s[4]).value + HexValue(s[5]).value) as char, JsonRead(s[6..]))
    else None
  }

  function Prefixed(c: char, rest: Option<string>): Option<string> {
    if rest.Some? then Some([c] + rest.value) else None
  }

  lemma HexBack(n: nat)
    requires n < 16
    ensures HexValue(HexDigit(n)) == Some(n)
  {
  }

  lemma JsonHead(c: char, rest: string)
    ensures JsonRead(EscapeChar(c) + rest) == Prefixed(c, JsonRead(rest))
  {
    hide HexDigit, HexValue;
    var e := EscapeChar(c);
    assert (e + rest)[|e|..] == rest;
    if |e| > 1 {
      assert (e + rest)[0] == '\\' && (e + rest)[1] == e[1];
    }
    if |e| == 6 {
      HexBack(c as int / 16);
      HexBack(c as int % 16);
      assert (e + rest)[2] == e[2] && (e + rest)[3] == e[3] && (e + rest)[4] == e[4] && (e + rest)[5] == e[5];
    }
  }

  /** What is printed is a JSON string, and a JSON parser reads the text back, control characters
      included. */
  lemma {:induction false} JsonBack(s: string)
    ensures JsonRead(Escape(s)) == Some(s)
  {
    hide EscapeChar, JsonRead;
    if |s| > 0 {
      JsonHead(s[0], Escape(s[1..]));
      JsonBack(s[1..]);
      assert s == [s[0]] + s[1..];
    } else {
      JsonNothing();
    }
  }

  lemma JsonNothing()
    ensures JsonRead("") == Some("")
  {
  }

  /** Escaped text has no line break, and no quote without a backslash before it. */
  lemma {:induction false} EscapedText(s: string)
    ensures forall i | 0 <= i < |Escape(s)| :: Escape(s)[i] != '\n' && Escape(s)[i] != '\r'
    ensures forall i | 0 <= i < |Escape(s)| && Escape(s)[i] == '"' :: 0 < i && Escape(s)[i - 1] == '\\'
  {
    hide EscapeChar;
    if |s| > 0 {
      EscapedText(s[1..]);
      EscapedChar(s[0]);
    }
  }

  lemma EscapedChar(c: char)
    ensures var e := EscapeChar(c);
      |e| > 0 && forall i | 0 <= i < |e| :: e[i] != '\n' && e[i] != '\r' && (e[i] == '"' ==> i == 1 && e[0] == '\\')
  {
  }

  // ---- where a key can be ----

  /** A key that ends in `c` has its closing quote at `i`. */
  predicate Closes(s: string, c: char, i: int) {
    1 <= i && i + 1 < |s| && s[i - 1] == c && s[i] == '"' && s[i + 1] == ':'
  }

  /** Nothing of the kind straddles the joint. */
  predicate CleanJoint(a: string, b: string, c: char) {
    && !(|a| > 1 && |b| > 0 && a[|a| - 2] == c && a[|a| - 1] == '"' && b[0] == ':')
    && !(|a| > 0 && |b| > 1 && a[|a| - 1] == c && b[0] == '"' && b[1] == ':')
  }

  lemma Joint(a: string, b: string, c: char, i: int)
    requires CleanJoint(a, b, c)
    ensures Closes(a + b, c, i) <==> Closes(a, c, i) || Closes(b, c, i - |a|)
  {
  }

  /** Each literal piece of a line closes one key, the two flags and the two strings none. */
  lemma LiteralPieces(c: char, i: int)
    ensures Closes(OK, c, i) ==> i == 4 && c == 'k'
    ensures Closes(SUPPORTED, c, i) ==> i == 11 && c == 'd'
    ensures Closes(ENV, c, i) ==> i == 5 && c == 'v'
    ensures Closes(REASON, c, i) ==> i == 9 && c == 'n'
    ensures !Closes(END, c, i)
    ensures !Closes("true", c, i) && !Closes("false", c, i)
  {
  }

  predicate KeyEnd(c: char) {
    c == 'k' || c == 'd' || c == 'v' || c == 'n'
  }

  lemma InReason(r: Report, c: char, i: int)
    requires KeyEnd(c)
    ensures !Closes(AfterReason(r), c, i)
  {
    hide Escape;
    EscapedText(r.reason);
    Joint(Escape(r.reason), END, c, i);
    LiteralPieces(c, i - |Escape(r.reason)|);
  }

  lemma InEnv(r: Report, c: char, i: int)
    requires KeyEnd(c) && Closes(FromEnv(r), c, i)
    ensures c == 'n' && i == |Escape(r.env)| + 9
  {
    hide Escape, AfterReason;
    EscapedText(r.env);
    var j := i - |Escape(r.env)|;
    Joint(Escape(r.env), AfterEnv(r), c, i);
    Joint(REASON, AfterReason(r), c, j);
    LiteralPieces(c, j);
    InReason(r, c, j - |REASON|);
  }

  lemma InSupported(r: Report, c: char, i: int)
    requires KeyEnd(c) && Closes(FromSupported(r), c, i)
    ensures var at := |Bool(r.supported)|;
      (c == 'v' && i == at + 5) || (c == 'n' && i == at + |ENV| + |Escape(r.env)| + 9)
  {
    hide Escape, FromEnv;
    var j := i - |Bool(r.supported)|;
    Joint(Bool(r.supported), AfterSupported(r), c, i);
    LiteralPieces(c, i);
    Joint(ENV, FromEnv(r), c, j);
    LiteralPieces(c, j);
    if Closes(FromEnv(r), c, j - |ENV|) {
      InEnv(r, c, j - |ENV|);
    }
  }

  /** Where the strings of a line begin. */
  function SupportedAt(r: Report): nat { |OK| + |Bool(r.ok)| + |SUPPORTED| }
  function EnvAt(r: Report): nat { SupportedAt(r) + |Bool(r.supported)| + |ENV| }
  function ReasonAt(r: Report): nat { EnvAt(r) + |Escape(r.env)| + |REASON| }

  /** Where the key that ends in `c` closes. */
  function KeyAt(r: Report, c: char): int
    requires KeyEnd(c)
  {
    match c
    case 'k' => 4
    case 'd' => SupportedAt(r) - 2
    case 'v' => EnvAt(r) - 3
    case _ => ReasonAt(r) - 3
  }

  /** Whatever the env and the reason contain, a key closes only where the printer put it. */
  lemma KeyPosition(r: Report, c: char, i: int)
    requires KeyEnd(c) && Closes(Print(r), c, i)
    ensures i == KeyAt(r, c)
  {
    hide Escape, AfterOk;
    var j := i - |OK|;
    Joint(OK, FromOk(r), c, i);
    LiteralPieces(c, i);
    if !Closes(OK, c, i) {
      InFlags(r, c, j);
    }
  }

  lemma InFlags(r: Report, c: char, i: int)
    requires KeyEnd(c) && Closes(FromOk(r), c, i)
    ensures var at := |Bool(r.ok)| + |SUPPORTED|;
      || (c == 'd' && i == at - 2)
      || (c == 'v' && i == at + |Bool(r.supported)| + 5)
      || (c == 'n' && i == at + |Bool(r.supported)| + |ENV| + |Escape(r.env)| + 9)
  {
    hide Escape, FromSupported;
    var j := i - |Bool(r.ok)|;
    Joint(Bool(r.ok), AfterOk(r), c, i);
    LiteralPieces(c, i);
    Joint(SUPPORTED, FromSupported(r), c, j);
    LiteralPieces(c, j);
    if !Closes(SUPPORTED, c, j) {
      InSupported(r, c, j - |SUPPORTED|);
    }
  }

  /** What follows a piece. */
  lemma Skip(s: string, from: nat, piece: string, rest: string)
    requires from <= |s| && s[from..] == piece + rest
    ensures from + |piece| <= |s| && s[from + |piece|..] == rest
  {
    assert s[from + |piece|..] == s[from..][|piece|..];
  }

  /** The line seen from each of its pieces. */
  lemma LineSplits(r: Report)
    ensures ReasonAt(r) <= |Print(r)|
    ensures Print(r)[|OK|..] == FromOk(r)
    ensures Print(r)[SupportedAt(r) - |SUPPORTED|..] == AfterOk(r)
    ensures Print(r)[SupportedAt(r)..] == FromSupported(r)
    ensures Print(r)[EnvAt(r) - |ENV|..] == AfterSupported(r)
    ensures Print(r)[EnvAt(r)..] == FromEnv(r)
    ensures Print(r)[ReasonAt(r) - |REASON|..] == AfterEnv(r)
    ensures Print(r)[ReasonAt(r)..] == AfterReason(r)
  {
    hide Escape, OK, SUPPORTED, ENV, REASON, END, Bool, AfterSupported, FromEnv, AfterEnv, AfterReason;
    FlagSplits(r);
    StringSplits(r, Print(r), SupportedAt(r));
  }

  lemma FlagSplits(r: Report)
    ensures SupportedAt(r) <= |Print(r)|
    ensures Print(r)[|OK|..] == FromOk(r)
    ensures Print(r)[SupportedAt(r) - |SUPPORTED|..] == AfterOk(r)
    ensures Print(r)[SupportedAt(r)..] == FromSupported(r)
  {
    hide OK, SUPPORTED, Bool, FromSupported;
    var line := Print(r);
    Skip(line, 0, OK, FromOk(r));
    Skip(line, |OK|, Bool(r.ok), AfterOk(r));
    Skip(line, |OK| + |Bool(r.ok)|, SUPPORTED, FromSupported(r));
  }

  lemma StringSplits(r: Report, line: string, at: nat)
    requires at <= |line| && line[at..] == FromSupported(r)
    ensures var env := at + |Bool(r.supported)| + |ENV|; var reason := env + |Escape(r.env)| + |REASON|;
      && reason <= |line|
      && line[env - |ENV|..] == AfterSupported(r) && line[env..] == FromEnv(r)
      && line[reason - |REASON|..] == AfterEnv(r) && line[reason..] == AfterReason(r)
  {
    hide Escape, ENV, REASON, Bool, AfterReason;
    var env := at + |Bool(r.supported)| + |ENV|;
    Skip(line, at, Bool(r.supported), AfterSupported(r));
    Skip(line, env - |ENV|, ENV, FromEnv(r));
    Skip(line, env, Escape(r.env), AfterEnv(r));
    Skip(line, env + |Escape(r.env)|, REASON, AfterReason(r));
  }

  // ---- reading a line back ----

  lemma KeyOfOccurrence(s: string, t: string, p: nat, c: char, k: nat)
    requires OccursAt(s, t, p) && Closes(t, c, k)
    ensures Closes(s, c, p + k)
  {
    assert forall i | 0 <= i < |t| :: t[i] == s[p..p + |t|][i] == s[p + i];
  }

  /** A text inside a piece occurs where the piece puts it. */
  lemma OccursInPiece(s: string, from: nat, piece: string, rest: string, t: string, off: nat)
    requires from <= |s| && s[from..] == piece + rest
    requires OccursAt(piece, t, off)
    ensures OccursAt(s, t, from + off)
  {
    assert s[from + off..from + off + |t|] == (piece + rest)[off..off + |t|] == piece[off..off + |t|];
  }

  /** A text that closes a key occurs nowhere but at that key. */
  lemma OccursAtKey(r: Report, t: string, c: char, k: nat, q: nat)
    requires KeyEnd(c) && Closes(t, c, k) && OccursAt(Print(r), t, q)
    ensures q + k == KeyAt(r, c)
  {
    hide Print, KeyAt;
    KeyOfOccurrence(Print(r), t, q, c, k);
    KeyPosition(r, c, q + k);
  }

  /** Searching for a key finds it where the printer put it. */
  lemma KeyFound(r: Report, t: string, c: char, k: nat, at: nat)
    requires KeyEnd(c) && Closes(t, c, k) && OccursAt(Print(r), t, at)
    ensures Find(Print(r), t) == Some(at)
  {
    hide Print, KeyAt;
    OccursAtKey(r, t, c, k, at);
    var found := Find(Print(r), t).value;
    OccursAtKey(r, t, c, k, found);
  }

  /** A flag read where one is printed is the flag printed. */
  lemma FlagRead(s: string, key: string, b: bool, p: nat, printed: bool, rest: string)
    requires OccursAt(s, key + Bool(b), p) && s[p + |key|..] == Bool(printed) + rest
    ensures b == printed
  {
    var t := key + Bool(b);
    assert t[|key|] == s[p..p + |t|][|key|] == s[p + |key|];
    assert s[p + |key|] == s[p + |key|..][0] == Bool(printed)[0];
    assert t[|key|] == Bool(b)[0];
  }

  /** A flag right after the only occurrence of its key: the test for a value finds it exactly
      when it is the value printed. */
  lemma FlagTest(line: string, key: string, at: nat, printed: bool, rest: string, b: bool)
    requires OccursAt(line, key, at) && line[at + |key|..] == Bool(printed) + rest
    requires forall q: nat | OccursAt(line, key + Bool(b), q) :: q == at
    ensures Contains(line, key + Bool(b)) <==> b == printed
  {
    var t, from := key + Bool(b), at + |key|;
    if b == printed {
      assert line[at..at + |t|] == line[at..from] + line[from..][..|Bool(b)|];
      assert OccursAt(line, t, at);
    }
    if Contains(line, t) {
      FlagRead(line, key, b, Find(line, t).value, printed, rest);
    }
  }

  const OK_KEY := "\"ok\":"
  const SUPPORTED_KEY := "\"supported\":"

  lemma FlagPieces(b: bool)
    ensures |OK| == 6 && |OK_KEY| == 5 && OccursAt(OK, OK_KEY, 1) && Closes(OK_KEY + Bool(b), 'k', 3)
    ensures |SUPPORTED| == 13 && |SUPPORTED_KEY| == 12 && OccursAt(SUPPORTED, SUPPORTED_KEY, 1)
    ensures Closes(SUPPORTED_KEY + Bool(b), 'd', 10)
  {
  }

  /** The tests for a flag find exactly the flag printed. */
  lemma OkTest(r: Report, b: bool)
    ensures Contains(Print(r), OK_KEY + Bool(b)) <==> r.ok == b
  {
    hide AfterOk, OK, SUPPORTED, ENV, REASON, END, OK_KEY, Find, Print, OccursAt, Closes, Bool, Contains;
    LineSplits(r);
    FlagPieces(b);
    PrintDef(r);
    OccursInPiece(Print(r), 0, OK, FromOk(r), OK_KEY, 1);
    forall q: nat | OccursAt(Print(r), OK_KEY + Bool(b), q)
      ensures q == 1
    {
      OccursAtKey(r, OK_KEY + Bool(b), 'k', 3, q);
    }
    FlagTest(Print(r), OK_KEY, 1, r.ok, AfterOk(r), b);
  }

  lemma PrintDef(r: Report)
    ensures Print(r)[0..] == OK + FromOk(r)
  {
  }

  lemma SupportedTest(r: Report, b: bool)
    ensures Contains(Print(r), SUPPORTED_KEY + Bool(b)) <==> r.supported == b
  {
    hide AfterSupported, OK, SUPPORTED, ENV, REASON, END, SUPPORTED_KEY, Find, Print, OccursAt, Closes, Bool, Contains;
    LineSplits(r);
    FlagPieces(b);
    var at := SupportedAt(r);
    OccursInPiece(Print(r), at - |SUPPORTED|, SUPPORTED, FromSupported(r), SUPPORTED_KEY, 1);
    forall q: nat | OccursAt(Print(r), SUPPORTED_KEY + Bool(b), q)
      ensures q == at - 12
    {
      OccursAtKey(r, SUPPORTED_KEY + Bool(b), 'd', 10, q);
    }
    FlagTest(Print(r), SUPPORTED_KEY, at - 12, r.supported, AfterSupported(r), b);
  }

  /** The reason comes back as printed, control characters replaced. */
  lemma ReasonBack(r: Report)
    ensures ExtractReason(Print(r)) == Some(Lossy(r.reason))
  {
    hide Escape, Unescape, Lossy, Print, OK, SUPPORTED, ENV, REASON, Find;
    var line, at := Print(r), ReasonAt(r);
    ReasonKey(r);
    LineSplits(r);
    var rest, n := line[at..], |Escape(r.reason)|;
    assert rest == Escape(r.reason) + END;
    assert rest[n..n + |END|] == END;
    assert OccursAt(rest, END, n);
    assert RFind(rest, END) == Some(n);
    assert rest[..n] == Escape(r.reason);
    UnescapeEscape(r.reason);
  }

  lemma ReasonKey(r: Report)
    ensures ReasonAt(r) >= 10 && Find(Print(r), REASON_KEY) == Some(ReasonAt(r) - 10)
  {
    hide Escape, AfterReason, Print, OK, SUPPORTED, ENV, REASON, END, REASON_KEY, Find, OccursAt, Closes, Bool;
    LineSplits(r);
    KeyPieces();
    OccursInPiece(Print(r), ReasonAt(r) - |REASON|, REASON, AfterReason(r), REASON_KEY, 2);
    KeyFound(r, REASON_KEY, 'n', 7, ReasonAt(r) - 10);
  }

  lemma EnvKey(r: Report)
    ensures EnvAt(r) >= 7 && Find(Print(r), ENV_KEY) == Some(EnvAt(r) - 7)
  {
    hide Escape, FromEnv, Print, OK, SUPPORTED, ENV, REASON, END, ENV_KEY, Find, OccursAt, Closes, Bool;
    LineSplits(r);
    KeyPieces();
    OccursInPiece(Print(r), EnvAt(r) - |ENV|, ENV, FromEnv(r), ENV_KEY, 1);
    KeyFound(r, ENV_KEY, 'v', 4, EnvAt(r) - 7);
  }

  lemma KeyPieces()
    ensures |REASON| == 12 && OccursAt(REASON, REASON_KEY, 2) && Closes(REASON_KEY, 'n', 7)
    ensures |ENV| == 8 && OccursAt(ENV, ENV_KEY, 1) && Closes(ENV_KEY, 'v', 4)
  {
  }

  /** Everything before the first quote. */
  function UpToQuote(s: string): string {
    if |s| == 0 || s[0] == '"' then [] else [s[0]] + UpToQuote(s[1..])
  }

  /** No character of the name needs an escape. */
  predicate Plain(s: string) {
    forall i | 0 <= i < |s| :: EscapeChar(s[i]) == [s[i]]
  }

  /** The env name is read up to the first quote of its escaped form, which is the name itself
      exactly when nothing in it needs an escape. */
  lemma EnvBack(r: Report)
    ensures ExtractField(Print(r), "env") == Some(UpToQuote(Escape(r.env)))
    ensures UpToQuote(Escape(r.env)) == r.env <==> Plain(r.env)
  {
    hide Escape, UpToQuote, Print, OK, SUPPORTED, ENV, END, AfterReason, Find, Plain;
    assert "\"" + "env" + "\":\"" == ENV_KEY;
    EnvKey(r);
    LineSplits(r);
    FirstQuote(Escape(r.env), AfterEnv(r));
    PlainExact(r.env);
  }

  lemma {:induction false} FirstQuote(s: string, rest: string)
    requires |rest| > 0 && rest[0] == '"'
    ensures Find(s + rest, "\"").Some? && (s + rest)[..Find(s + rest, "\"").value] == UpToQuote(s)
  {
    var n := |UpToQuote(s)|;
    PrefixUpToQuote(s);
    assert (s + rest)[n] == '"';
    assert (s + rest)[n..n + 1] == "\"";
    assert OccursAt(s + rest, "\"", n);
    var e := Find(s + rest, "\"").value;
    assert (s + rest)[e] == (s + rest)[e..e + 1][0] == '"';
    assert forall i | 0 <= i < n :: (s + rest)[i] == UpToQuote(s)[i] != '"';
    assert (s + rest)[..n] == s[..n];
  }

  lemma {:induction false} PrefixUpToQuote(s: string)
    ensures var t := UpToQuote(s);
      && |t| <= |s| && t == s[..|t|] && (|t| < |s| ==> s[|t|] == '"')
      && forall i | 0 <= i < |t| :: t[i] != '"'
  {
    if |s| > 0 && s[0] != '"' {
      PrefixUpToQuote(s[1..]);
      assert s == [s[0]] + s[1..];
    }
  }

  lemma PlainExact(s: string)
    ensures UpToQuote(Escape(s)) == s <==> Plain(s)
  {
    PrefixUpToQuote(Escape(s));
    if Plain(s) {
      PlainEscape(s);
    }
    if UpToQuote(Escape(s)) == s {
      assert forall i | 0 <= i < |s| :: s[i] != '"';
      EscapeGrows(s);
    }
  }

  lemma {:induction false} PlainEscape(s: string)
    requires Plain(s)
    ensures Escape(s) == s && UpToQuote(s) == s
  {
    if |s| > 0 {
      assert EscapeChar(s[0]) == [s[0]];
      PlainEscape(s[1..]);
      assert s == [s[0]] + s[1..];
    }
  }

  /** Without quotes nothing is cut off, and every escape adds length. */
  lemma {:induction false} EscapeGrows(s: string)
    requires forall i | 0 <= i < |s| :: s[i] != '"'
    ensures UpToQuote(Escape(s)) == Escape(s) && |Escape(s)| >= |s|
    ensures |Escape(s)| == |s| ==> Plain(s)
  {
    hide EscapeChar;
    if |s| > 0 {
      EscapeGrows(s[1..]);
      NoQuoteChar(s[0]);
      SkipChar(EscapeChar(s[0]), Escape(s[1..]));
    }
  }

  lemma NoQuoteChar(c: char)
    requires c != '"'
    ensures var e := EscapeChar(c);
      && (forall i | 0 <= i < |e| :: e[i] != '"')
      && |e| >= 1 && (|e| == 1 ==> e == [c])
  {
  }

  lemma {:induction false} SkipChar(e: string, rest: string)
    requires forall i | 0 <= i < |e| :: e[i] != '"'
    ensures UpToQuote(e + rest) == e + UpToQuote(rest)
  {
    if |e| == 0 {
      assert e + rest == rest;
    } else {
      SkipChar(e[1..], rest);
      assert (e + rest)[1..] == e[1..] + rest;
    }
  }

  // ---- the whole report ----

  /** What `mwsqld test --json` prints. */
  function Stdout(rs: seq<Report>): string {
    if |rs| == 0 then EMPTY_MARKER + "\n" else PrintAll(rs)
  }

  const EMPTY_MARKER := "{\"envs\":0}"

  /** ... and whether it exits with success. */
  predicate AllOk(rs: seq<Report>) {
    forall i | 0 <= i < |rs| :: rs[i].ok || !rs[i].supported
  }

  /** The output of the test command, line by line, with the exit status it works up to. */
  method TestAll(rs: seq<Report>) returns (out: string, allOk: bool)
    ensures out == Stdout(rs) && allOk == AllOk(rs)
  {
    hide Print;
    if |rs| == 0 {
      return EMPTY_MARKER + "\n", true;
    }
    out, allOk := [], true;
    assert rs[0..] == rs;
    for i := 0 to |rs|
      invariant out + PrintAll(rs[i..]) == PrintAll(rs)
      invariant allOk == AllOk(rs[..i])
    {
      allOk := allOk && (rs[i].ok || !rs[i].supported);
      assert rs[..i + 1] == rs[..i] + [rs[i]];
      assert rs[i..][1..] == rs[i + 1..];
      Regroup(out, Print(rs[i]) + "\n", PrintAll(rs[i + 1..]));
      out := out + (Print(rs[i]) + "\n");
    }
    assert rs[..|rs|] == rs;
  }

  predicate Brace(line: string) {
    |line| > 0 && line[0] == '{'
  }

  function OrEmpty(s: Option<string>): string {
    if s.Some? then s.value else ""
  }

  function FailureText(line: string): string {
    var reason := OrEmpty(ExtractReason(line));
    if |reason| > 0 then reason
    else
      match ExtractField(line, "env")
      case Some(e) => "env " + e + " failed"
      case None => "connection failed"
  }

  predicate Fails(line: string) {
    Brace(line) && Contains(line, OK_KEY + "false") && !Contains(line, SUPPORTED_KEY + "false")
  }

  function FirstFailure(lines: seq<string>): Option<string> {
    if |lines| == 0 then None
    else if Fails(Trim(lines[0])) then Some(FailureText(Trim(lines[0])))
    else FirstFailure(lines[1..])
  }

  /** `first_failure_reason`. */
  method FirstFailureReason(stdout: string) returns (r: Option<string>)
    ensures r == FirstFailure(Lines(stdout))
  {
    hide Fails, FailureText, Trim, Lines;
    var lines := Lines(stdout);
    assert lines[0..] == lines;
    for i := 0 to |lines|
      invariant FirstFailure(lines[i..]) == FirstFailure(lines)
    {
      assert lines[i..][1..] == lines[i + 1..];
      var line := Trim(lines[i]);
      if Fails(line) {
        return Some(FailureText(line));
      }
    }
    return None;
  }

  /** The note so far, while no env has connected. */
  function Skim(lines: seq<string>, note: Option<string>): Option<string> {
    if |lines| == 0 then note
    else
      var line := Trim(lines[0]);
      if Brace(line) && Contains(line, OK_KEY + "true") then None
      else Skim(lines[1..], if note.None? && Notes(line) then Some(OrEmpty(ExtractReason(line))) else note)
  }

  predicate Notes(line: string) {
    Brace(line) && Contains(line, SUPPORTED_KEY + "false")
  }

  function UnsupportedOnly(lines: seq<string>): Option<string> {
    match Skim(lines, None)
    case None => None
    case Some(r) => Some(if |r| == 0 then "engine not supported yet" else r)
  }

  /** `unsupported_only_reason`. */
  method UnsupportedOnlyReason(stdout: string) returns (r: Option<string>)
    ensures r == UnsupportedOnly(Lines(stdout))
  {
    hide Notes, Trim, Lines, Contains, ExtractReason;
    var lines := Lines(stdout);
    var note: Option<string> := None;
    assert lines[0..] == lines;
    for i := 0 to |lines|
      invariant Skim(lines[i..], note) == Skim(lines, None)
    {
      assert lines[i..][1..] == lines[i + 1..];
      var line := Trim(lines[i]);
      if Brace(line) && Contains(line, OK_KEY + "true") {
        return None;
      }
      if Notes(line) && note.None? {
        note := Some(OrEmpty(ExtractReason(line)));
      }
    }
    if note.None? {
      return None;
    }
    return Some(if |note.value| == 0 then "engine not supported yet" else note.value);
  }

  predicate HasEmptyMarker(lines: seq<string>) {
    exists i | 0 <= i < |lines| :: Trim(lines[i]) == EMPTY_MARKER
  }

  datatype Validation = Passed | Failed(reason: string) | Skipped(note: string)

  /** `validate`, from the exit status and the output. */
  function Verdict(success: bool, stdout: string): Validation {
    var lines := Lines(stdout);
    if HasEmptyMarker(lines) then Skipped("no environments configured")
    else if success then
      match UnsupportedOnly(lines)
      case Some(note) => Skipped(note)
      case None => Passed
    else
      var reason := OrEmpty(FirstFailure(lines));
      Failed(if |reason| == 0 then "connection failed" else reason)
  }

  // ---- a printed line is one line ----

  predicate NoBreak(s: string) {
    forall i | 0 <= i < |s| :: s[i] != '\n' && s[i] != '\r'
  }

  lemma NoBreakJoin(a: string, b: string)
    requires NoBreak(a) && NoBreak(b)
    ensures NoBreak(a + b)
  {
  }

  lemma NoBreakPieces()
    ensures NoBreak(OK) && NoBreak(SUPPORTED) && NoBreak(ENV) && NoBreak(REASON) && NoBreak(END)
    ensures NoBreak(Bool(true)) && NoBreak(Bool(false))
  {
  }

  lemma NoBreakLine(r: Report)
    ensures NoBreak(Print(r))
  {
    hide NoBreak, OK, SUPPORTED, ENV, REASON, END, Bool, Escape;
    NoBreakPieces();
    NoBreakEscaped(r.reason);
    NoBreakEscaped(r.env);
    NoBreakJoin(Escape(r.reason), END);
    NoBreakJoin(REASON, AfterReason(r));
    NoBreakJoin(Escape(r.env), AfterEnv(r));
    NoBreakJoin(ENV, FromEnv(r));
    NoBreakJoin(Bool(r.supported), AfterSupported(r));
    NoBreakJoin(SUPPORTED, FromSupported(r));
    NoBreakJoin(Bool(r.ok), AfterOk(r));
    NoBreakJoin(OK, FromOk(r));
  }

  lemma NoBreakEscaped(s: string)
    ensures NoBreak(Escape(s))
  {
    EscapedText(s);
  }

  /** Trimming leaves it, and it is not the marker of an empty report. */
  lemma LineTrims(r: Report)
    ensures Trim(Print(r)) == Print(r) && Brace(Print(r)) && Print(r) != EMPTY_MARKER
  {
    hide Escape, FromOk, SUPPORTED, ENV, REASON, Trim;
    LineSplits(r);
    var line := Print(r);
    assert line[0] == OK[0] == '{' && line[2] == OK[2] == 'o';
    assert AfterReason(r)[|AfterReason(r)| - 1] == END[1];
    assert line[|line| - 1] == line[ReasonAt(r)..][|AfterReason(r)| - 1] == '}';
    TrimsNothing(line);
  }

  lemma TrimsNothing(s: string)
    requires |s| > 0 && !White(s[0]) && !White(s[|s| - 1])
    ensures Trim(s) == s
  {
  }

  lemma LinesHead(line: string, rest: string)
    requires NoBreak(line)
    ensures Lines(line + "\n" + rest) == [line] + Lines(rest)
  {
    hide Lines;
    var s, n := line + "\n" + rest, |line|;
    assert s[n..n + 1] == "\n";
    assert OccursAt(s, "\n", n);
    forall q: nat | q < n
      ensures !OccursAt(s, "\n", q)
    {
      assert s[q..q + 1][0] == line[q];
    }
    assert Find(s, "\n") == Some(n);
    assert s[..n] == line && s[n + 1..] == rest;
    LinesSplit(s, n);
  }

  lemma LinesSplit(s: string, n: nat)
    requires Find(s, "\n") == Some(n)
    ensures n < |s| && Lines(s) == [StripCr(s[..n])] + Lines(s[n + 1..])
  {
  }

  function Printed(rs: seq<Report>): seq<string> {
    if |rs| == 0 then [] else [Print(rs[0])] + Printed(rs[1..])
  }

  lemma {:induction false} LinesBack(rs: seq<Report>)
    ensures Lines(PrintAll(rs)) == Printed(rs)
  {
    hide Print, Lines;
    if |rs| > 0 {
      NoBreakLine(rs[0]);
      LinesHead(Print(rs[0]), PrintAll(rs[1..]));
      LinesBack(rs[1..]);
    } else {
      NoLines();
    }
  }

  lemma NoLines()
    ensures Lines("") == []
  {
  }

  // ---- what comes out at the other end ----

  function FirstGenuine(rs: seq<Report>): (r: Option<Report>)
    ensures r.None? <==> AllOk(rs)
    ensures r.Some? ==> exists i | 0 <= i < |rs| :: rs[i] == r.value && !r.value.ok && r.value.supported && AllOk(rs[..i])
  {
    if |rs| == 0 then None
    else if !rs[0].ok && rs[0].supported then
      assert AllOk(rs[..0]);
      Some(rs[0])
    else
      var r := FirstGenuine(rs[1..]);
      assert r.Some? ==> exists i | 0 <= i < |rs| :: rs[i] == r.value && AllOk(rs[..i]) by {
        if r.Some? {
          var j :| 0 <= j < |rs[1..]| && rs[1..][j] == r.value && AllOk(rs[1..][..j]);
          assert rs[..j + 1] == [rs[0]] + rs[1..][..j];
          assert rs[j + 1] == r.value;
        }
      }
      r
  }

  function FailureMessage(r: Report): string {
    if |r.reason| > 0 then Lossy(r.reason) else "env " + UpToQuote(Escape(r.env)) + " failed"
  }

  lemma LineRead(r: Report)
    ensures Fails(Print(r)) <==> !r.ok && r.supported
    ensures FailureText(Print(r)) == FailureMessage(r)
    ensures Brace(Print(r)) && (Contains(Print(r), OK_KEY + "true") <==> r.ok)
    ensures Notes(Print(r)) <==> !r.supported
    ensures OrEmpty(ExtractReason(Print(r))) == Lossy(r.reason)
  {
    hide Print, Contains, ExtractReason, ExtractField, Escape, UpToQuote, Lossy, Brace, OK_KEY, SUPPORTED_KEY;
    OkTest(r, false);
    OkTest(r, true);
    SupportedTest(r, false);
    ReasonBack(r);
    EnvBack(r);
    LineTrims(r);
  }

  lemma {:induction false} FirstFailureBack(rs: seq<Report>)
    ensures FirstFailure(Printed(rs)) ==
      match FirstGenuine(rs) case None => None case Some(r) => Some(FailureMessage(r))
  {
    hide Print, Fails, FailureText, FailureMessage, Trim;
    if |rs| > 0 {
      LineTrims(rs[0]);
      LineRead(rs[0]);
      assert Printed(rs)[1..] == Printed(rs[1..]);
      FirstFailureBack(rs[1..]);
    }
  }

  predicate NoneOk(rs: seq<Report>) {
    forall i | 0 <= i < |rs| :: !rs[i].ok
  }

  /** The first note stands, if nothing has connected. */
  lemma {:induction false} SkimBack(rs: seq<Report>, note: Option<string>)
    ensures !NoneOk(rs) ==> Skim(Printed(rs), note) == None
    ensures NoneOk(rs) && note.Some? ==> Skim(Printed(rs), note) == note
    ensures NoneOk(rs) && AllOk(rs) && note.None? && |rs| > 0 ==> Skim(Printed(rs), note) == Some(Lossy(rs[0].reason))
  {
    hide Print, Trim, Contains, ExtractReason, Lossy, Brace, Notes;
    if |rs| > 0 {
      LineTrims(rs[0]);
      LineRead(rs[0]);
      assert Printed(rs)[1..] == Printed(rs[1..]);
      assert NoneOk(rs) <==> !rs[0].ok && NoneOk(rs[1..]);
      SkimBack(rs[1..], if note.None? && !rs[0].supported then Some(Lossy(rs[0].reason)) else note);
    }
  }

  lemma {:induction false} NoMarker(rs: seq<Report>)
    ensures !HasEmptyMarker(Printed(rs))
  {
    hide Print, Trim, EMPTY_MARKER;
    if |rs| > 0 {
      LineTrims(rs[0]);
      NoMarker(rs[1..]);
      forall i | 0 <= i < |Printed(rs)|
        ensures Trim(Printed(rs)[i]) != EMPTY_MARKER
      {
        if i > 0 {
          assert Printed(rs)[i] == Printed(rs[1..])[i - 1];
        }
      }
    }
  }

  /** From probe results to verdict, through the printed text: a genuine failure is reported
      with the first such env's reason; failing none, a run in which only unsupported engines
      were met is skipped with the first one's note; anything else passed. */
  lemma VerdictExact(rs: seq<Report>)
    ensures Verdict(AllOk(rs), Stdout(rs)) ==
      if |rs| == 0 then Skipped("no environments configured")
      else if FirstGenuine(rs).Some? then Failed(FailureMessage(FirstGenuine(rs).value))
      else if NoneOk(rs) then
        Skipped(if |rs[0].reason| == 0 then "engine not supported yet" else Lossy(rs[0].reason))
      else Passed
  {
    hide Printed, FirstFailure, Skim, HasEmptyMarker, FirstGenuine, Lines, Lossy;
    if |rs| == 0 {
      EmptyReport();
    } else {
      LinesBack(rs);
      FirstFailureBack(rs);
      SkimBack(rs, None);
      NoMarker(rs);
    }
  }

  lemma EmptyReport()
    ensures HasEmptyMarker(Lines(EMPTY_MARKER + "\n"))
  {
    LinesHead(EMPTY_MARKER, "");
    assert EMPTY_MARKER + "\n" + "" == EMPTY_MARKER + "\n";
    TrimsNothing(EMPTY_MARKER);
    assert Lines(EMPTY_MARKER + "\n")[0] == EMPTY_MARKER;
  }
}
