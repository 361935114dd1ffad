/** What a MySQL command is answered: the firewall's denial with its log line, the backend's
    failures, result sets. */
module Router {
  import opened Common
  import opened Bytes
  import opened Utf8
  import opened Framing
  import opened ResultSet

  /** What comes of an allowed statement: no connection to the backend, a query it rejects, no
      columns, a result set, or a result set the backend fails in the middle of. */
  datatype Outcome =
    | Unreachable
    | Rejected
    | NoColumns
    | AllRows(columns: Columns, rows: seq<seq<Cell>>)
    | SomeRows(columns: Columns, rows: seq<seq<Cell>>)

  /** `&s[..k]`: a slice of a `str` panics inside a character. */
  predicate Sliceable(s: seq<byte>, k: nat) {
    k == 0 || k == |s| || (k < |s| && !Continuation(s[k]))
  }

  /** How much of a denied statement the log line quotes. */
  const QUOTED := 64

  function Quoted(sql: seq<byte>): nat {
    if |sql| < QUOTED then |sql| else QUOTED
  }

  const DENIED: SqlState := Ascii("42000")

  const FAILED: SqlState := Ascii("HY000")

  const NO_CONNECTION := Ascii("backend unavailable")

  const NOT_EXECUTED := Ascii("query execution failed")

  /** `handle_com_query`, with the reason the firewall gives for denying the statement, if it
      does. The log line is written, and its slice taken, before the answer. */
  function QueryAnswer(sql: seq<byte>, denial: Option<seq<byte>>, logged: bool, outcome: Outcome): Answer {
    match denial
    case Some(reason) => if logged && !Sliceable(sql, Quoted(sql)) then Crash else Refusal(1064, DENIED, reason)
    case None =>
      match outcome
      case Unreachable => Refusal(1815, FAILED, NO_CONNECTION)
      case Rejected => Refusal(1815, FAILED, NOT_EXECUTED)
      case NoColumns => Plain
      case AllRows(columns, rows) => Table(columns, rows)
      case SomeRows(columns, rows) => Cut(columns, rows)
  }

  /** `{:02x}`. */
  function Hex(c: byte): seq<byte> {
    [HexDigit(c / 16), HexDigit(c % 16)]
  }

  function HexDigit(d: int): byte
    requires 0 <= d < 16
  {
    if d < 10 then 48 + d else 87 + d
  }

  /** One command that is neither empty nor a quit: a ping, a query whose text is decoded, or
      one that is not supported. */
  function CommandAnswer(command: seq<byte>, decode: seq<byte> -> seq<byte>, firewall: seq<byte> -> Option<seq<byte>>,
                         logged: bool, outcome: Outcome): Answer
    requires |command| > 0
  {
    if command[0] == 0x0E then Plain
    else if command[0] == 0x03 then
      var sql := decode(command[1..]);
      QueryAnswer(sql, firewall(sql), logged, outcome)
    else Refusal(1148, DENIED, Ascii("command 0x") + Hex(command[0]) + Ascii(" not supported"))
  }

  /** The session's answers, the backend's outcomes being given command by command. */
  function Answering(decode: seq<byte> -> seq<byte>, firewall: seq<byte> -> Option<seq<byte>>, logged: bool,
                     outcomes: nat -> Outcome): Handler {
    (k: nat, command: seq<byte>) =>
      if |command| == 0 then Plain else CommandAnswer(command, decode, firewall, logged, outcomes(k))
  }

  // ---- what a client reads ----

  /** The packets of the answer to one command, as they go out. */
  function Replied(a: Answer): seq<byte> {
    Packets(Payloads(a), 1)
  }

  lemma RefusalRead(code: UInt16, state: SqlState, message: seq<byte>)
    requires |message| < 0x1_0000
    ensures TakeAnswer(Replied(Refusal(code, state, message))) == Some((Refusal(code, state, message), []))
  {
    hide TakeAnswer, Packets, ErrPacket;
    var a := Refusal(code, state, message);
    ErrSize(code, state, message);
    AnswerTaken(a, []);
    assert Replied(a) + [] == Replied(a);
  }

  lemma ErrSize(code: UInt16, state: SqlState, message: seq<byte>)
    ensures |ErrPacket(code, state, message)| == 9 + |message|
  {
  }

  lemma PlainRead()
    ensures TakeAnswer(Replied(Plain)) == Some((Plain, []))
  {
    hide TakeAnswer, Packets;
    AnswerTaken(Plain, []);
    assert Replied(Plain) + [] == Replied(Plain);
  }

  /** What a client reads in answer to a query that is allowed: the table the backend gave, an OK
      if there are no columns, or one of two refusals that say nothing of the backend; of a
      table the backend cut short, the packets so far and no answer. */
  lemma QueryRead(sql: seq<byte>, logged: bool, outcome: Outcome)
    requires outcome.AllRows? || outcome.SomeRows? ==>
      && (forall i | 0 <= i < |outcome.rows| :: |outcome.rows[i]| == |outcome.columns|)
      && Fit(TablePayloads(outcome.columns, outcome.rows, outcome.AllRows?))
    ensures var s := Replied(QueryAnswer(sql, None, logged, outcome));
      match outcome
      case AllRows(columns, rows) => TakeAnswer(s) == Some((Table(columns, rows), []))
      case NoColumns => TakeAnswer(s) == Some((Plain, []))
      case Unreachable => TakeAnswer(s) == Some((Refusal(1815, FAILED, NO_CONNECTION), []))
      case Rejected => TakeAnswer(s) == Some((Refusal(1815, FAILED, NOT_EXECUTED), []))
      case SomeRows(columns, rows) =>
        && TakeAnswer(s) == None
        && TakeAll(s, 1, 1 + |columns| + |rows|) == Ok(([Lenenc(|columns|)] + columns + RowPayloads(rows), []))
  {
    hide TakeAnswer, Packets, TakeAll, Payloads, TablePayloads, RowPayloads, Lenenc, Fit, Ascii, Replied, FAILED, NO_CONNECTION, NOT_EXECUTED;
    match outcome
    case AllRows(columns, rows) => TableRead(columns, rows);
    case NoColumns => PlainRead();
    case Unreachable => FailureRead();
    case Rejected => FailureRead();
    case SomeRows(columns, rows) => CutRead(columns, rows);
  }

  lemma FailureRead()
    ensures TakeAnswer(Replied(Refusal(1815, FAILED, NO_CONNECTION))) == Some((Refusal(1815, FAILED, NO_CONNECTION), []))
    ensures TakeAnswer(Replied(Refusal(1815, FAILED, NOT_EXECUTED))) == Some((Refusal(1815, FAILED, NOT_EXECUTED), []))
  {
    hide TakeAnswer, Packets, Payloads, Replied, FAILED;
    RefusalRead(1815, FAILED, NO_CONNECTION);
    RefusalRead(1815, FAILED, NOT_EXECUTED);
  }

  lemma TableRead(columns: Columns, rows: seq<seq<Cell>>)
    requires (forall i | 0 <= i < |rows| :: |rows[i]| == |columns|) && Fit(TablePayloads(columns, rows, true))
    ensures TakeAnswer(Replied(Table(columns, rows))) == Some((Table(columns, rows), []))
  {
    hide TakeAnswer, Packets, TablePayloads, Fit;
    AnswerTaken(Table(columns, rows), []);
    assert Replied(Table(columns, rows)) + [] == Replied(Table(columns, rows));
  }

  lemma CutRead(columns: Columns, rows: seq<seq<Cell>>)
    requires (forall i | 0 <= i < |rows| :: |rows[i]| == |columns|) && Fit(TablePayloads(columns, rows, false))
    ensures var s := Replied(Cut(columns, rows));
      && TakeAnswer(s) == None
      && TakeAll(s, 1, 1 + |columns| + |rows|) == Ok(([Lenenc(|columns|)] + columns + RowPayloads(rows), []))
  {
    hide TakeAnswer, Packets, TakeAll, RowPayloads, Lenenc, Fit;
    IncompleteNotTaken(Cut(columns, rows));
    assert TablePayloads(columns, rows, false) == [Lenenc(|columns|)] + columns + RowPayloads(rows);
  }

  /** ... to a ping, to a query that is denied without a panic, and to any other command. */
  lemma CommandRead(command: seq<byte>, decode: seq<byte> -> seq<byte>, firewall: seq<byte> -> Option<seq<byte>>,
                    logged: bool, outcome: Outcome)
    requires |command| > 0
    ensures var a := CommandAnswer(command, decode, firewall, logged, outcome); var sql := decode(command[1..]);
      && (command[0] == 0x0E ==> TakeAnswer(Replied(a)) == Some((Plain, [])))
      && (command[0] == 0x03 && firewall(sql).None? ==> a == QueryAnswer(sql, None, logged, outcome))
      && (command[0] == 0x03 && firewall(sql).Some? && !DeniedAcross(command, decode, firewall, logged)
            && |firewall(sql).value| < 0x1_0000 ==>
            TakeAnswer(Replied(a)) == Some((Refusal(1064, Ascii("42000"), firewall(sql).value), [])))
      && (command[0] != 0x0E && command[0] != 0x03 ==>
            TakeAnswer(Replied(a)) == Some((Refusal(1148, Ascii("42000"), NotSupportedText(command[0])), [])))
  {
    hide TakeAnswer, Packets, Payloads, Ascii, Replied;
    var sql := decode(command[1..]);
    PlainRead();
    if firewall(sql).Some? && |firewall(sql).value| < 0x1_0000 {
      RefusalRead(1064, DENIED, firewall(sql).value);
    }
    NotSupported(command[0]);
    HexExact(command[0]);
  }

  /** The hexadecimal digits. */
  const DIGITS: seq<byte> := [48, 49, 50, 51, 52, 53, 54, 55, 56, 57, 97, 98, 99, 100, 101, 102]

  function NotSupportedText(c: byte): seq<byte> {
    Ascii("command 0x") + [DIGITS[c / 16], DIGITS[c % 16]] + Ascii(" not supported")
  }

  lemma HexExact(c: byte)
    ensures Hex(c) == [DIGITS[c / 16], DIGITS[c % 16]]
  {
  }

  lemma NotSupported(c: byte)
    ensures var message := Ascii("command 0x") + Hex(c) + Ascii(" not supported");
      TakeAnswer(Replied(Refusal(1148, DENIED, message))) == Some((Refusal(1148, DENIED, message), []))
  {
    hide TakeAnswer, Packets, Payloads, Replied;
    RefusalRead(1148, DENIED, Ascii("command 0x") + Hex(c) + Ascii(" not supported"));
  }

  /** The log line's slice is taken exactly where no character of the text is cut. */
  lemma QuotedExact(sql: seq<byte>)
    requires IsUtf8(sql)
    ensures Sliceable(sql, Quoted(sql)) <==> |sql| <= 64 || !Continuation(sql[64])
    ensures Sliceable(sql, Quoted(sql)) <==> IsUtf8(sql[..Quoted(sql)])
  {
    CutExact(sql, Quoted(sql));
  }

  /** A denied query whose quoted part ends inside a character, with the log line on. */
  predicate DeniedAcross(command: seq<byte>, decode: seq<byte> -> seq<byte>, firewall: seq<byte> -> Option<seq<byte>>, logged: bool) {
    && logged && |command| > 0 && command[0] == 0x03
    && var sql := decode(command[1..]);
       firewall(sql).Some? && |sql| > 64 && Continuation(sql[64])
  }

  lemma CrashExact(command: seq<byte>, decode: seq<byte> -> seq<byte>, firewall: seq<byte> -> Option<seq<byte>>,
                   logged: bool, outcome: Outcome)
    requires |command| > 0
    ensures CommandAnswer(command, decode, firewall, logged, outcome) == Crash <==> DeniedAcross(command, decode, firewall, logged)
  {
  }

  /** Exactly which sessions end in a panic: those in which such a query comes before any answer
      that is cut short or does not fit a packet. */
  lemma PanicExact(commands: seq<seq<byte>>, decode: seq<byte> -> seq<byte>, firewall: seq<byte> -> Option<seq<byte>>,
                   logged: bool, outcomes: nat -> Outcome)
    requires forall i | 0 <= i < |commands| :: 0 < |commands[i]| < MAX_PAYLOAD && commands[i][0] != 0x01
    ensures var h := Answering(decode, firewall, logged, outcomes);
      Serve(Sent(commands), 0, h).1 == Panicked <==> exists i: nat ::
        StopsAt(commands, 0, h, i) && DeniedAcross(commands[i], decode, firewall, logged)
  {
    hide Payloads, Serve, Fit;
    var h := Answering(decode, firewall, logged, outcomes);
    EndingExact(commands, 0, h);
    NothingFits();
    forall i | 0 <= i < |commands|
      ensures h(i, commands[i]) == Crash <==> DeniedAcross(commands[i], decode, firewall, logged)
    {
      CrashExact(commands[i], decode, firewall, logged, outcomes(i));
    }
    forall i: nat, j: nat | StopsAt(commands, 0, h, i) && StopsAt(commands, 0, h, j)
      ensures i == j
    {
    }
  }

  lemma NothingFits()
    ensures Fit(Payloads(Crash))
  {
  }

  const CHARACTERS: seq<byte> := seq<byte>(63, i => 97) + [0xC3, 0xA9]

  /** Sixty-three letters and a two-byte character: denied, it gets no answer at all; with a
      letter less, it is refused as it should be. */
  lemma DenialPanics(decode: seq<byte> -> seq<byte>, firewall: seq<byte> -> Option<seq<byte>>, reason: seq<byte>, outcome: Outcome)
    requires decode(CHARACTERS) == CHARACTERS && decode(CHARACTERS[1..]) == CHARACTERS[1..]
    requires firewall(CHARACTERS) == Some(reason) && firewall(CHARACTERS[1..]) == Some(reason)
    ensures IsUtf8(CHARACTERS)
    ensures CommandAnswer([0x03] + CHARACTERS, decode, firewall, true, outcome) == Crash
    ensures CommandAnswer([0x03] + CHARACTERS[1..], decode, firewall, true, outcome) == Refusal(1064, DENIED, reason)
  {
    var letters := seq<byte>(63, i => 97);
    RunConcat(Start, letters, [0xC3, 0xA9]);
    RunAscii(Start, letters);
    assert Run(Start, [0xC3, 0xA9]) == Start by {
      assert [0xC3 as byte, 0xA9][1..] == [0xA9];
      assert Run(Tail(1), [0xA9]) == Start;
    }
    assert ([0x03] + CHARACTERS)[1..] == CHARACTERS;
    assert ([0x03] + CHARACTERS[1..])[1..] == CHARACTERS[1..];
  }
}
