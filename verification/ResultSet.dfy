/** Answers to MySQL commands: text rows, result sets and their terminator, and the command
    loop that numbers every answer from one. */
module ResultSet {
  import opened Common
  import opened Bytes
  import opened Framing

  // ---- rows ----

  /** A column value as the text protocol sends it. */
  datatype Cell = Null | Text(text: Sized)

  /** A byte string whose length a 64-bit machine can hold. */
  type Sized = b: seq<byte> | |b| < 0x1_0000_0000_0000_0000

  function PushCell(c: Cell): seq<byte> {
    match c
    case Null => [0xFB]
    case Text(b) => Lenenc(|b|) + b
  }

  function Row(cells: seq<Cell>): seq<byte> {
    if |cells| == 0 then [] else PushCell(cells[0]) + Row(cells[1..])
  }

  /** `row_text_packet`. */
  method RowTextPacket(cells: seq<Cell>) returns (p: seq<byte>)
    ensures p == Row(cells)
  {
    hide Lenenc;
    p := [];
    assert cells[0..] == cells;
    for i := 0 to |cells|
      invariant p + Row(cells[i..]) == Row(cells)
    {
      assert cells[i..][1..] == cells[i + 1..];
      ghost var before := p;
      if cells[i].Null? {
        p := p + [0xFB];
      } else {
        p := WriteLenencInt(p, |cells[i].text|);
        p := p + cells[i].text;
        ConcatAssoc(before, Lenenc(|cells[i].text|), cells[i].text);
      }
      ConcatAssoc(before, PushCell(cells[i]), Row(cells[i + 1..]));
    }
  }

  /** A row of `n` cells, as a client reads it. */
  function ReadRow(p: seq<byte>, n: nat): Option<seq<Cell>>
    decreases n
  {
    if n == 0 then if |p| == 0 then Some([]) else None
    else if |p| == 0 then None
    else if p[0] == 0xFB then
      match ReadRow(p[1..], n - 1)
      case None => None
      case Some(cells) => Some([Null] + cells)
    else
      match ReadLenenc(p)
      case None => None
      case Some((len, at)) =>
        if |p| < at + len || 0x1_0000_0000_0000_0000 <= len then None
        else
          match ReadRow(p[at + len..], n - 1)
          case None => None
          case Some(cells) => Some([Text(p[at..at + len])] + cells)
  }

  /** Every row decodes back to its cells. */
  lemma {:induction false} RowBack(cells: seq<Cell>)
    ensures ReadRow(Row(cells), |cells|) == Some(cells)
  {
    hide Lenenc, ReadLenenc;
    if |cells| > 0 {
      var rest := Row(cells[1..]);
      RowBack(cells[1..]);
      assert cells == [cells[0]] + cells[1..];
      match cells[0]
      case Null => assert Row(cells)[1..] == rest;
      case Text(b) => TextFront(b, rest);
    }
  }

  /** The value at the front of a row. */
  lemma TextFront(b: Sized, rest: seq<byte>)
    ensures var p, head := PushCell(Text(b)) + rest, |Lenenc(|b|)|;
      && |p| >= head + |b| && head > 0 && p[0] != 0xFB
      && ReadLenenc(p) == Some((|b|, head))
      && p[head..head + |b|] == b && p[head + |b|..] == rest
  {
    hide Lenenc, ReadLenenc;
    LenencFirst(|b|);
    LenencBack(|b|, b + rest);
    ConcatAssoc(Lenenc(|b|), b, rest);
  }

  /** Only a first value of 16 MiB or more gives a row the first byte of the terminator, and
      nothing gives it the first byte of an error. */
  lemma RowFirst(cells: seq<Cell>)
    requires |cells| > 0
    ensures |Row(cells)| > 0 && Row(cells)[0] != 0xFF
    ensures Row(cells)[0] == 0xFE <==> cells[0].Text? && 0x100_0000 <= |cells[0].text|
  {
    hide Lenenc;
    if cells[0].Text? {
      LenencFirst(|cells[0].text|);
    }
  }

  /** So no row that can be written in one packet is taken for the terminator. */
  lemma WrittenRowIsNoTerminator(cells: seq<Cell>)
    requires |cells| > 0 && |Row(cells)| < MAX_PAYLOAD
    ensures Row(cells)[0] != 0xFE && Row(cells)[0] != 0xFF
  {
    RowFirst(cells);
  }

  // ---- answers ----

  const AUTOCOMMIT: seq<byte> := [0x02, 0x00]

  /** `ok_packet`. */
  const OK_PACKET: seq<byte> := [0x00, 0x00, 0x00] + AUTOCOMMIT + [0x00, 0x00]

  /** `ok_eof_packet(0, 0)`. */
  const OK_EOF: seq<byte> := [0xFE, 0x00, 0x00] + AUTOCOMMIT + [0x00, 0x00]

  /** An OK or the terminator of a result set, as a client reads it: rows affected, last insert id,
      status, warnings. */
  function ReadOk(p: seq<byte>): Option<(nat, nat, nat, nat)> {
    if |p| == 0 || (p[0] != 0x00 && p[0] != 0xFE) then None
    else
      match ReadLenenc(p[1..])
      case None => None
      case Some((affected, k)) =>
        if |p| < 1 + k then None
        else
          match ReadLenenc(p[1 + k..])
          case None => None
          case Some((id, m)) =>
            if |p| != 1 + k + m + 4 then None
            else Some((affected, id, LeValue(p[1 + k + m..1 + k + m + 2]), LeValue(p[1 + k + m + 2..])))
  }

  /** Nothing affected, nothing inserted, autocommit, no warnings. */
  lemma OkBack()
    ensures ReadOk(OK_PACKET) == Some((0, 0, 2, 0)) && OK_PACKET[0] == 0x00
    ensures ReadOk(OK_EOF) == Some((0, 0, 2, 0)) && OK_EOF[0] == 0xFE
  {
    OkRead(OK_PACKET);
    OkRead(OK_EOF);
  }

  lemma OkRead(p: seq<byte>)
    requires |p| == 7 && (p[0] == 0x00 || p[0] == 0xFE) && p[1..] == [0, 0, 2, 0, 0, 0]
    ensures ReadOk(p) == Some((0, 0, 2, 0))
  {
    assert p[2..] == p[1..][1..];
    assert p[3..5] == [2, 0] && p[5..] == [0, 0];
    assert [2 as byte, 0][1..] == [0] && [0 as byte, 0][1..] == [0] && [0 as byte][1..] == [];
    assert LeValue([0]) == 0;
    assert LeValue([2, 0]) == 2 && LeValue([0, 0]) == 0;
  }

  /** `err_packet`: the code, the five-byte state after a `#`, the message. */
  function ErrPacket(code: UInt16, state: SqlState, message: seq<byte>): seq<byte> {
    [0xFF] + LeBytes(code, 2) + [35] + state + message
  }

  type UInt16 = v: int | 0 <= v < 0x1_0000

  type SqlState = s: seq<byte> | |s| == 5 witness [0, 0, 0, 0, 0]

  /** An error packet, as a client reads it. */
  function ReadErr(p: seq<byte>): Option<Answer> {
    if |p| < 9 || p[0] != 0xFF || p[3] != 35 then None
    else Some(Refusal(p[1] as int + 256 * p[2] as int, p[4..9], p[9..]))
  }

  /** Column definitions, opaque payloads here; a result set has at least one. */
  type Columns = c: seq<seq<byte>> | 0 < |c| < 0x1_0000_0000_0000_0000 witness [[]]

  /** What one command is answered: a complete answer, a result set cut short where the backend
      failed after these rows, or nothing at all because the session's task panicked. */
  datatype Answer =
    | Plain
    | Refusal(code: UInt16, state: SqlState, message: seq<byte>)
    | Table(columns: Columns, rows: seq<seq<Cell>>)
    | Cut(columns: Columns, rows: seq<seq<Cell>>)
    | Crash
  {
    predicate Complete() {
      !Cut? && !Crash?
    }
  }

  predicate WellFormed(a: Answer) {
    a.Table? || a.Cut? ==> forall i | 0 <= i < |a.rows| :: |a.rows[i]| == |a.columns|
  }

  /** A client reads back the code, the state and the message of every refusal. */
  lemma ErrBack(code: UInt16, state: SqlState, message: seq<byte>)
    ensures var p := ErrPacket(code, state, message);
      |p| > 0 && p[0] == 0xFF && ReadErr(p) == Some(Refusal(code, state, message))
  {
    var p := ErrPacket(code, state, message);
    assert LeBytes(code, 2) == [code % 256, code / 256 % 256] by {
      assert LeBytes(code / 256, 1) == [code / 256 % 256];
    }
    assert p[4..9] == state && p[9..] == message;
  }

  function RowPayloads(rows: seq<seq<Cell>>): (ps: seq<seq<byte>>)
    ensures |ps| == |rows|
  {
    if |rows| == 0 then [] else [Row(rows[0])] + RowPayloads(rows[1..])
  }

  /** The last packet of a result set that comes to its end. */
  function Ender(whole: bool): seq<seq<byte>> {
    if whole then [OK_EOF] else []
  }

  function TablePayloads(columns: Columns, rows: seq<seq<Cell>>, whole: bool): seq<seq<byte>> {
    [Lenenc(|columns|)] + (columns + (RowPayloads(rows) + Ender(whole)))
  }

  function Payloads(a: Answer): seq<seq<byte>> {
    match a
    case Plain => [OK_PACKET]
    case Refusal(code, state, message) => [ErrPacket(code, state, message)]
    case Table(columns, rows) => TablePayloads(columns, rows, true)
    case Cut(columns, rows) => TablePayloads(columns, rows, false)
    case Crash => []
  }

  // ---- a client reads an answer off the stream ----

  /** Rows of `width` cells up to the terminator, from the packet with the `n`th number on. */
  function TakeRows(s: seq<byte>, n: nat, width: nat): Option<(seq<seq<Cell>>, seq<byte>)>
    decreases |s|
  {
    match TakePacket(s, n)
    case Err(_) => None
    case Ok((p, rest)) =>
      if |p| == 0 then None
      else if p[0] == 0xFE then Some(([], rest))
      else
        match ReadRow(p, width)
        case None => None
        case Some(row) =>
          match TakeRows(rest, n + 1, width)
          case None => None
          case Some((rows, left)) => Some(([row] + rows, left))
  }

  /** One answer, told apart by the first byte of its first packet, and what follows it. */
  function TakeAnswer(s: seq<byte>): Option<(Answer, seq<byte>)> {
    match TakePacket(s, 1)
    case Err(_) => None
    case Ok((p, rest)) =>
      if |p| == 0 then None
      else if p[0] == 0x00 then Some((Plain, rest))
      else if p[0] == 0xFF then
        match ReadErr(p)
        case None => None
        case Some(a) => Some((a, rest))
      else
        match ReadLenenc(p)
        case None => None
        case Some((width, _)) =>
          if width == 0 || 0x1_0000_0000_0000_0000 <= width then None
          else
            match TakeAll(rest, 2, width)
            case Err(_) => None
            case Ok((columns, more)) =>
              match TakeRows(more, 2 + width, width)
              case None => None
              case Some((rows, left)) => if |columns| == width then Some((Table(columns, rows), left)) else None
  }

  lemma PacketsCons(p: seq<byte>, ps: seq<seq<byte>>, n: nat)
    ensures Packets([p] + ps, n) == Packet(p, n) + Packets(ps, n + 1)
  {
    assert ([p] + ps)[1..] == ps;
  }

  lemma FitParts(a: seq<seq<byte>>, b: seq<seq<byte>>)
    requires Fit(a + b)
    ensures Fit(a) && Fit(b)
  {
    assert forall i | 0 <= i < |a| :: a[i] == (a + b)[i];
    assert forall i | 0 <= i < |b| :: b[i] == (a + b)[|a| + i];
  }

  /** The rows end where the terminator is and nowhere before; without one they do not end. */
  lemma {:induction false} RowsTaken(rows: seq<seq<Cell>>, n: nat, width: nat, whole: bool, rest: seq<byte>)
    requires 0 < width && (forall i | 0 <= i < |rows| :: |rows[i]| == width) && Fit(RowPayloads(rows))
    requires !whole ==> rest == []
    ensures TakeRows(Packets(RowPayloads(rows) + Ender(whole), n) + rest, n, width) ==
      if whole then Some((rows, rest)) else None
    decreases |rows|
  {
    hide Row, ReadRow, Packet, Packets, TakePacket, Fit, Ender;
    var ps := RowPayloads(rows) + Ender(whole);
    if |rows| == 0 {
      assert ps == Ender(whole);
      NoRowsTaken(n, width, whole, rest);
    } else {
      var row, more := Row(rows[0]), RowPayloads(rows[1..]);
      assert ps == [row] + (more + Ender(whole));
      FitParts([row], more);
      PacketsCons(row, more + Ender(whole), n);
      ConcatAssoc(Packet(row, n), Packets(more + Ender(whole), n + 1), rest);
      FitOne(row);
      TakeExact(row, n, n, Packets(more + Ender(whole), n + 1) + rest);
      RowFirst(rows[0]);
      WrittenRowIsNoTerminator(rows[0]);
      RowBack(rows[0]);
      RowsTaken(rows[1..], n + 1, width, whole, rest);
      assert rows == [rows[0]] + rows[1..];
    }
  }

  lemma NoRowsTaken(n: nat, width: nat, whole: bool, rest: seq<byte>)
    requires !whole ==> rest == []
    ensures TakeRows(Packets(Ender(whole), n) + rest, n, width) == if whole then Some(([], rest)) else None
  {
    hide ReadRow, Packet, Packets, TakePacket, OK_EOF;
    NoPackets(n);
    NoPackets(n + 1);
    if whole {
      Terminator();
      assert [OK_EOF] == [OK_EOF] + [];
      PacketsCons(OK_EOF, [], n);
      TakeExact(OK_EOF, n, n, rest);
      assert Packets([OK_EOF], n) + rest == Packet(OK_EOF, n) + rest;
    } else {
      NothingToTake(n);
    }
  }

  lemma Terminator()
    ensures |OK_EOF| == 7 && OK_EOF[0] == 0xFE
  {
  }

  lemma NoPackets(n: nat)
    ensures Packets([], n) == []
  {
  }

  lemma FitOne(p: seq<byte>)
    requires Fit([p])
    ensures |p| < MAX_PAYLOAD
  {
    assert [p][0] == p;
  }

  /** A client in step reads back every answer that could be written, whole, and stops exactly
      where it ends. */
  lemma AnswerTaken(a: Answer, rest: seq<byte>)
    requires a.Complete() && WellFormed(a) && Fit(Payloads(a))
    ensures TakeAnswer(Packets(Payloads(a), 1) + rest) == Some((a, rest))
  {
    hide Lenenc, ReadLenenc, TakeRows, RowPayloads, Packet, Packets, TakePacket, TakeAll, Fit, OK_EOF, ErrPacket, ReadErr, TablePayloads;
    match a
    case Plain => OneTaken(OK_PACKET, rest);
    case Refusal(code, state, message) =>
      ErrBack(code, state, message);
      OneTaken(ErrPacket(code, state, message), rest);
    case Table(columns, rows) => TableTaken(columns, rows, true, rest);
  }

  lemma OneTaken(p: seq<byte>, rest: seq<byte>)
    requires Fit([p])
    ensures TakePacket(Packets([p], 1) + rest, 1) == Ok((p, rest))
  {
    hide Packet, Packets, TakePacket, Fit;
    FitOne(p);
    assert [p] == [p] + [];
    PacketsCons(p, [], 1);
    NoPackets(2);
    assert Packet(p, 1) + [] == Packet(p, 1);
    TakeExact(p, 1, 1, rest);
  }

  lemma TableTaken(columns: Columns, rows: seq<seq<Cell>>, whole: bool, rest: seq<byte>)
    requires (forall i | 0 <= i < |rows| :: |rows[i]| == |columns|) && Fit(TablePayloads(columns, rows, whole))
    requires !whole ==> rest == []
    ensures TakeAnswer(Packets(TablePayloads(columns, rows, whole), 1) + rest) ==
      if whole then Some((Table(columns, rows), rest)) else None
  {
    hide Lenenc, ReadLenenc, TakeRows, RowPayloads, Packet, Packets, TakePacket, TakeAll, Fit, OK_EOF, Ender;
    var width, count := |columns|, Lenenc(|columns|);
    var ending := RowPayloads(rows) + Ender(whole);
    FitParts([count], columns + ending);
    FitParts(columns, ending);
    FitParts(RowPayloads(rows), Ender(whole));
    FitOne(count);
    PacketsCons(count, columns + ending, 1);
    PacketsJoin(columns, ending, 2);
    var tail := Packets(ending, 2 + width) + rest;
    ConcatAssoc(Packet(count, 1), Packets(columns + ending, 2), rest);
    ConcatAssoc(Packets(columns, 2), Packets(ending, 2 + width), rest);
    TakeExact(count, 1, 1, Packets(columns, 2) + tail);
    LenencFirst(width);
    LenencBack(width, []);
    assert count + [] == count;
    PacketsBack(columns, 2, 2, tail);
    RowsTaken(rows, 2 + width, width, whole, rest);
  }

  /** A client that reads what there is of an incomplete answer has exactly the packets written,
      and does not take it for an answer. */
  lemma IncompleteNotTaken(a: Answer)
    requires !a.Complete() && WellFormed(a) && Fit(Payloads(a))
    ensures var s := Packets(Payloads(a), 1);
      TakeAnswer(s) == None && TakeAll(s, 1, |Payloads(a)|) == Ok((Payloads(a), []))
  {
    hide TakeRows, Packet, Packets, TakePacket, TakeAll, Fit, TablePayloads;
    var s := Packets(Payloads(a), 1);
    assert s + [] == s;
    PacketsBack(Payloads(a), 1, 1, []);
    if a.Cut? {
      TableTaken(a.columns, a.rows, false, []);
    } else {
      NoPackets(1);
      NothingToTake(1);
    }
  }

  // ---- the command loop ----

  /** What the session answers to the `k`th command other than quit: the policy and the backend,
      whose state may differ every time. */
  type Handler = (nat, seq<byte>) -> Answer

  datatype Ending = Quit | Hangup | Broken(error: FrameError) | EmptyCommand | TooLarge | BackendFailed | Panicked

  /** Packets of one answer until one does not fit. */
  function Written(payloads: seq<seq<byte>>, n: nat): (seq<byte>, bool) {
    if |payloads| == 0 then ([], true)
    else if |payloads[0]| >= MAX_PAYLOAD then ([], false)
    else
      var (more, ok) := Written(payloads[1..], n + 1);
      (Packet(payloads[0], n) + more, ok)
  }

  /** How an incomplete answer ends the session. */
  function Aborted(a: Answer): Ending {
    if a.Cut? then BackendFailed else Panicked
  }

  /** `serve_session` from the `k`th command on: every command is number 0, every answer is
      numbered from 1. */
  function Serve(input: seq<byte>, k: nat, h: Handler): (seq<byte>, Ending)
    decreases |input|
  {
    match TakePacket(input, 0)
    case Err(e) => ([], if e == UnexpectedEof then Hangup else Broken(e))
    case Ok((command, rest)) =>
      if |command| == 0 then ([], EmptyCommand)
      else if command[0] == 0x01 then ([], Quit)
      else
        var (bytes, ok) := Written(Payloads(h(k, command)), 1);
        if !ok then (bytes, TooLarge)
        else if !h(k, command).Complete() then (bytes, Aborted(h(k, command)))
        else
          var (more, ending) := Serve(rest, k + 1, h);
          (bytes + more, ending)
  }

  lemma {:induction false} WrittenAll(payloads: seq<seq<byte>>, n: nat)
    requires Fit(payloads)
    ensures Written(payloads, n) == (Packets(payloads, n), true)
    decreases |payloads|
  {
    hide Packet;
    if |payloads| > 0 {
      WrittenAll(payloads[1..], n + 1);
    }
  }

  /** What a client in step sends. */
  function Sent(commands: seq<seq<byte>>): seq<byte> {
    if |commands| == 0 then [] else Packet(commands[0], 0) + Sent(commands[1..])
  }

  predicate Servable(commands: seq<seq<byte>>, k: nat, h: Handler) {
    forall i | 0 <= i < |commands| ::
      && 0 < |commands[i]| < MAX_PAYLOAD && commands[i][0] != 0x01
      && h(k + i, commands[i]).Complete() && WellFormed(h(k + i, commands[i])) && Fit(Payloads(h(k + i, commands[i])))
  }

  /** ... and how it reads `k` answers, counting from one again for each. */
  function TakeAnswers(s: seq<byte>, k: nat): Option<(seq<Answer>, seq<byte>)>
    decreases k
  {
    if k == 0 then Some(([], s))
    else
      match TakeAnswer(s)
      case None => None
      case Some((a, rest)) =>
        match TakeAnswers(rest, k - 1)
        case None => None
        case Some((more, left)) => Some(([a] + more, left))
  }

  function Answers(commands: seq<seq<byte>>, k: nat, h: Handler): seq<Answer> {
    if |commands| == 0 then [] else [h(k, commands[0])] + Answers(commands[1..], k + 1, h)
  }

  /** The commands come first on the stream; what follows is served with what they leave. */
  lemma {:induction false} SessionRun(commands: seq<seq<byte>>, k: nat, h: Handler, input: seq<byte>)
    requires Servable(commands, k, h)
    ensures var (output, ending) := Serve(Sent(commands) + input, k, h);
      var (more, last) := Serve(input, k + |commands|, h);
      ending == last && TakeAnswers(output, |commands|) == Some((Answers(commands, k, h), more))
    decreases |commands|
  {
    hide TakePacket, Packet, Packets, Payloads, TakeAnswer, Written, WellFormed, Fit;
    if |commands| == 0 {
      assert Sent(commands) + input == input;
    } else {
      var c, rest := commands[0], commands[1..];
      var payloads := Payloads(h(k, c));
      assert forall i | 0 <= i < |rest| :: rest[i] == commands[i + 1] && h(k + 1 + i, rest[i]) == h(k + (i + 1), commands[i + 1]);
      ConcatAssoc(Packet(c, 0), Sent(rest), input);
      TakeExact(c, 0, 0, Sent(rest) + input);
      WrittenAll(payloads, 1);
      SessionRun(rest, k + 1, h, input);
      AnswerTaken(h(k, c), Serve(Sent(rest) + input, k + 1, h).0);
    }
  }

  /** A whole session: whatever the commands, however many packets each answer takes, a client
      in step reads back exactly the answers, and the session ends when it hangs up. */
  lemma SessionBack(commands: seq<seq<byte>>, k: nat, h: Handler)
    requires Servable(commands, k, h)
    ensures var (output, ending) := Serve(Sent(commands), k, h);
      ending == Hangup && TakeAnswers(output, |commands|) == Some((Answers(commands, k, h), []))
  {
    hide TakePacket, Servable, TakeAnswers;
    SessionRun(commands, k, h, []);
    assert Sent(commands) + [] == Sent(commands);
    NothingToTake(0);
  }

  /** The first incomplete answer ends the session, whatever the client sent after that command:
      it has every answer before, exactly the packets written of this one, and no way to take
      them for an answer. */
  lemma SessionCut(commands: seq<seq<byte>>, last: seq<byte>, after: seq<byte>, k: nat, h: Handler)
    requires Servable(commands, k, h) && 0 < |last| < MAX_PAYLOAD && last[0] != 0x01
    requires var a := h(k + |commands|, last); !a.Complete() && WellFormed(a) && Fit(Payloads(a))
    ensures var a := h(k + |commands|, last);
      var (output, ending) := Serve(Sent(commands) + (Packet(last, 0) + after), k, h);
      var s := Packets(Payloads(a), 1);
      && ending == Aborted(a) && TakeAnswers(output, |commands|) == Some((Answers(commands, k, h), s))
      && TakeAnswer(s) == None && TakeAll(s, 1, |Payloads(a)|) == Ok((Payloads(a), []))
  {
    hide TakePacket, Packet, Packets, Payloads, Servable, TakeAnswers, TakeAnswer, TakeAll, Written, WellFormed, Fit;
    var a := h(k + |commands|, last);
    SessionRun(commands, k, h, Packet(last, 0) + after);
    TakeExact(last, 0, 0, after);
    WrittenAll(Payloads(a), 1);
    IncompleteNotTaken(a);
  }

  lemma NothingToTake(n: nat)
    ensures TakePacket([], n) == Err(UnexpectedEof)
  {
  }

  /** The answer is complete and could be written: the loop goes on. */
  predicate Passes(a: Answer) {
    a.Complete() && Fit(Payloads(a))
  }

  /** The `i`th command is the first that the loop does not get past. */
  predicate StopsAt(commands: seq<seq<byte>>, k: nat, h: Handler, i: nat) {
    && i < |commands| && !Passes(h(k + i, commands[i]))
    && forall j | 0 <= j < i :: Passes(h(k + j, commands[j]))
  }

  function Stopped(a: Answer): Ending {
    if Fit(Payloads(a)) then Aborted(a) else TooLarge
  }

  lemma {:induction false} WrittenExact(payloads: seq<seq<byte>>, n: nat)
    ensures Written(payloads, n).1 <==> Fit(payloads)
    decreases |payloads|
  {
    hide Packet;
    if |payloads| > 0 {
      WrittenExact(payloads[1..], n + 1);
      assert forall i | 0 < i < |payloads| :: payloads[i] == payloads[1..][i - 1];
    }
  }

  /** Exactly how a session ends whose client sends these commands and hangs up: at the first
      answer that is not complete or does not fit, or else with the client. */
  lemma {:induction false} EndingExact(commands: seq<seq<byte>>, k: nat, h: Handler)
    requires forall i | 0 <= i < |commands| :: 0 < |commands[i]| < MAX_PAYLOAD && commands[i][0] != 0x01
    ensures var ending := Serve(Sent(commands), k, h).1;
      && (ending == Hangup <==> forall i | 0 <= i < |commands| :: Passes(h(k + i, commands[i])))
      && (ending != Hangup ==> exists i: nat :: (StopsAt(commands, k, h, i) && ending == Stopped(h(k + i, commands[i]))))
    decreases |commands|
  {
    hide TakePacket, Packet, Serve, Passes, Stopped;
    if |commands| == 0 {
      NothingServed(k, h);
    } else {
      var c, rest := commands[0], commands[1..];
      assert forall i | 0 <= i < |rest| :: rest[i] == commands[i + 1] && h(k + 1 + i, rest[i]) == h(k + (i + 1), commands[i + 1]);
      EndingFirst(c, Sent(rest), k, h);
      if Passes(h(k, c)) {
        EndingExact(rest, k + 1, h);
        if Serve(Sent(rest), k + 1, h).1 != Hangup {
          var i: nat :| StopsAt(rest, k + 1, h, i) && Serve(Sent(rest), k + 1, h).1 == Stopped(h(k + 1 + i, rest[i]));
          StopsLater(commands, k, h, i);
        }
      } else {
        assert StopsAt(commands, k, h, 0);
      }
    }
  }

  lemma NothingServed(k: nat, h: Handler)
    ensures Serve([], k, h).1 == Hangup
  {
    NothingToTake(0);
  }

  /** One command: past it if its answer passes, or else the end. */
  lemma EndingFirst(c: seq<byte>, rest: seq<byte>, k: nat, h: Handler)
    requires 0 < |c| < MAX_PAYLOAD && c[0] != 0x01
    ensures Serve(Packet(c, 0) + rest, k, h).1 ==
      if Passes(h(k, c)) then Serve(rest, k + 1, h).1 else Stopped(h(k, c))
    ensures !Passes(h(k, c)) ==> Stopped(h(k, c)) != Hangup
  {
    hide TakePacket, Packet, Payloads, Written, Fit;
    TakeExact(c, 0, 0, rest);
    WrittenExact(Payloads(h(k, c)), 1);
  }

  lemma StopsLater(commands: seq<seq<byte>>, k: nat, h: Handler, i: nat)
    requires |commands| > 0 && Passes(h(k, commands[0])) && StopsAt(commands[1..], k + 1, h, i)
    ensures StopsAt(commands, k, h, i + 1) && h(k + (i + 1), commands[i + 1]) == h(k + 1 + i, commands[1..][i])
  {
    hide Passes;
    var rest := commands[1..];
    forall j | 0 <= j < i + 1
      ensures Passes(h(k + j, commands[j]))
    {
      if 0 < j {
        assert Passes(h(k + 1 + (j - 1), rest[j - 1]));
      }
    }
  }

  // ---- the session in place ----

  /** Once a packet does not fit, nothing after it is written. */
  lemma {:induction false} WrittenJoin(a: seq<seq<byte>>, b: seq<seq<byte>>, n: nat)
    ensures var (x, ok) := Written(a, n); var (y, also) := Written(b, n + |a|);
      && Written(a + b, n).0 == (if ok then x + y else x)
      && Written(a + b, n).1 == (ok && also)
    decreases |a|
  {
    hide Packet;
    if |a| == 0 {
      assert a + b == b;
    } else {
      WrittenJoin(a[1..], b, n + 1);
      assert (a + b)[1..] == a[1..] + b;
      ConcatAssoc(Packet(a[0], n), Written(a[1..], n + 1).0, Written(b, n + |a|).0);
    }
  }

  /** One more packet, or none. */
  lemma WrittenStep(before: seq<byte>, payloads: seq<seq<byte>>, n: nat)
    requires |payloads| > 0
    ensures |payloads[0]| >= MAX_PAYLOAD ==> before + Written(payloads, n).0 == before && !Written(payloads, n).1
    ensures |payloads[0]| < MAX_PAYLOAD ==>
      && before + Written(payloads, n).0 == before + Packet(payloads[0], Number(n)) + Written(payloads[1..], n + 1).0
      && Written(payloads, n).1 == Written(payloads[1..], n + 1).1
  {
    hide Packet;
    SameNumber(payloads[0], n);
    ConcatAssoc(before, Packet(payloads[0], n), Written(payloads[1..], n + 1).0);
  }

  lemma WrittenNone(before: seq<byte>, n: nat)
    ensures before + Written([], n).0 == before && Written([], n).1
  {
  }

  method WriteAll(w: Stream, seqno: SequenceCounter, payloads: seq<seq<byte>>, n: nat) returns (ok: bool)
    requires seqno.value == Number(n)
    modifies w`sent, seqno
    ensures w.sent == old(w.sent) + Written(payloads, n).0 && ok == Written(payloads, n).1
    ensures ok ==> seqno.value == Number(n + |payloads|)
  {
    hide Packet, Written, Number;
    assert payloads[0..] == payloads;
    for i := 0 to |payloads|
      invariant seqno.value == Number(n + i)
      invariant w.sent + Written(payloads[i..], n + i).0 == old(w.sent) + Written(payloads, n).0
      invariant Written(payloads[i..], n + i).1 == Written(payloads, n).1
    {
      assert payloads[i..][1..] == payloads[i + 1..];
      WrittenStep(w.sent, payloads[i..], n + i);
      NumberNext(n + i);
      ok := w.WritePacket(seqno, payloads[i]);
      if !ok {
        return;
      }
    }
    WrittenNone(w.sent, n + |payloads|);
    ok := true;
  }

  lemma SameNumber(payload: seq<byte>, n: nat)
    ensures Packet(payload, Number(n)) == Packet(payload, n)
  {
  }

  lemma RowsStep(before: seq<byte>, rows: seq<seq<Cell>>, i: nat, n: nat)
    requires i < |rows|
    ensures var p, now, next := Row(rows[i]), Written(RowPayloads(rows[i..]), n), Written(RowPayloads(rows[i + 1..]), n + 1);
      && (|p| >= MAX_PAYLOAD ==> before + now.0 == before && !now.1)
      && (|p| < MAX_PAYLOAD ==> before + now.0 == before + Packet(p, Number(n)) + next.0 && now.1 == next.1)
  {
    hide Row, Packet, Written;
    var ps := RowPayloads(rows[i..]);
    assert rows[i..][1..] == rows[i + 1..];
    assert ps[0] == Row(rows[i]) && ps[1..] == RowPayloads(rows[i + 1..]);
    WrittenStep(before, ps, n);
  }

  method WriteRows(w: Stream, seqno: SequenceCounter, rows: seq<seq<Cell>>, n: nat) returns (ok: bool, count: nat)
    requires seqno.value == Number(n)
    modifies w`sent, seqno
    ensures w.sent == old(w.sent) + Written(RowPayloads(rows), n).0 && ok == Written(RowPayloads(rows), n).1
    ensures ok ==> seqno.value == Number(n + |rows|) && count == |rows|
  {
    hide Packet, Row, Written, RowPayloads, Number;
    count := 0;
    assert rows[0..] == rows;
    while count < |rows|
      invariant count <= |rows| && seqno.value == Number(n + count)
      invariant w.sent + Written(RowPayloads(rows[count..]), n + count).0 == old(w.sent) + Written(RowPayloads(rows), n).0
      invariant Written(RowPayloads(rows[count..]), n + count).1 == Written(RowPayloads(rows), n).1
    {
      RowsStep(w.sent, rows, count, n + count);
      NumberNext(n + count);
      var p := RowTextPacket(rows[count]);
      ok := w.WritePacket(seqno, p);
      if !ok {
        return;
      }
      count := count + 1;
    }
    assert RowPayloads(rows[count..]) == [];
    WrittenNone(w.sent, n + count);
    ok := true;
  }

  /** A result set is written in four stages, none after the first that fails. */
  lemma TableWritten(before: seq<byte>, columns: Columns, rows: seq<seq<Cell>>, whole: bool)
    ensures var width := |columns|;
      var all := Written(TablePayloads(columns, rows, whole), 1);
      var count, defs := Written([Lenenc(width)], 1), Written(columns, 2);
      var body, eof := Written(RowPayloads(rows), 2 + width), Written(Ender(whole), 2 + width + |rows|);
      && (!count.1 ==> before + all.0 == before + count.0)
      && (count.1 && !defs.1 ==> before + all.0 == before + count.0 + defs.0)
      && (count.1 && defs.1 && !body.1 ==> before + all.0 == before + count.0 + defs.0 + body.0)
      && (count.1 && defs.1 && body.1 ==> before + all.0 == before + count.0 + defs.0 + body.0 + eof.0)
      && all.1 == (count.1 && defs.1 && body.1 && eof.1)
  {
    hide Written, RowPayloads, Lenenc, Ender;
    var width, rs := |columns|, RowPayloads(rows);
    var count, defs, body := Written([Lenenc(width)], 1), Written(columns, 2), Written(rs, 2 + width);
    Stage(before, [Lenenc(width)], columns + (rs + Ender(whole)), 1);
    Stage(before + count.0, columns, rs + Ender(whole), 2);
    Stage(before + count.0 + defs.0, rs, Ender(whole), 2 + width);
  }

  lemma Stage(before: seq<byte>, a: seq<seq<byte>>, b: seq<seq<byte>>, n: nat)
    ensures before + Written(a + b, n).0 ==
      if Written(a, n).1 then before + Written(a, n).0 + Written(b, n + |a|).0 else before + Written(a, n).0
    ensures Written(a + b, n).1 == (Written(a, n).1 && Written(b, n + |a|).1)
  {
    hide Written;
    WrittenJoin(a, b, n);
    ConcatAssoc(before, Written(a, n).0, Written(b, n + |a|).0);
  }

  /** The result-set loop of `handle_com_query`; with the backend gone after these rows, it
      stops there. */
  method WriteTable(w: Stream, seqno: SequenceCounter, columns: Columns, rows: seq<seq<Cell>>, whole: bool) returns (ok: bool)
    requires seqno.value == Number(1)
    modifies w`sent, seqno
    ensures w.sent == old(w.sent) + Written(TablePayloads(columns, rows, whole), 1).0
    ensures ok == Written(TablePayloads(columns, rows, whole), 1).1
  {
    hide Packet, Written, RowPayloads, Lenenc, OK_EOF, Number, TablePayloads;
    TableWritten(w.sent, columns, rows, whole);
    var width := |columns|;
    var count := WriteLenencInt([], width);
    assert [] + Lenenc(width) == Lenenc(width);
    ok := WriteAll(w, seqno, [count], 1);
    if !ok {
      return;
    }
    ok := WriteAll(w, seqno, columns, 2);
    if !ok {
      return;
    }
    var n;
    ok, n := WriteRows(w, seqno, rows, 2 + width);
    if !ok {
      return;
    }
    if whole {
      ok := WriteAll(w, seqno, [OK_EOF], 2 + width + n);
    } else {
      WrittenNone(w.sent, 2 + width + n);
    }
  }

  method WriteAnswer(w: Stream, seqno: SequenceCounter, a: Answer) returns (ok: bool)
    requires seqno.value == Number(1)
    modifies w`sent, seqno
    ensures w.sent == old(w.sent) + Written(Payloads(a), 1).0 && ok == Written(Payloads(a), 1).1
  {
    hide Packet, Written, OK_PACKET, Number, ErrPacket, TablePayloads;
    match a {
      case Plain => ok := WriteAll(w, seqno, [OK_PACKET], 1);
      case Refusal(code, state, message) => ok := WriteAll(w, seqno, [ErrPacket(code, state, message)], 1);
      case Table(columns, rows) => ok := WriteTable(w, seqno, columns, rows, true);
      case Cut(columns, rows) => ok := WriteTable(w, seqno, columns, rows, false);
      case Crash =>
        WrittenNone(w.sent, 1);
        ok := true;
    }
  }

  /** One turn of the loop. */
  lemma ServeStep(before: seq<byte>, input: seq<byte>, k: nat, h: Handler)
    ensures var (output, ending) := Serve(input, k, h);
      match TakePacket(input, 0)
      case Err(e) => before + output == before && ending == if e == UnexpectedEof then Hangup else Broken(e)
      case Ok((command, rest)) =>
        if |command| == 0 then before + output == before && ending == EmptyCommand
        else if command[0] == 0x01 then before + output == before && ending == Quit
        else
          var (bytes, ok) := Written(Payloads(h(k, command)), 1);
          if !ok then before + output == before + bytes && ending == TooLarge
          else if !h(k, command).Complete() then before + output == before + bytes && ending == Aborted(h(k, command))
          else before + output == before + bytes + Serve(rest, k + 1, h).0 && ending == Serve(rest, k + 1, h).1
  {
    hide TakePacket, Written, Payloads;
  }

  /** `serve_session`. */
  method ServeSession(stream: Stream, h: Handler) returns (ending: Ending)
    modifies stream
    ensures stream.sent == old(stream.sent) + Serve(old(stream.pending), 0, h).0
    ensures ending == Serve(old(stream.pending), 0, h).1
  {
    hide TakePacket, Written, Payloads, Serve;
    var seqno := new SequenceCounter();
    var k := 0;
    while true
      invariant fresh(seqno)
      invariant stream.sent + Serve(stream.pending, k, h).0 == old(stream.sent) + Serve(old(stream.pending), 0, h).0
      invariant Serve(stream.pending, k, h).1 == Serve(old(stream.pending), 0, h).1
      decreases |stream.pending|
    {
      ServeStep(stream.sent, stream.pending, k, h);
      seqno.Reset();
      var packet := stream.ReadPacket(seqno);
      if packet.Err? {
        return if packet.error == UnexpectedEof then Hangup else Broken(packet.error);
      }
      var command := packet.value;
      if |command| == 0 {
        return EmptyCommand;
      }
      if command[0] == 0x01 {
        return Quit;
      }
      var answer := h(k, command);
      var ok := WriteAnswer(stream, seqno, answer);
      if !ok {
        return TooLarge;
      }
      if !answer.Complete() {
        return Aborted(answer);
      }
      k := k + 1;
    }
  }
}
