/** The command loop of the PostgreSQL front end: `serve`, with `exec_rows_only` and
    `firewalled_exec`. Messages arrive already parsed; the firewall, the backend and the
    standard library's text functions are given. */
module PgSession {
  import opened Common
  import opened Bytes
  import opened PgInline
  import opened PgRescan
  import opened PgArray
  import opened PgLiteral
  import opened PgRender
  import Policy

  type Name = seq<byte>
  type Sql = seq<byte>
  type Columns = seq<(seq<byte>, int)>
  type Row = seq<Cell>

  // ---- the wire ----

  datatype BindMsg = BindMsg(portal: Name, stmt: Name, formats: seq<int>, params: seq<Cell>)

  /** A client message; `None` stands for a body that did not parse. */
  datatype Msg =
    | Query(sql: Sql)
    | Parse(body: Option<(Name, Sql)>)
    | Bind(bind: Option<BindMsg>)
    | Describe(target: Option<(bool, Name)>)
    | Execute(portal: Name)
    | Close(target: Option<(bool, Name)>)
    | Flush
    | Sync
    | Terminate
    | Unsupported(tag: byte)

  datatype Frame =
    | ErrorResponse(code: string, message: string)
    | ReadyForQuery
    | EmptyQueryResponse
    | ParseComplete
    | BindComplete
    | CloseComplete
    | NoData
    | ParameterDescription(oids: seq<int>)
    | RowDescription(columns: Columns)
    | DataRow(row: Row)
    | CommandComplete(tag: seq<byte>)

  /** SQL text handed to the backend. */
  datatype Call = Prepare(sql: Sql) | Run(sql: Sql)

  // ---- what the session depends on ----

  datatype Preparing = NoPool | PrepareFailed | Described(oids: seq<int>, columns: Columns)

  datatype Ran = NoClient | QueryFailed | Rows(columns: seq<seq<byte>>, rows: seq<Row>, tag: seq<byte>)

  /** How the backend would answer while one message is handled. */
  datatype Answer = Answer(prepare: Preparing, run: Ran)

  datatype Env = Env(firewall: Sql -> Policy.Decision, lib: Foreign)

  // ---- the state ----

  datatype Prepared = Prepared(sql: Sql, oids: seq<int>, columns: Columns)

  datatype Portal = Portal(stmt: Name, sql: Sql)

  datatype State = State(prepared: map<Name, Prepared>, portals: map<Name, Portal>, skip: bool)

  const Initial := State(map[], map[], false)

  /** One message's effect: the state after it, the frames written, the backend calls made. */
  datatype Effect = Effect(state: State, frames: seq<Frame>, calls: seq<Call>)

  const INSUFFICIENT_PRIVILEGE := "42501"
  const INTERNAL := "58000"
  const FEATURE_NOT_SUPPORTED := "0A000"

  // ---- the reference semantics ----

  function Fails(s: State, code: string, message: string, calls: seq<Call>): Effect {
    Effect(s.(skip := true), [ErrorResponse(code, message)], calls)
  }

  function Frames(rows: seq<Row>): (r: seq<Frame>)
    ensures |r| == |rows| && forall i | 0 <= i < |r| :: r[i] == DataRow(rows[i])
  {
    seq(|rows|, i requires 0 <= i < |rows| => DataRow(rows[i]))
  }

  /** The simple-query path knows no types and announces every column as text. */
  function TextColumns(columns: seq<seq<byte>>): Columns {
    seq(|columns|, i requires 0 <= i < |columns| => (columns[i], 25))
  }

  /** A result set on the simple-query path. */
  function ResultSet(columns: seq<seq<byte>>, rows: seq<Row>, tag: seq<byte>): seq<Frame> {
    (if |columns| == 0 then [NoData]
     else [RowDescription(TextColumns(columns))] + Frames(rows))
    + [CommandComplete(tag)]
  }

  /** Firewall first, then run: the frames written, the calls made, and whether it worked. */
  function Execution(env: Env, sql: Sql, ran: Ran, simple: bool): (r: (seq<Frame>, seq<Call>, bool)) {
    match env.firewall(sql)
    case Deny(reason) => ([ErrorResponse(INSUFFICIENT_PRIVILEGE, reason)], [], false)
    case Allow =>
      match ran
      case NoClient => ([ErrorResponse(INTERNAL, "backend unavailable")], [], false)
      case QueryFailed => ([ErrorResponse(INTERNAL, "query failed")], [Run(sql)], false)
      case Rows(columns, rows, tag) =>
        (if simple then ResultSet(columns, rows, tag) else Frames(rows) + [CommandComplete(tag)],
         [Run(sql)], true)
  }

  /** The bound values as literals, or the first failure. */
  function RenderAll(lib: Foreign, oids: seq<int>, m: BindMsg, n: nat): (r: Result<seq<seq<byte>>, string>)
    requires n <= |m.params|
    ensures r.Ok? ==> |r.value| == n
  {
    if n == 0 then Ok([])
    else
      match RenderAll(lib, oids, m, n - 1)
      case Err(e) => Err(e)
      case Ok(init) =>
        match RenderParam(lib, OidOf(oids, n - 1), FormatOf(m, n - 1), m.params[n - 1])
        case Err(e) => Err(e)
        case Ok(last) => Ok(init + [last])
  }

  function OidOf(oids: seq<int>, i: nat): int {
    if i < |oids| then oids[i] else 0
  }

  function FormatOf(m: BindMsg, i: nat): int {
    if i < |m.formats| then m.formats[i] else 0
  }

  function ColumnsFrame(columns: Columns): Frame {
    if |columns| == 0 then NoData else RowDescription(columns)
  }

  function DescribeFrames(s: State, isStmt: bool, name: Name): seq<Frame> {
    if isStmt then
      if name in s.prepared
      then [ParameterDescription(s.prepared[name].oids), ColumnsFrame(s.prepared[name].columns)]
      else [NoData]
    else if name in s.portals && s.portals[name].stmt in s.prepared
    then [ColumnsFrame(s.prepared[s.portals[name].stmt].columns)]
    else [NoData]
  }

  /** What one message does outside error recovery. */
  function Act(env: Env, s: State, m: Msg, a: Answer): (e: Effect) {
    match m
    case Query(sql) =>
      if |Trim(sql)| == 0 then Effect(s, [EmptyQueryResponse, ReadyForQuery], [])
      else
        var (frames, calls, _) := Execution(env, sql, a.run, true);
        Effect(s, frames + [ReadyForQuery], calls)
    case Parse(None) => Fails(s, FEATURE_NOT_SUPPORTED, "bad Parse", [])
    case Parse(Some((stmt, sql))) => (
      match env.firewall(sql)
      case Deny(reason) => Fails(s, INSUFFICIENT_PRIVILEGE, reason, [])
      case Allow => (
        match a.prepare
        case NoPool => Fails(s, INTERNAL, "statement parse failed", [])
        case PrepareFailed => Fails(s, INTERNAL, "statement parse failed", [Prepare(sql)])
        case Described(oids, columns) =>
          Effect(s.(prepared := s.prepared[stmt := Prepared(sql, oids, columns)]), [ParseComplete], [Prepare(sql)])))
    case Bind(None) => Fails(s, FEATURE_NOT_SUPPORTED, "bad Bind", [])
    case Bind(Some(b)) =>
      if b.stmt !in s.prepared then Fails(s, INTERNAL, "unknown prepared statement", [])
      else (
        match RenderAll(env.lib, s.prepared[b.stmt].oids, b, |b.params|)
        case Err(e) => Fails(s, FEATURE_NOT_SUPPORTED, e, [])
        case Ok(rendered) =>
          var portal := Portal(b.stmt, Inline(s.prepared[b.stmt].sql, rendered));
          Effect(s.(portals := s.portals[b.portal := portal]), [BindComplete], []))
    case Describe(None) => Effect(s, [NoData], [])
    case Describe(Some((isStmt, name))) => Effect(s, DescribeFrames(s, isStmt, name), [])
    case Execute(portal) =>
      if portal !in s.portals then Fails(s, INTERNAL, "unknown portal", [])
      else
        var (frames, calls, ok) := Execution(env, s.portals[portal].sql, a.run, false);
        Effect(if ok then s else s.(skip := true), frames, calls)
    case Close(None) => Effect(s, [CloseComplete], [])
    case Close(Some((isStmt, name))) =>
      Effect(if isStmt then s.(prepared := s.prepared - {name}) else s.(portals := s.portals - {name}),
             [CloseComplete], [])
    case Flush => Effect(s, [], [])
    case Sync => Effect(s.(skip := false), [ReadyForQuery], [])
    case Terminate => Effect(s, [], [])
    case Unsupported(_) => Effect(s, [ErrorResponse(FEATURE_NOT_SUPPORTED, "unsupported message"), ReadyForQuery], [])
  }

  /** The messages the loop passes over after an error. */
  predicate Skippable(m: Msg) {
    m.Parse? || m.Bind? || m.Describe? || m.Execute?
  }

  function Step(env: Env, s: State, m: Msg, a: Answer): (e: Effect) {
    if s.skip && Skippable(m) then Effect(s, [], []) else Act(env, s, m, a)
  }

  // ---- the loop itself ----

  class Session {
    const env: Env
    var prepared: map<Name, Prepared>
    var portals: map<Name, Portal>
    var skipUntilSync: bool

    constructor (env: Env)
      ensures this.env == env && Value() == Initial
    {
      this.env := env;
      prepared, portals, skipUntilSync := map[], map[], false;
    }

    ghost function Value(): State
      reads this
    {
      State(prepared, portals, skipUntilSync)
    }

    /** Firewall, run, write: shared by `exec_rows_only` and `firewalled_exec`. */
    method Exec(sql: Sql, ran: Ran, simple: bool) returns (frames: seq<Frame>, calls: seq<Call>, ok: bool)
      ensures (frames, calls, ok) == Execution(env, sql, ran, simple)
    {
      match env.firewall(sql) {
        case Deny(reason) =>
          return [ErrorResponse(INSUFFICIENT_PRIVILEGE, reason)], [], false;
        case Allow =>
      }
      match ran {
        case NoClient =>
          return [ErrorResponse(INTERNAL, "backend unavailable")], [], false;
        case QueryFailed =>
          return [ErrorResponse(INTERNAL, "query failed")], [Run(sql)], false;
        case Rows(columns, rows, tag) =>
          frames := [];
          if simple {
            frames := if |columns| == 0 then [NoData] else [RowDescription(TextColumns(columns))];
          }
          if !simple || |columns| != 0 {
            frames := WriteRows(frames, rows);
          }
          frames := frames + [CommandComplete(tag)];
          return frames, [Run(sql)], true;
      }
    }

    method WriteRows(head: seq<Frame>, rows: seq<Row>) returns (frames: seq<Frame>)
      ensures frames == head + Frames(rows)
      ensures head == [] ==> frames == Frames(rows)
    {
      frames := head;
      for i := 0 to |rows|
        invariant frames == head + Frames(rows)[..i]
      {
        frames := frames + [DataRow(rows[i])];
      }
      assert Frames(rows)[..|rows|] == Frames(rows);
    }

    /** Render each bound value, stopping at the first that cannot be rendered. */
    method RenderParams(oids: seq<int>, m: BindMsg) returns (r: Result<seq<seq<byte>>, string>)
      ensures r == RenderAll(env.lib, oids, m, |m.params|)
    {
      var rendered: seq<seq<byte>> := [];
      for i := 0 to |m.params|
        invariant RenderAll(env.lib, oids, m, i) == Ok(rendered)
      {
        match RenderParam(env.lib, OidOf(oids, i), FormatOf(m, i), m.params[i]) {
          case Err(e) =>
            RenderFailure(env.lib, oids, m, i, e, |m.params|);
            return Err(e);
          case Ok(text) =>
            rendered := rendered + [text];
        }
      }
      return Ok(rendered);
    }

    /** The body of the loop: one message. */
    method Handle(m: Msg, a: Answer) returns (frames: seq<Frame>, calls: seq<Call>)
      modifies this
      ensures Effect(Value(), frames, calls) == Step(env, old(Value()), m, a)
    {
      frames, calls := [], [];
      if skipUntilSync && Skippable(m) {
        return;
      }
      match m {
        case Query(sql) =>
          if |Trim(sql)| == 0 {
            frames := [EmptyQueryResponse];
          } else {
            var ok;
            frames, calls, ok := Exec(sql, a.run, true);
          }
          frames := frames + [ReadyForQuery];
        case Parse(body) =>
          frames, calls := HandleParse(body, a.prepare);
        case Bind(bind) =>
          frames := HandleBind(bind);
        case Describe(target) =>
          match target {
            case None => frames := [NoData];
            case Some((isStmt, name)) => frames := DescribeFrames(State(prepared, portals, skipUntilSync), isStmt, name);
          }
        case Execute(portal) =>
          if portal !in portals {
            frames := [ErrorResponse(INTERNAL, "unknown portal")];
            skipUntilSync := true;
          } else {
            var ok;
            frames, calls, ok := Exec(portals[portal].sql, a.run, false);
            if !ok {
              skipUntilSync := true;
            }
          }
        case Close(target) =>
          match target {
            case None =>
            case Some((isStmt, name)) =>
              if isStmt {
                prepared := prepared - {name};
              } else {
                portals := portals - {name};
              }
          }
          frames := [CloseComplete];
        case Flush =>
        case Sync =>
          skipUntilSync := false;
          frames := [ReadyForQuery];
        case Terminate =>
        case Unsupported(_) =>
          frames := [ErrorResponse(FEATURE_NOT_SUPPORTED, "unsupported message"), ReadyForQuery];
      }
    }

    method HandleParse(body: Option<(Name, Sql)>, p: Preparing) returns (frames: seq<Frame>, calls: seq<Call>)
      requires !skipUntilSync
      modifies this
      ensures forall run :: Effect(Value(), frames, calls) == Act(env, old(Value()), Parse(body), Answer(p, run))
    {
      frames, calls := [], [];
      if body.None? {
        frames := [ErrorResponse(FEATURE_NOT_SUPPORTED, "bad Parse")];
        skipUntilSync := true;
        return;
      }
      var (stmt, sql) := body.value;
      var verdict := env.firewall(sql);
      if verdict.Deny? {
        frames := [ErrorResponse(INSUFFICIENT_PRIVILEGE, verdict.reason)];
        skipUntilSync := true;
        return;
      }
      calls := if p.NoPool? then [] else [Prepare(sql)];
      match p {
        case Described(oids, columns) =>
          prepared := prepared[stmt := Prepared(sql, oids, columns)];
          frames := [ParseComplete];
        case _ =>
          frames := [ErrorResponse(INTERNAL, "statement parse failed")];
          skipUntilSync := true;
      }
    }

    method HandleBind(bind: Option<BindMsg>) returns (frames: seq<Frame>)
      requires !skipUntilSync
      modifies this
      ensures forall a :: Effect(Value(), frames, []) == Act(env, old(Value()), Bind(bind), a)
    {
      if bind.None? {
        frames := [ErrorResponse(FEATURE_NOT_SUPPORTED, "bad Bind")];
        skipUntilSync := true;
        return;
      }
      var m := bind.value;
      if m.stmt !in prepared {
        frames := [ErrorResponse(INTERNAL, "unknown prepared statement")];
        skipUntilSync := true;
        return;
      }
      var prep := prepared[m.stmt];
      var r := RenderParams(prep.oids, m);
      match r {
        case Err(e) =>
          frames := [ErrorResponse(FEATURE_NOT_SUPPORTED, e)];
          skipUntilSync := true;
        case Ok(rendered) =>
          var inlined := InlineParams(prep.sql, rendered);
          portals := portals[m.portal := Portal(m.stmt, inlined)];
          frames := [BindComplete];
      }
    }

    /** `serve`: handle messages until the client terminates or hangs up. */
    method Serve(trace: seq<(Msg, Answer)>) returns (n: nat, frames: seq<seq<Frame>>, calls: seq<seq<Call>>)
      requires Value() == Initial
      modifies this
      ensures n <= |trace| && |frames| == |calls| == n
      ensures n < |trace| ==> n > 0 && trace[n - 1].0.Terminate?
      ensures Value() == After(env, trace[..n])
      ensures forall i | 0 <= i < n ::
        frames[i] == EffectAt(env, trace, i).frames && calls[i] == EffectAt(env, trace, i).calls
    {
      hide Step;
      n, frames, calls := 0, [], [];
      while n < |trace|
        invariant n <= |trace| && |frames| == |calls| == n
        invariant Value() == After(env, trace[..n])
        invariant forall i | 0 <= i < n ::
          frames[i] == EffectAt(env, trace, i).frames && calls[i] == EffectAt(env, trace, i).calls
      {
        var f, c := Handle(trace[n].0, trace[n].1);
        frames, calls := frames + [f], calls + [c];
        assert trace[..n + 1][..n] == trace[..n];
        n := n + 1;
        if trace[n - 1].0.Terminate? {
          return;
        }
      }
    }
  }

  lemma {:induction false} RenderFailure(lib: Foreign, oids: seq<int>, m: BindMsg, i: nat, e: string, n: nat)
    requires i < n <= |m.params| && RenderAll(lib, oids, m, i).Ok?
    requires RenderParam(lib, OidOf(oids, i), FormatOf(m, i), m.params[i]) == Err(e)
    ensures RenderAll(lib, oids, m, n) == Err(e)
    decreases n
  {
    hide RenderParam;
    if i < n - 1 {
      RenderFailure(lib, oids, m, i, e, n - 1);
    }
  }

  // ---- whole runs ----

  type Trace = seq<(Msg, Answer)>

  /** The state after the messages of a trace. */
  ghost function After(env: Env, trace: Trace): State
    decreases |trace|
  {
    if |trace| == 0 then Initial
    else
      var last := trace[|trace| - 1];
      Step(env, After(env, trace[..|trace| - 1]), last.0, last.1).state
  }

  /** What the message at `i` does in the run. */
  ghost function EffectAt(env: Env, trace: Trace, i: nat): Effect
    requires i < |trace|
  {
    Step(env, After(env, trace[..i]), trace[i].0, trace[i].1)
  }

  /** Every text a run hands to the backend was allowed by the session's firewall. */
  lemma OnlyAllowedSqlReachesBackend(env: Env, trace: Trace, i: nat)
    requires i < |trace|
    ensures forall c | c in EffectAt(env, trace, i).calls :: env.firewall(c.sql).Allow?
  {
    hide Frames, ResultSet, RenderAll, Trim, Inline;
  }

  // ---- where prepared statements and portals come from ----

  /** The message at `i` is a Parse of `stmt` that succeeded, with the types the backend told. */
  ghost predicate Parsed(env: Env, trace: Trace, i: nat, stmt: Name, p: Prepared) {
    && i < |trace| && trace[i].0 == Parse(Some((stmt, p.sql)))
    && EffectAt(env, trace, i).frames == [ParseComplete]
    && trace[i].1.prepare == Described(p.oids, p.columns)
  }

  /** The message at `k` sets or removes the statement `stmt`. */
  ghost predicate TouchesStmt(env: Env, trace: Trace, k: nat, stmt: Name)
    requires k < |trace|
  {
    match trace[k].0
    case Parse(Some((name, _))) => name == stmt && EffectAt(env, trace, k).frames == [ParseComplete]
    case Close(target) => target == Some((true, stmt))
    case _ => false
  }

  /** The statement is the one parsed at `i`, and nothing has touched it since. */
  ghost predicate StmtFrom(env: Env, trace: Trace, stmt: Name, p: Prepared, i: nat) {
    Parsed(env, trace, i, stmt, p) && forall k | i < k < |trace| :: !TouchesStmt(env, trace, k, stmt)
  }

  /** The message at `j` is a Bind of the portal that succeeded. */
  ghost predicate Bound(env: Env, trace: Trace, j: nat, name: Name, b: BindMsg) {
    && j < |trace| && trace[j].0 == Bind(Some(b)) && b.portal == name
    && EffectAt(env, trace, j).frames == [BindComplete]
  }

  ghost predicate TouchesPortal(env: Env, trace: Trace, k: nat, name: Name)
    requires k < |trace|
  {
    match trace[k].0
    case Bind(Some(b)) => b.portal == name && EffectAt(env, trace, k).frames == [BindComplete]
    case Close(target) => target == Some((false, name))
    case _ => false
  }

  /** The portal was bound at `j`, untouched since, to the statement that was parsed at `i` and
      had not been touched by then, and holds that statement with the bound values inlined. */
  ghost predicate PortalFrom(env: Env, trace: Trace, name: Name, portal: Portal, p: Prepared, b: BindMsg, i: nat, j: nat) {
    && Bound(env, trace, j, name, b) && b.stmt == portal.stmt
    && (forall k | j < k < |trace| :: !TouchesPortal(env, trace, k, name))
    && StmtFrom(env, trace[..j], portal.stmt, p, i)
    && PortalText(env, portal, p, b)
  }

  ghost predicate PortalText(env: Env, portal: Portal, p: Prepared, b: BindMsg) {
    var r := RenderAll(env.lib, p.oids, b, |b.params|);
    r.Ok? && portal.sql == Inline(p.sql, r.value)
  }

  lemma EffectOfPrefix(env: Env, trace: Trace, n: nat, i: nat)
    requires i < n <= |trace|
    ensures EffectAt(env, trace[..n], i) == EffectAt(env, trace, i)
  {
    hide Step, After;
    assert trace[..n][..i] == trace[..i];
  }

  /** One message changes the entry of a statement only by touching it, and then as it says. */
  lemma StmtStep(env: Env, s: State, m: Msg, a: Answer, stmt: Name)
    ensures var e := Step(env, s, m, a); var after := e.state.prepared;
      match m
      case Parse(Some((name, sql))) =>
        if name == stmt && e.frames == [ParseComplete] then
          && a.prepare.Described? && env.firewall(sql).Allow?
          && stmt in after && after[stmt] == Prepared(sql, a.prepare.oids, a.prepare.columns)
        else SameEntry(s.prepared, after, stmt)
      case Close(target) => if target == Some((true, stmt)) then stmt !in after else SameEntry(s.prepared, after, stmt)
      case _ => SameEntry(s.prepared, after, stmt)
  {
    hide Frames, ResultSet, RenderAll, Trim, Inline, Execution;
  }

  ghost predicate SameEntry<V>(before: map<Name, V>, after: map<Name, V>, name: Name) {
    (name in after <==> name in before) && (name in after ==> after[name] == before[name])
  }

  lemma PortalStep(env: Env, s: State, m: Msg, a: Answer, name: Name)
    ensures var e := Step(env, s, m, a); var after := e.state.portals;
      match m
      case Bind(Some(b)) =>
        if b.portal == name && e.frames == [BindComplete] then
          && b.stmt in s.prepared && name in after
          && after[name].stmt == b.stmt && PortalText(env, after[name], s.prepared[b.stmt], b)
        else SameEntry(s.portals, after, name)
      case Close(target) => if target == Some((false, name)) then name !in after else SameEntry(s.portals, after, name)
      case _ => SameEntry(s.portals, after, name)
  {
    hide Frames, ResultSet, RenderAll, Trim, Inline, Execution;
  }

  /** The statements of a reachable state are exactly those some Parse of the run set and
      nothing has touched since, each allowed by the firewall. */
  lemma {:induction false} PreparedExact(env: Env, trace: Trace, stmt: Name, p: Prepared)
    ensures stmt in After(env, trace).prepared && After(env, trace).prepared[stmt] == p <==>
      exists i :: StmtFrom(env, trace, stmt, p, i)
    ensures stmt in After(env, trace).prepared && After(env, trace).prepared[stmt] == p ==> env.firewall(p.sql).Allow?
    decreases |trace|
  {
    hide Step;
    if 0 < |trace| {
      var n := |trace| - 1;
      PreparedExact(env, trace[..n], stmt, p);
      StmtStep(env, After(env, trace[..n]), trace[n].0, trace[n].1, stmt);
      StmtExtends(env, trace, stmt, p);
    }
  }

  /** One message more: the same origin if it does not touch the statement, else that message. */
  lemma StmtExtends(env: Env, trace: Trace, stmt: Name, p: Prepared)
    requires 0 < |trace|
    ensures var n := |trace| - 1;
      (exists i :: StmtFrom(env, trace, stmt, p, i)) <==>
        if TouchesStmt(env, trace, n, stmt) then Parsed(env, trace, n, stmt, p)
        else exists i :: StmtFrom(env, trace[..n], stmt, p, i)
  {
    hide Step, After;
    var n := |trace| - 1;
    forall i | 0 <= i < n
      ensures EffectAt(env, trace[..n], i) == EffectAt(env, trace, i)
    {
      EffectOfPrefix(env, trace, n, i);
    }
    assert forall i | 0 <= i < n :: trace[..n][i] == trace[i];
    if TouchesStmt(env, trace, n, stmt) {
      if Parsed(env, trace, n, stmt, p) {
        assert StmtFrom(env, trace, stmt, p, n);
      }
    } else {
      forall i: nat | StmtFrom(env, trace[..n], stmt, p, i)
        ensures StmtFrom(env, trace, stmt, p, i)
      {
        assert forall k | i < k < n :: TouchesStmt(env, trace, k, stmt) ==> TouchesStmt(env, trace[..n], k, stmt);
      }
      forall i: nat | StmtFrom(env, trace, stmt, p, i)
        ensures StmtFrom(env, trace[..n], stmt, p, i)
      {
        assert i < n;
        assert forall k | i < k < n :: TouchesStmt(env, trace[..n], k, stmt) ==> TouchesStmt(env, trace, k, stmt);
      }
    }
  }

  /** The portals of a reachable state are exactly those that some Bind of the run set and
      nothing has touched since, with the text of the statement as it was then parsed and the
      values of that Bind. */
  lemma {:induction false} PortalExact(env: Env, trace: Trace, name: Name, portal: Portal)
    ensures name in After(env, trace).portals && After(env, trace).portals[name] == portal <==>
      exists p, b, i: nat, j: nat :: PortalFrom(env, trace, name, portal, p, b, i, j)
    decreases |trace|
  {
    hide Step, PortalText, PortalFrom;
    if 0 < |trace| {
      var n := |trace| - 1;
      PortalExact(env, trace[..n], name, portal);
      PortalStep(env, After(env, trace[..n]), trace[n].0, trace[n].1, name);
      if TouchesPortal(env, trace, n, name) {
        if trace[n].0.Bind? {
          JustBound(env, trace, name, portal);
        } else {
          LastTouch(env, trace, name, portal);
        }
      } else {
        PortalExtends(env, trace, name, portal);
      }
    } else {
      NoOrigin(env, name, portal);
    }
  }

  lemma NoOrigin(env: Env, name: Name, portal: Portal)
    ensures forall p, b, i: nat, j: nat :: !PortalFrom(env, [], name, portal, p, b, i, j)
  {
    hide PortalText;
  }

  /** A last message that touches the portal is the only origin it can have. */
  lemma LastTouch(env: Env, trace: Trace, name: Name, portal: Portal)
    requires 0 < |trace| && TouchesPortal(env, trace, |trace| - 1, name)
    ensures forall p, b, i: nat, j: nat :: PortalFrom(env, trace, name, portal, p, b, i, j) ==>
      j == |trace| - 1 && trace[j].0 == Bind(Some(b))
  {
    hide Step, PortalText, After, StmtFrom, EffectAt;
  }

  /** A Bind that succeeds as the last message is the portal's origin. */
  lemma JustBound(env: Env, trace: Trace, name: Name, portal: Portal)
    requires 0 < |trace| && TouchesPortal(env, trace, |trace| - 1, name) && trace[|trace| - 1].0.Bind?
    ensures name in After(env, trace).portals && After(env, trace).portals[name] == portal <==>
      exists p, b, i: nat, j: nat :: PortalFrom(env, trace, name, portal, p, b, i, j)
  {
    hide Step, StmtFrom;
    var n := |trace| - 1;
    var s, b := After(env, trace[..n]), trace[n].0.bind.value;
    PortalStep(env, s, trace[n].0, trace[n].1, name);
    var p := s.prepared[b.stmt];
    var now := After(env, trace).portals[name];
    PreparedExact(env, trace[..n], b.stmt, p);
    var i :| StmtFrom(env, trace[..n], b.stmt, p, i);
    assert PortalFrom(env, trace, name, now, p, b, i, n);
    LastTouch(env, trace, name, portal);
    forall p', b', i': nat, j: nat | PortalFrom(env, trace, name, portal, p', b', i', j)
      ensures portal == now
    {
      assert b' == b;
      PreparedExact(env, trace[..n], b.stmt, p');
    }
  }

  /** A message that does not touch the portal leaves its origin. */
  lemma PortalExtends(env: Env, trace: Trace, name: Name, portal: Portal)
    requires 0 < |trace| && !TouchesPortal(env, trace, |trace| - 1, name)
    ensures var n := |trace| - 1; forall p, b, i: nat, j: nat ::
      PortalFrom(env, trace, name, portal, p, b, i, j) <==> PortalFrom(env, trace[..n], name, portal, p, b, i, j)
  {
    hide Step, After, StmtFrom, PortalText, EffectAt;
    var n := |trace| - 1;
    var init := trace[..n];
    forall i | 0 <= i < n
      ensures EffectAt(env, init, i) == EffectAt(env, trace, i) && init[i] == trace[i]
    {
      EffectOfPrefix(env, trace, n, i);
    }
    forall p, b, i: nat, j: nat
      ensures PortalFrom(env, trace, name, portal, p, b, i, j) <==> PortalFrom(env, init, name, portal, p, b, i, j)
    {
      if j < n {
        assert init[..j] == trace[..j];
        assert forall k | j < k < n :: TouchesPortal(env, init, k, name) <==> TouchesPortal(env, trace, k, name);
      }
    }
  }

  /** In every reachable state each prepared statement is one the run parsed, and allowed, and
      each portal one the run bound to a statement that was allowed when it was parsed. */
  lemma ReachableSound(env: Env, trace: Trace)
    ensures forall n | n in After(env, trace).prepared :: var p := After(env, trace).prepared[n];
      env.firewall(p.sql).Allow? && exists i :: StmtFrom(env, trace, n, p, i)
    ensures forall n | n in After(env, trace).portals :: exists p, b, i: nat, j: nat ::
      PortalFrom(env, trace, n, After(env, trace).portals[n], p, b, i, j) && env.firewall(p.sql).Allow?
  {
    hide After, StmtFrom, PortalText;
    forall n | n in After(env, trace).prepared
      ensures var p := After(env, trace).prepared[n];
        env.firewall(p.sql).Allow? && exists i :: StmtFrom(env, trace, n, p, i)
    {
      PreparedExact(env, trace, n, After(env, trace).prepared[n]);
    }
    forall n | n in After(env, trace).portals
      ensures exists p, b, i: nat, j: nat ::
        PortalFrom(env, trace, n, After(env, trace).portals[n], p, b, i, j) && env.firewall(p.sql).Allow?
    {
      var portal := After(env, trace).portals[n];
      PortalExact(env, trace, n, portal);
      var p, b, i: nat, j: nat :| PortalFrom(env, trace, n, portal, p, b, i, j);
      PreparedExact(env, trace[..j], portal.stmt, p);
      assert PortalFrom(env, trace, n, portal, p, b, i, j) && env.firewall(p.sql).Allow?;
    }
  }

  /** What `RenderAll` hands to `inline_params` are literals in the scanner's sense. */
  lemma {:induction false} RenderAllLiteral(lib: Foreign, oids: seq<int>, m: BindMsg, n: nat)
    requires n <= |m.params| && RenderAll(lib, oids, m, n).Ok?
    ensures AllLiteral(RenderAll(lib, oids, m, n).value)
    decreases n
  {
    hide Literal, RenderParam;
    if 0 < n {
      RenderAllLiteral(lib, oids, m, n - 1);
      RenderParamFit(lib, OidOf(oids, n - 1), FormatOf(m, n - 1), m.params[n - 1]);
    }
  }

  /** So the portal of any run lexes as the statement it was bound to, which was allowed, with
      the tokens of the values it was bound with in place of the parameters, unless one of
      these runs into the byte before it. */
  lemma PortalLexes(env: Env, trace: Trace, name: Name, p: Prepared, b: BindMsg, i: nat, j: nat)
    requires name in After(env, trace).portals
    requires PortalFrom(env, trace, name, After(env, trace).portals[name], p, b, i, j)
    ensures env.firewall(p.sql).Allow?
    ensures var rendered := RenderAll(env.lib, p.oids, b, |b.params|).value;
      && AllLiteral(rendered)
      && (PgLexer.Lex(After(env, trace).portals[name].sql) == Flat(PgLexer.Lex(p.sql), rendered)
          <==> NoClash(PgLexer.Lex(p.sql), rendered))
  {
    hide RenderAll, Inline, Literal, Flat, NoClash, After, Step;
    var portal := After(env, trace).portals[name];
    PreparedExact(env, trace[..j], portal.stmt, p);
    var rendered := RenderAll(env.lib, p.oids, b, |b.params|).value;
    RenderAllLiteral(env.lib, p.oids, b, |b.params|);
    RescanExact(p.sql, rendered);
  }

  // ---- error recovery ----

  predicate IsError(f: Frame) { f.ErrorResponse? }

  /** An extended-query message answered with an error. */
  ghost predicate Errs(m: Msg, frames: seq<Frame>) {
    (m.Parse? || m.Bind? || m.Execute?) && exists f | f in frames :: IsError(f)
  }

  /** One message sets the flag exactly when it is answered with an error, and only Sync
      clears it. */
  lemma SkipStep(env: Env, s: State, m: Msg, a: Answer)
    ensures var e := Step(env, s, m, a);
      e.state.skip <==> Errs(m, e.frames) || (s.skip && !m.Sync?)
  {
    hide RenderAll, Trim, Inline, ResultSet;
    var e := Step(env, s, m, a);
    if |e.frames| > 0 && e.frames[0].ErrorResponse? {
      assert IsError(e.frames[0]);
    }
  }

  /** The message at `i` was answered with an error and no Sync follows it. */
  ghost predicate Unrecovered(env: Env, trace: Trace, i: nat) {
    && i < |trace| && Errs(trace[i].0, EffectAt(env, trace, i).frames)
    && forall j | i < j < |trace| :: !trace[j].0.Sync?
  }

  lemma UnrecoveredPrefix(env: Env, trace: Trace, i: nat)
    requires 0 < |trace| && i < |trace| - 1
    ensures var n := |trace| - 1;
      Unrecovered(env, trace, i) <==> Unrecovered(env, trace[..n], i) && !trace[n].0.Sync?
  {
    hide Errs, Step;
    var n := |trace| - 1;
    var init := trace[..n];
    assert init[..i] == trace[..i];
    assert forall j | i < j < n :: init[j] == trace[j];
    assert Unrecovered(env, trace, i) ==> !trace[n].0.Sync?;
  }

  /** The flag is set exactly when some Parse, Bind or Execute was answered with an error
      and no Sync has been read since. */
  lemma {:induction false} SkipExact(env: Env, trace: Trace)
    ensures After(env, trace).skip <==> exists i :: Unrecovered(env, trace, i)
    decreases |trace|
  {
    hide Step, Errs;
    if 0 < |trace| {
      var n := |trace| - 1;
      var init := trace[..n];
      SkipExact(env, init);
      SkipStep(env, After(env, init), trace[n].0, trace[n].1);
      if After(env, init).skip && !trace[n].0.Sync? {
        var i :| Unrecovered(env, init, i);
        UnrecoveredPrefix(env, trace, i);
      }
      if Errs(trace[n].0, EffectAt(env, trace, n).frames) {
        assert Unrecovered(env, trace, n);
      }
      forall i: nat | Unrecovered(env, trace, i)
        ensures After(env, trace).skip
      {
        if i < n {
          UnrecoveredPrefix(env, trace, i);
        }
      }
    }
  }

  /** While the flag is set, a message is passed over without a trace exactly when it is
      Parse, Bind, Describe or Execute, or is one that never does anything. So a simple
      query, a Close and an unsupported message still act before Sync. */
  lemma PassedOverExact(env: Env, s: State, m: Msg, a: Answer)
    requires s.skip
    ensures Step(env, s, m, a) == Effect(s, [], []) <==>
      m.Parse? || m.Bind? || m.Describe? || m.Execute? || m.Flush? || m.Terminate?
  {
    hide RenderAll, Trim, Inline, ResultSet;
  }

  /** A query sent during error recovery still runs, where section 55.2.3 of the PostgreSQL 15
      manual has the server discard it: the recovery rule holds for every message other
      than Query, Close and unsupported ones. */
  lemma QueryRunsDuringRecovery(env: Env, s: State, sql: Sql, rows: seq<Row>, tag: seq<byte>)
    requires s.skip && 0 < |Trim(sql)| && env.firewall(sql).Allow?
    ensures var e := Step(env, s, Query(sql), Answer(NoPool, Rows([], rows, tag)));
      e.calls == [Run(sql)] && e.state == s && e.frames == [NoData, CommandComplete(tag), ReadyForQuery]
  {
    hide Trim;
  }

  ghost function CountReady(frames: seq<Frame>): nat {
    if |frames| == 0 then 0 else (if frames[0].ReadyForQuery? then 1 else 0) + CountReady(frames[1..])
  }

  lemma {:induction false} CountReadyConcat(a: seq<Frame>, b: seq<Frame>)
    ensures CountReady(a + b) == CountReady(a) + CountReady(b)
    decreases |a|
  {
    if |a| == 0 {
      assert a + b == b;
    } else {
      CountReadyConcat(a[1..], b);
      assert (a + b)[1..] == a[1..] + b;
    }
  }

  lemma {:induction false} NoneReady(frames: seq<Frame>)
    requires forall f | f in frames :: !f.ReadyForQuery?
    ensures CountReady(frames) == 0
    decreases |frames|
  {
    if 0 < |frames| {
      NoneReady(frames[1..]);
    }
  }

  lemma OneReady()
    ensures CountReady([ReadyForQuery]) == 1
  {
    assert [ReadyForQuery][1..] == [];
  }

  predicate EndsCycle(m: Msg) { m.Query? || m.Sync? || m.Unsupported? }

  lemma ReadyStep(env: Env, s: State, m: Msg, a: Answer)
    ensures CountReady(Step(env, s, m, a).frames) == if EndsCycle(m) then 1 else 0
  {
    hide RenderAll, Trim, Inline, CountReady;
    var frames := Step(env, s, m, a).frames;
    if EndsCycle(m) {
      var init := frames[..|frames| - 1];
      assert frames == init + [ReadyForQuery];
      NoneReady(init);
      CountReadyConcat(init, [ReadyForQuery]);
      OneReady();
    } else {
      NoneReady(frames);
    }
  }

  ghost function TotalReady(env: Env, trace: Trace): nat
    decreases |trace|
  {
    if |trace| == 0 then 0
    else TotalReady(env, trace[..|trace| - 1]) + CountReady(EffectAt(env, trace, |trace| - 1).frames)
  }

  ghost function CountCycles(trace: Trace): nat {
    if |trace| == 0 then 0
    else CountCycles(trace[..|trace| - 1]) + (if EndsCycle(trace[|trace| - 1].0) then 1 else 0)
  }

  /** A client that waits for ReadyForQuery is never left waiting and never answered twice:
      one per Query, Sync or unsupported message, whatever went wrong in between. */
  lemma {:induction false} ReadyExact(env: Env, trace: Trace)
    ensures TotalReady(env, trace) == CountCycles(trace)
    decreases |trace|
  {
    if 0 < |trace| {
      var n := |trace| - 1;
      ReadyExact(env, trace[..n]);
      ReadyStep(env, After(env, trace[..n]), trace[n].0, trace[n].1);
    }
  }

  // ---- portals and the statements they were bound to ----

  /** Re-parsing a statement never changes what a portal executes, but changes what
      Describe reports for it exactly when the portal was bound to that name and the new
      statement's columns differ from the old one's. */
  lemma ReparseAndPortals(env: Env, s: State, stmt: Name, sql: Sql, a: Answer, name: Name)
    requires !s.skip && env.firewall(sql).Allow? && a.prepare.Described?
    requires name in s.portals && s.portals[name].stmt in s.prepared
    ensures var s' := Step(env, s, Parse(Some((stmt, sql))), a).state;
      && s'.portals[name].sql == s.portals[name].sql
      && (DescribeFrames(s', false, name) != DescribeFrames(s, false, name) <==>
          s.portals[name].stmt == stmt && a.prepare.columns != s.prepared[stmt].columns)
  {
  }

  // ---- with the real firewall ----

  /** The firewall of a session under `policy`, for whatever the SQL parser makes of a text. */
  function PolicyFirewall(parse: Sql -> Option<seq<Policy.Node>>, policy: Policy.Policy): Sql -> Policy.Decision {
    sql => Policy.Evaluate(parse(sql), policy, Policy.POSTGRES)
  }

  /** Every text a run hands the backend parses to statements that are, under their EXPLAINs, of
      kinds the policy allows, and nowhere in them is a listed function called as an expression.
      It is free of anything forbidden exactly when nothing forbidden stands where the firewall
      does not look: nested in an outermost statement, or called as a table. */
  lemma BackendSeesNoDanger(parse: Sql -> Option<seq<Policy.Node>>, policy: Policy.Policy, lib: Foreign,
                            trace: Trace, i: nat, c: Call)
    requires i < |trace|
    requires c in EffectAt(Env(PolicyFirewall(parse, policy), lib), trace, i).calls
    ensures parse(c.sql).Some? && forall k | 0 <= k < |parse(c.sql).value| ::
      var n := parse(c.sql).value[k];
      && !Policy.HasDanger(n, Policy.POSTGRES.dangerous)
      && Policy.KindAllowed(Policy.Explained(n), policy, Policy.POSTGRES.safeVars)
    ensures (forall k | 0 <= k < |parse(c.sql).value| :: Policy.Clean(parse(c.sql).value[k], policy, Policy.POSTGRES)) <==>
      (forall k | 0 <= k < |parse(c.sql).value| :: Policy.NothingUnseen(parse(c.sql).value[k], policy, Policy.POSTGRES))
  {
    hide Policy.Clean, Policy.NothingUnseen;
    var env := Env(PolicyFirewall(parse, policy), lib);
    OnlyAllowedSqlReachesBackend(env, trace, i);
    assert env.firewall(c.sql).Allow?;
    Policy.EvaluateExact(parse(c.sql), policy, Policy.POSTGRES);
    Policy.AllowedCleanExact(parse(c.sql), policy, Policy.POSTGRES);
  }
}
