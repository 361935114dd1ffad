/** What a client of the PostgreSQL front end reads in answer to each message, and what the
    backend is asked for it. */
module PgAnswers {
  import opened Common
  import opened Bytes
  import opened PgInline
  import opened PgLiteral
  import opened PgRender
  import opened PgSession
  import Policy

  // ---- reading frames ----

  /** The frames from `k` on are these rows, in order, and the completion behind them. */
  ghost predicate RowsThenDone(frames: seq<Frame>, k: nat, rows: seq<Row>, tag: seq<byte>) {
    && k + |rows| < |frames|
    && (forall j | 0 <= j < |rows| :: frames[k + j] == DataRow(rows[j]))
    && frames[k + |rows|] == CommandComplete(tag)
  }

  /** One description of exactly these names, every column announced as text. */
  ghost predicate DescribesAsText(f: Frame, columns: seq<seq<byte>>) {
    && f.RowDescription? && |f.columns| == |columns|
    && forall i | 0 <= i < |columns| :: f.columns[i].0 == columns[i] && f.columns[i].1 == 25
  }

  // ---- queries ----

  /** An allowed query that the backend answers: the columns, every row in order, the
      completion, and readiness. Without columns there is no description and no row. */
  lemma QueryAnswered(env: Env, s: State, sql: Sql, a: Answer)
    requires 0 < |Trim(sql)| && env.firewall(sql).Allow? && a.run.Rows?
    ensures var e := Step(env, s, Query(sql), a); var n := |a.run.rows|;
      && e.state == s && e.calls == [Run(sql)]
      && (|a.run.columns| > 0 ==>
            && |e.frames| == n + 3 && DescribesAsText(e.frames[0], a.run.columns)
            && RowsThenDone(e.frames, 1, a.run.rows, a.run.tag) && e.frames[n + 2] == ReadyForQuery)
      && (|a.run.columns| == 0 ==> e.frames == [NoData, CommandComplete(a.run.tag), ReadyForQuery])
  {
    hide Trim;
  }

  /** A query that is blank, denied, or fails at the pool or at the backend: the one frame that
      says so, and readiness. Only the last reaches the backend. */
  lemma QueryRefused(env: Env, s: State, sql: Sql, a: Answer)
    ensures var e := Step(env, s, Query(sql), a);
      && e.state == s
      && (|Trim(sql)| == 0 ==> e.frames == [EmptyQueryResponse, ReadyForQuery] && e.calls == [])
      && (|Trim(sql)| > 0 && env.firewall(sql).Deny? ==>
            e.frames == [ErrorResponse("42501", env.firewall(sql).reason), ReadyForQuery] && e.calls == [])
      && (|Trim(sql)| > 0 && env.firewall(sql).Allow? && a.run.NoClient? ==>
            e.frames == [ErrorResponse("58000", "backend unavailable"), ReadyForQuery] && e.calls == [])
      && (|Trim(sql)| > 0 && env.firewall(sql).Allow? && a.run.QueryFailed? ==>
            e.frames == [ErrorResponse("58000", "query failed"), ReadyForQuery] && e.calls == [Run(sql)])
  {
    hide Trim;
  }

  // ---- portals ----

  /** An Execute of a known portal whose text is allowed and which the backend answers: every row
      in order and the completion, no description; outside recovery the state stays. */
  lemma ExecuteAnswered(env: Env, s: State, portal: Name, a: Answer)
    requires !s.skip && portal in s.portals && env.firewall(s.portals[portal].sql).Allow? && a.run.Rows?
    ensures var e := Step(env, s, Execute(portal), a);
      && e.state == s && e.calls == [Run(s.portals[portal].sql)]
      && |e.frames| == |a.run.rows| + 1 && RowsThenDone(e.frames, 0, a.run.rows, a.run.tag)
  {
  }

  /** The single error of any other Execute, and the recovery it starts. */
  lemma ExecuteRefused(env: Env, s: State, portal: Name, a: Answer)
    requires !s.skip
    ensures var e := Step(env, s, Execute(portal), a);
      && (portal !in s.portals ==>
            e == Effect(s.(skip := true), [ErrorResponse("58000", "unknown portal")], []))
      && (portal in s.portals ==> var sql := s.portals[portal].sql;
            && (env.firewall(sql).Deny? ==>
                  e == Effect(s.(skip := true), [ErrorResponse("42501", env.firewall(sql).reason)], []))
            && (env.firewall(sql).Allow? && a.run.NoClient? ==>
                  e == Effect(s.(skip := true), [ErrorResponse("58000", "backend unavailable")], []))
            && (env.firewall(sql).Allow? && a.run.QueryFailed? ==>
                  e == Effect(s.(skip := true), [ErrorResponse("58000", "query failed")], [Run(sql)])))
  {
  }

  // ---- statements and values ----

  /** A Parse succeeds exactly when the text is allowed and the backend describes it. Then the
      statement is kept as described; otherwise nothing is, and one error starts recovery. Only
      an allowed text reaches the backend. */
  lemma ParseAnswered(env: Env, s: State, stmt: Name, sql: Sql, a: Answer)
    requires !s.skip
    ensures var e := Step(env, s, Parse(Some((stmt, sql))), a);
      && (env.firewall(sql).Allow? && a.prepare.Described? ==>
            && e.frames == [ParseComplete] && e.calls == [Prepare(sql)] && !e.state.skip && e.state.portals == s.portals
            && stmt in e.state.prepared
            && e.state.prepared[stmt] == Prepared(sql, a.prepare.oids, a.prepare.columns)
            && (forall n | n != stmt :: SameEntry(s.prepared, e.state.prepared, n)))
      && (env.firewall(sql).Allow? && !a.prepare.Described? ==>
            && e.frames == [ErrorResponse("58000", "statement parse failed")] && e.state == s.(skip := true)
            && e.calls == if a.prepare.NoPool? then [] else [Prepare(sql)])
      && (env.firewall(sql).Deny? ==>
            e == Effect(s.(skip := true), [ErrorResponse("42501", env.firewall(sql).reason)], []))
  {
  }

  /** The literal of the `i`th value bound: by the type the backend told and the format the client
      gave, or neither known (no type, text). */
  function ValueAt(lib: Foreign, oids: seq<int>, b: BindMsg, i: nat): Common.Result<seq<byte>, string>
    requires i < |b.params|
  {
    var oid := if i < |oids| then oids[i] else 0;
    var format := if i < |b.formats| then b.formats[i] else 0;
    RenderParam(lib, oid, format, b.params[i])
  }

  /** All the values are rendered, each at its place, or the first failure is the answer. */
  lemma {:induction false} RenderAllExact(lib: Foreign, oids: seq<int>, b: BindMsg, n: nat)
    requires n <= |b.params|
    ensures var r := RenderAll(lib, oids, b, n);
      && (r.Ok? <==> forall i: nat | i < n :: ValueAt(lib, oids, b, i).Ok?)
      && (r.Ok? ==> |r.value| == n && forall i: nat | i < n :: ValueAt(lib, oids, b, i) == Ok(r.value[i]))
      && (r.Err? ==> exists i: nat :: i < n && FirstFailure(lib, oids, b, i, r.error))
    decreases n
  {
    hide RenderParam;
    if n > 0 {
      RenderAllExact(lib, oids, b, n - 1);
      assert ValueAt(lib, oids, b, n - 1) == RenderParam(lib, OidOf(oids, n - 1), FormatOf(b, n - 1), b.params[n - 1]);
      if RenderAll(lib, oids, b, n - 1).Ok? && ValueAt(lib, oids, b, n - 1).Err? {
        assert FirstFailure(lib, oids, b, n - 1, ValueAt(lib, oids, b, n - 1).error);
      }
    }
  }

  ghost predicate FirstFailure(lib: Foreign, oids: seq<int>, b: BindMsg, i: nat, e: string) {
    && i < |b.params| && ValueAt(lib, oids, b, i) == Err(e)
    && forall j: nat | j < i :: ValueAt(lib, oids, b, j).Ok?
  }

  /** These are the literals of all the values bound. */
  ghost predicate Literals(lib: Foreign, oids: seq<int>, b: BindMsg, values: seq<seq<byte>>) {
    |values| == |b.params| && forall i: nat | i < |values| :: ValueAt(lib, oids, b, i) == Ok(values[i])
  }

  lemma RenderedLiterals(lib: Foreign, oids: seq<int>, b: BindMsg, values: seq<seq<byte>>)
    ensures Literals(lib, oids, b, values) <==> RenderAll(lib, oids, b, |b.params|) == Ok(values)
  {
    hide RenderAll, ValueAt;
    RenderAllExact(lib, oids, b, |b.params|);
    var r := RenderAll(lib, oids, b, |b.params|);
    if Literals(lib, oids, b, values) {
      assert forall i: nat | i < |values| :: values[i] == r.value[i];
      assert values == r.value;
    }
  }

  /** A Bind succeeds exactly when its statement is known and every value has a literal. Then the
      portal holds the statement with the literals inlined; otherwise nothing changes, one error
      starts recovery, and it is that of the first value without a literal. */
  lemma BindAnswered(env: Env, s: State, b: BindMsg, a: Answer)
    requires !s.skip
    ensures var e := Step(env, s, Bind(Some(b)), a);
      && e.calls == []
      && (b.stmt !in s.prepared ==>
            e.state == s.(skip := true) && e.frames == [ErrorResponse("58000", "unknown prepared statement")])
      && (b.stmt in s.prepared ==> var oids := s.prepared[b.stmt].oids;
            && ((exists i: nat :: i < |b.params| && ValueAt(env.lib, oids, b, i).Err?) ==>
                  && e.state == s.(skip := true) && |e.frames| == 1 && e.frames[0].ErrorResponse?
                  && e.frames[0].code == "0A000"
                  && exists i: nat :: FirstFailure(env.lib, oids, b, i, e.frames[0].message))
            && (forall values | Literals(env.lib, oids, b, values) ::
                  && e.frames == [BindComplete] && e.state.prepared == s.prepared && !e.state.skip
                  && b.portal in e.state.portals
                  && e.state.portals[b.portal] == Portal(b.stmt, Inline(s.prepared[b.stmt].sql, values))
                  && (forall n | n != b.portal :: SameEntry(s.portals, e.state.portals, n))))
      && (e.frames == [BindComplete] ==>
            b.stmt in s.prepared && exists values :: Literals(env.lib, s.prepared[b.stmt].oids, b, values))
  {
    hide RenderAll, Inline, ValueAt;
    if b.stmt in s.prepared {
      var oids := s.prepared[b.stmt].oids;
      RenderAllExact(env.lib, oids, b, |b.params|);
      var r := RenderAll(env.lib, oids, b, |b.params|);
      if r.Ok? {
        RenderedLiterals(env.lib, oids, b, r.value);
      }
      forall values | Literals(env.lib, oids, b, values)
        ensures r == Ok(values)
      {
        RenderedLiterals(env.lib, oids, b, values);
      }
    }
  }

  /** What Describe answers: for a statement its parameter types and its columns, for a portal the
      columns its statement has now; without columns, or if there is no such thing, no data. */
  lemma DescribeAnswered(env: Env, s: State, isStmt: bool, name: Name, a: Answer)
    requires !s.skip
    ensures var e := Step(env, s, Describe(Some((isStmt, name))), a);
      && e.state == s && e.calls == []
      && (isStmt && name in s.prepared ==>
            && |e.frames| == 2 && e.frames[0] == ParameterDescription(s.prepared[name].oids)
            && (s.prepared[name].columns == [] ==> e.frames[1] == NoData)
            && (s.prepared[name].columns != [] ==> e.frames[1] == RowDescription(s.prepared[name].columns)))
      && (!isStmt && name in s.portals && s.portals[name].stmt in s.prepared ==>
            var columns := s.prepared[s.portals[name].stmt].columns;
            && (columns == [] ==> e.frames == [NoData])
            && (columns != [] ==> e.frames == [RowDescription(columns)]))
      && ((isStmt && name !in s.prepared) || (!isStmt && !(name in s.portals && s.portals[name].stmt in s.prepared)) ==>
            e.frames == [NoData])
  {
  }

  /** The other messages: Close forgets its target and nothing else, Sync ends recovery, Flush and
      Terminate do nothing, what does not parse is refused. None reaches the backend. */
  lemma OthersAnswered(env: Env, s: State, m: Msg, a: Answer)
    requires !s.skip && !m.Query? && !m.Execute?
    requires (m.Parse? ==> m.body == None) && (m.Bind? ==> m.bind == None) && (m.Describe? ==> m.target == None)
    ensures var e := Step(env, s, m, a);
      && e.calls == []
      && match m
         case Parse(_) => e.state == s.(skip := true) && e.frames == [ErrorResponse("0A000", "bad Parse")]
         case Bind(_) => e.state == s.(skip := true) && e.frames == [ErrorResponse("0A000", "bad Bind")]
         case Describe(_) => e.state == s && e.frames == [NoData]
         case Close(target) =>
           && e.frames == [CloseComplete] && !e.state.skip
           && (forall n :: if target == Some((true, n)) then n !in e.state.prepared
                           else SameEntry(s.prepared, e.state.prepared, n))
           && (forall n :: if target == Some((false, n)) then n !in e.state.portals
                           else SameEntry(s.portals, e.state.portals, n))
         case Sync => e.state == s && e.frames == [ReadyForQuery]
         case Unsupported(_) => e.state == s && e.frames == [ErrorResponse("0A000", "unsupported message"), ReadyForQuery]
         case _ => e.state == s && e.frames == []
  {
  }

  // ---- in every run ----

  /** Executing a portal hands the backend the statement as it was parsed, with the literals of
      the values that were bound in its placeholders, and gives the client every row the backend
      answers with. */
  lemma ExecutedInRun(env: Env, trace: Trace, name: Name, portal: Portal, p: Prepared, b: BindMsg, i: nat, j: nat,
                      values: seq<seq<byte>>, a: Answer)
    requires !After(env, trace).skip
    requires PortalFrom(env, trace, name, portal, p, b, i, j) && Literals(env.lib, p.oids, b, values)
    requires env.firewall(portal.sql).Allow? && a.run.Rows?
    ensures var e := EffectAt(env, trace + [(Execute(name), a)], |trace|);
      && e.calls == [Run(Inline(p.sql, values))]
      && |e.frames| == |a.run.rows| + 1 && RowsThenDone(e.frames, 0, a.run.rows, a.run.tag)
  {
    hide RenderAll, Step, Inline, ValueAt;
    PortalExact(env, trace, name, portal);
    RenderedLiterals(env.lib, p.oids, b, values);
    assert (trace + [(Execute(name), a)])[..|trace|] == trace;
    ExecuteAnswered(env, After(env, trace), name, a);
  }
}
