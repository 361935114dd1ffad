/** The query firewall: an allowlist of statement kinds and a whole-tree denylist of
    functions, over an abstract syntax tree with the node kinds it distinguishes. */
module Policy {
  import opened Common

  datatype Decision = Allow | Deny(reason: string)

  datatype Policy = ReadOnly | ReadWrite | Custom(dml: bool, ddl: bool, admin: bool)

  /** What a policy switches on, as `evaluate` unpacks it. */
  datatype Flags = Flags(dml: bool, ddl: bool, admin: bool)

  function FlagsOf(p: Policy): Flags {
    match p
    case ReadOnly => Flags(false, false, false)
    case ReadWrite => Flags(true, false, false)
    case Custom(dml, ddl, admin) => Flags(dml, ddl, admin)
  }

  /** A variable in a SET: its full spelling and its dotted segments. */
  datatype VarName = VarName(text: string, segments: seq<string>)

  /** Statements, queries and expressions. `kids` are the parts the firewall only walks
      through: clauses, arguments, filters, values, and any statement nested in them. A
      function call is a `Call` where it is an expression and a `TableCall` where it stands
      for a table. */
  datatype Node =
    | QueryStmt(query: Node)
    | ExplainTable
    | Explain(stmt: Node)
    | Show(kids: seq<Node>)
    | Use
    | SetNames
    | SetVariable(local: bool, vars: seq<VarName>, kids: seq<Node>)
    | Dml(kids: seq<Node>)
    | Ddl(kids: seq<Node>)
    | Grant(kids: seq<Node>)
    | Transaction(kids: seq<Node>)
    | OtherStmt(kids: seq<Node>)
    | Query(body: Node, kids: seq<Node>)
    | Select(into: bool, kids: seq<Node>)
    | SetQuery(query: Node)
    | SetOperation(left: Node, right: Node)
    | OtherSet(kids: seq<Node>)
    | Call(name: seq<string>, kids: seq<Node>)
    | TableCall(name: seq<string>, kids: seq<Node>)
    | Expr(kids: seq<Node>)

  function Children(n: Node): (r: seq<Node>)
    ensures forall i | 0 <= i < |r| :: r[i] < n
  {
    match n
    case QueryStmt(q) => [q]
    case ExplainTable => []
    case Explain(s) => [s]
    case Use => []
    case SetNames => []
    case Query(body, kids) => [body] + kids
    case SetQuery(q) => [q]
    case SetOperation(l, r) => [l, r]
    case _ => n.kids
  }

  // ---- profiles ----

  /** A name without capitals, as the lists are written. */
  type Listed = w: string | forall i | 0 <= i < |w| :: !('A' <= w[i] <= 'Z')

  datatype Profile = Profile(dangerous: seq<Listed>, safeVars: seq<Listed>)

  const SHARED_DANGEROUS: seq<Listed> := ["load_file", "sys_exec", "sys_eval", "sys_get", "lo_import", "lo_export"]

  /** PostgreSQL's own file and remote functions. */
  const PG_DANGEROUS: seq<Listed> :=
    ["pg_read_file", "pg_read_binary_file", "pg_ls_dir", "pg_stat_file", "dblink", "dblink_exec"]

  const MYSQL_CHARSETS: seq<Listed> :=
    ["names", "character_set_client", "character_set_results", "character_set_connection", "collation_connection"]

  const MYSQL_LIMITS: seq<Listed> :=
    ["wait_timeout", "net_read_timeout", "net_write_timeout", "max_execution_time", "group_concat_max_len"]

  const MYSQL_MODES: seq<Listed> :=
    ["autocommit", "time_zone", "sql_safe_updates", "transaction_isolation", "tx_isolation"]

  const PG_TIMEOUTS: seq<Listed> :=
    ["statement_timeout", "lock_timeout", "idle_in_transaction_session_timeout", "application_name"]

  const PG_FORMATS: seq<Listed> :=
    ["names", "client_encoding", "timezone", "datestyle", "extra_float_digits", "bytea_output", "intervalstyle"]

  const MYSQL := Profile(SHARED_DANGEROUS, MYSQL_CHARSETS + MYSQL_LIMITS + MYSQL_MODES)

  const POSTGRES := Profile(SHARED_DANGEROUS + PG_DANGEROUS, PG_TIMEOUTS + PG_FORMATS)

  /** `to_ascii_lowercase`. */
  function Lower(s: string): (r: string)
    ensures |r| == |s|
  {
    seq(|s|, i requires 0 <= i < |s| => if 'A' <= s[i] <= 'Z' then s[i] + 32 as char else s[i])
  }

  function LastLower(segments: seq<string>): string {
    if |segments| == 0 then "" else Lower(segments[|segments| - 1])
  }

  predicate Contains(s: string, p: string) {
    exists i | 0 <= i <= |s| :: p <= s[i..]
  }

  // ---- the checks ----

  function CheckVar(v: VarName, safe: seq<Listed>): Decision {
    var full := Lower(v.text);
    if Contains(full, "@@global") || Contains(full, "global.") then Deny("SET GLOBAL not allowed by policy")
    else if "@" <= full then Deny("setting user-defined variables not allowed")
    else if LastLower(v.segments) !in safe then Deny("this session variable is not on the allowlist")
    else Allow
  }

  function CheckVars(vars: seq<VarName>, safe: seq<Listed>): Decision {
    if |vars| == 0 then Allow
    else
      var d := CheckVar(vars[0], safe);
      if d.Deny? then d else CheckVars(vars[1..], safe)
  }

  function ScanInto(body: Node): Option<Decision> {
    match body
    case Select(into, _) => if into then Some(Deny("INTO OUTFILE/DUMPFILE not allowed")) else None
    case SetQuery(q) => if q.Query? then ScanInto(q.body) else None
    case SetOperation(l, r) => if ScanInto(l).Some? then ScanInto(l) else ScanInto(r)
    case _ => None
  }

  function CheckQuery(q: Node): Decision {
    if q.Query? && ScanInto(q.body).Some? then ScanInto(q.body).value else Allow
  }

  function CheckStatement(n: Node, f: Flags, safe: seq<Listed>): Decision {
    match n
    case QueryStmt(q) => CheckQuery(q)
    case ExplainTable => Allow
    case Explain(s) => CheckStatement(s, f, safe)
    case Show(_) => Allow
    case Use => Allow
    case SetNames => Allow
    case SetVariable(local, vars, _) =>
      if local then Deny("SET LOCAL not allowed by policy") else CheckVars(vars, safe)
    case Dml(_) => if f.dml then Allow else Deny("DML not allowed by policy")
    case Ddl(_) => if f.ddl then Allow else Deny("DDL not allowed by policy")
    case Grant(_) => if f.admin then Allow else Deny("admin not allowed by policy")
    case Transaction(_) => Allow
    case _ => Deny("statement kind not allowed by policy")
  }

  /** An expression that calls a function on the list. */
  function Calls(dangerous: seq<Listed>): Node -> bool {
    (n: Node) => n.Call? && LastLower(n.name) in dangerous
  }

  /** The visitor: the node itself, then everything below it, stopping at the first hit. */
  predicate Scan(n: Node, hit: Node -> bool)
    decreases n, 1, 0
  {
    hit(n) || ScanAll(n, Children(n), hit)
  }

  predicate ScanAll(n: Node, kids: seq<Node>, hit: Node -> bool)
    requires forall i | 0 <= i < |kids| :: kids[i] < n
    decreases n, 0, |kids|
  {
    0 < |kids| && (Scan(kids[0], hit) || ScanAll(n, kids[1..], hit))
  }

  function FirstDeny(stmts: seq<Node>, f: Flags, safe: seq<Listed>): Decision {
    if |stmts| == 0 then Allow
    else
      var d := CheckStatement(stmts[0], f, safe);
      if d.Deny? then d else FirstDeny(stmts[1..], f, safe)
  }

  function FirstDanger(stmts: seq<Node>, dangerous: seq<Listed>): Decision {
    if |stmts| == 0 then Allow
    else if Scan(stmts[0], Calls(dangerous)) then Deny("dangerous builtin not allowed")
    else FirstDanger(stmts[1..], dangerous)
  }

  /** `evaluate`, given what the parser made of the text (`None` if it did not parse). */
  function Evaluate(parsed: Option<seq<Node>>, policy: Policy, profile: Profile): Decision {
    match parsed
    case None => Deny("statement did not parse")
    case Some(stmts) =>
      var f := FlagsOf(policy);
      if |stmts| == 0 then Deny("empty statement")
      else if |stmts| > 1 && !(f.dml && f.ddl) then Deny("multiple statements per request not allowed")
      else
        var d := FirstDeny(stmts, f, profile.safeVars);
        if d.Deny? then d else FirstDanger(stmts, profile.dangerous)
  }

  // ---- what a tree contains, independently of the visitor ----

  /** Following child numbers down from `n` leads to `target`. */
  ghost predicate Leads(n: Node, path: seq<nat>, target: Node) {
    if |path| == 0 then n == target
    else path[0] < |Children(n)| && Leads(Children(n)[path[0]], path[1..], target)
  }

  ghost predicate Has(n: Node, hit: Node -> bool) {
    exists path, target :: Leads(n, path, target) && hit(target)
  }

  /** An expression that calls a listed function, by whatever case of its name. */
  function ListedCalls(dangerous: seq<Listed>): Node -> bool {
    (n: Node) => n.Call? && IsListed(LastSegment(n.name), dangerous)
  }

  ghost predicate HasDanger(n: Node, dangerous: seq<Listed>) {
    Has(n, ListedCalls(dangerous))
  }

  /** The visitor stops exactly when what it looks for is somewhere, at any depth. */
  lemma {:induction false} ScanExact(n: Node, hit: Node -> bool)
    ensures Scan(n, hit) <==> Has(n, hit)
    decreases n, 1, 0
  {
    ScanAllExact(n, Children(n), hit);
    HasExact(n, hit);
  }

  lemma {:induction false} ScanAllExact(n: Node, kids: seq<Node>, hit: Node -> bool)
    requires forall i | 0 <= i < |kids| :: kids[i] < n
    ensures ScanAll(n, kids, hit) <==> exists k :: 0 <= k < |kids| && Has(kids[k], hit)
    decreases n, 0, |kids|
  {
    if 0 < |kids| {
      ScanExact(kids[0], hit);
      ScanAllExact(n, kids[1..], hit);
      if ScanAll(n, kids[1..], hit) {
        var k :| 0 <= k < |kids[1..]| && Has(kids[1..][k], hit);
        assert Has(kids[k + 1], hit);
      }
      forall k | 0 <= k < |kids| && Has(kids[k], hit)
        ensures ScanAll(n, kids, hit)
      {
        if 0 < k {
          assert Has(kids[1..][k - 1], hit);
        }
      }
    }
  }

  /** Here, or below. */
  lemma HasExact(n: Node, hit: Node -> bool)
    ensures Has(n, hit) <==> hit(n) || Below(n, hit)
  {
    if hit(n) {
      assert Leads(n, [], n);
    }
    if k: nat :| k < |Children(n)| && Has(Children(n)[k], hit) {
      var path, target :| Leads(Children(n)[k], path, target) && hit(target);
      assert ([k] + path)[1..] == path;
      assert Leads(n, [k] + path, target);
    }
    forall path, target | Leads(n, path, target) && hit(target)
      ensures hit(n) || Below(n, hit)
    {
      if 0 < |path| {
        assert Leads(Children(n)[path[0]], path[1..], target);
        assert Has(Children(n)[path[0]], hit);
      }
    }
  }

  ghost predicate Below(n: Node, hit: Node -> bool) {
    exists k :: 0 <= k < |Children(n)| && Has(Children(n)[k], hit)
  }

  /** The selects of a query's set expression, reached through nested queries and set
      operations only: `true` goes left or in, `false` goes right. */
  ghost predicate Arm(body: Node, path: seq<bool>, select: Node) {
    if |path| == 0 then body == select && body.Select?
    else match body
         case SetQuery(q) => path[0] && q.Query? && Arm(q.body, path[1..], select)
         case SetOperation(l, r) => Arm(if path[0] then l else r, path[1..], select)
         case _ => false
  }

  ghost predicate HasInto(body: Node) {
    exists path, select :: Arm(body, path, select) && select.Select? && select.into
  }

  /** The INTO scan denies exactly when some arm of the set expression has an INTO. */
  lemma {:induction false} ScanIntoExact(body: Node)
    ensures ScanInto(body).Some? <==> HasInto(body)
    ensures ScanInto(body).Some? ==> ScanInto(body).value.Deny?
    decreases body
  {
    match body
    case Select(into, _) =>
      assert Arm(body, [], body);
    case SetQuery(q) =>
      if q.Query? {
        ScanIntoExact(q.body);
        IntoBelow(body, true, q.body);
      }
    case SetOperation(l, r) =>
      ScanIntoExact(l);
      ScanIntoExact(r);
      IntoBelow(body, true, l);
      IntoBelow(body, false, r);
      forall path, select | Arm(body, path, select) && select.Select? && select.into
        ensures HasInto(l) || HasInto(r)
      {
        assert Arm(if path[0] then l else r, path[1..], select);
      }
    case _ =>
  }

  lemma IntoBelow(body: Node, step: bool, below: Node)
    requires match body
             case SetQuery(q) => step && q.Query? && below == q.body
             case SetOperation(l, r) => below == if step then l else r
             case _ => false
    ensures HasInto(below) ==> HasInto(body)
    ensures body.SetQuery? ==> (HasInto(body) ==> HasInto(below))
  {
    if HasInto(below) {
      var path, select :| Arm(below, path, select) && select.Select? && select.into;
      assert ([step] + path)[1..] == path;
      assert Arm(body, [step] + path, select);
    }
    if body.SetQuery? && HasInto(body) {
      var path, select :| Arm(body, path, select) && select.Select? && select.into;
      assert Arm(below, path[1..], select);
    }
  }

  // ---- soundness ----

  lemma {:induction false} FirstDangerExact(stmts: seq<Node>, dangerous: seq<Listed>)
    ensures FirstDanger(stmts, dangerous).Allow? <==> forall i | 0 <= i < |stmts| :: !HasDanger(stmts[i], dangerous)
    decreases |stmts|
  {
    if 0 < |stmts| {
      ScanExact(stmts[0], Calls(dangerous));
      CallsExact(stmts[0], dangerous);
      FirstDangerExact(stmts[1..], dangerous);
      assert forall i | 0 < i < |stmts| :: stmts[i] == stmts[1..][i - 1];
    }
  }

  /** What the visitor looks for is what the list means. */
  lemma CallsExact(n: Node, dangerous: seq<Listed>)
    ensures Has(n, Calls(dangerous)) <==> HasDanger(n, dangerous)
  {
    forall m: Node | m.Call?
      ensures Calls(dangerous)(m) <==> ListedCalls(dangerous)(m)
    {
      LowerLast(m.name);
      ListedExact(LastSegment(m.name), dangerous);
    }
    hide Lower, IsListed;
    if path, target :| Leads(n, path, target) && Calls(dangerous)(target) {
      assert ListedCalls(dangerous)(target);
    }
    if path, target :| Leads(n, path, target) && ListedCalls(dangerous)(target) {
      assert Calls(dangerous)(target);
    }
  }

  lemma {:induction false} FirstDenyExact(stmts: seq<Node>, f: Flags, safe: seq<Listed>)
    ensures FirstDeny(stmts, f, safe).Allow? <==>
      forall i | 0 <= i < |stmts| :: CheckStatement(stmts[i], f, safe).Allow?
    decreases |stmts|
  {
    if 0 < |stmts| {
      FirstDenyExact(stmts[1..], f, safe);
      assert forall i | 0 < i < |stmts| :: stmts[i] == stmts[1..][i - 1];
    }
  }

  /** Below its EXPLAINs, what a statement is. */
  ghost function Explained(n: Node): Node {
    match n
    case Explain(s) => Explained(s)
    case _ => n
  }

  // ---- what a policy means ----

  predicate AllowsDml(p: Policy) { p == ReadWrite || (p.Custom? && p.dml) }

  predicate AllowsDdl(p: Policy) { p.Custom? && p.ddl }

  predicate AllowsAdmin(p: Policy) { p.Custom? && p.admin }

  /** The same letter, in whichever case. */
  predicate SameLetter(c: char, d: char) {
    || c == d
    || ('A' <= c <= 'Z' && 'a' <= d <= 'z' && d - c == 'a' - 'A')
    || ('a' <= c <= 'z' && 'A' <= d <= 'Z' && c - d == 'a' - 'A')
  }

  predicate SameButCase(s: string, t: string) {
    |s| == |t| && forall i | 0 <= i < |s| :: SameLetter(s[i], t[i])
  }

  /** The word stands somewhere in the text, in whatever case. */
  ghost predicate Mentions(s: string, word: string) {
    exists i :: MentionsAt(s, word, i)
  }

  predicate MentionsAt(s: string, word: string, i: int) {
    0 <= i <= |s| - |word| && SameButCase(s[i..i + |word|], word)
  }

  predicate IsListed(name: string, list: seq<Listed>) {
    exists w | w in list :: SameButCase(name, w)
  }

  function LastSegment(segments: seq<string>): string {
    if |segments| == 0 then "" else segments[|segments| - 1]
  }

  /** A session variable on the allowlist, neither global nor the user's own. */
  ghost predicate Settable(v: VarName, safe: seq<Listed>) {
    && !Mentions(v.text, "@@global") && !Mentions(v.text, "global.")
    && !(|v.text| > 0 && v.text[0] == '@')
    && IsListed(LastSegment(v.segments), safe)
  }

  /** The statement kinds a policy lets through, written as one table. */
  ghost predicate KindAllowed(n: Node, policy: Policy, safe: seq<Listed>) {
    match n
    case QueryStmt(q) => q.Query? ==> !HasInto(q.body)
    case SetVariable(local, vars, _) => !local && forall i | 0 <= i < |vars| :: Settable(vars[i], safe)
    case Dml(_) => AllowsDml(policy)
    case Ddl(_) => AllowsDdl(policy)
    case Grant(_) => AllowsAdmin(policy)
    case _ => n.ExplainTable? || n.Show? || n.Use? || n.SetNames? || n.Transaction?
  }

  lemma LowerExact(s: string, w: Listed)
    ensures Lower(s) == w <==> SameButCase(s, w)
  {
    if Lower(s) == w {
      assert forall i | 0 <= i < |s| :: SameLetter(s[i], Lower(s)[i]);
    }
    if SameButCase(s, w) {
      forall i | 0 <= i < |s|
        ensures Lower(s)[i] == w[i]
      {
        assert SameLetter(s[i], w[i]);
      }
    }
  }

  lemma ListedExact(s: string, list: seq<Listed>)
    ensures Lower(s) in list <==> IsListed(s, list)
  {
    hide Lower, SameButCase;
    forall w | w in list
      ensures Lower(s) == w <==> SameButCase(s, w)
    {
      LowerExact(s, w);
    }
  }

  lemma MentionsExact(s: string, word: Listed)
    ensures Contains(Lower(s), word) <==> Mentions(s, word)
  {
    hide Lower, SameButCase;
    var low := Lower(s);
    forall i | 0 <= i <= |s|
      ensures word <= low[i..] <==> MentionsAt(s, word, i)
    {
      if i <= |s| - |word| {
        LowerPart(s, i, i + |word|);
        LowerExact(s[i..i + |word|], word);
        assert low[i..][..|word|] == low[i..i + |word|];
      }
    }
    if i :| MentionsAt(s, word, i) {
      assert word <= low[i..];
    }
  }

  lemma LowerPart(s: string, i: nat, j: nat)
    requires i <= j <= |s|
    ensures Lower(s[i..j]) == Lower(s)[i..j]
  {
  }

  /** Which variables a SET may name; the case of names does not matter. */
  lemma CheckVarExact(v: VarName, safe: seq<Listed>)
    ensures CheckVar(v, safe).Allow? <==> Settable(v, safe)
  {
    hide Contains, Mentions, IsListed, Lower;
    MentionsExact(v.text, "@@global");
    MentionsExact(v.text, "global.");
    ListedExact(LastSegment(v.segments), safe);
    LowerLast(v.segments);
    LowerAt(v.text);
  }

  lemma LowerLast(segments: seq<string>)
    ensures LastLower(segments) == Lower(LastSegment(segments))
  {
    assert Lower("") == "";
  }

  lemma LowerAt(s: string)
    ensures "@" <= Lower(s) <==> |s| > 0 && s[0] == '@'
  {
    if |s| > 0 {
      assert Lower(s)[..1] == [Lower(s)[0]];
      assert "@" == ['@'];
    }
  }

  lemma {:induction false} CheckVarsExact(vars: seq<VarName>, safe: seq<Listed>)
    ensures CheckVars(vars, safe).Allow? <==> forall i | 0 <= i < |vars| :: Settable(vars[i], safe)
    decreases |vars|
  {
    hide CheckVar, Settable;
    if 0 < |vars| {
      CheckVarExact(vars[0], safe);
      CheckVarsExact(vars[1..], safe);
      assert forall i | 0 < i < |vars| :: vars[i] == vars[1..][i - 1];
    }
  }

  lemma {:induction false} CheckStatementExact(n: Node, policy: Policy, safe: seq<Listed>)
    ensures CheckStatement(n, FlagsOf(policy), safe).Allow? <==> KindAllowed(Explained(n), policy, safe)
    decreases n
  {
    hide CheckVar, CheckVars, ScanInto, HasInto, Settable;
    match n
    case QueryStmt(q) =>
      if q.Query? {
        ScanIntoExact(q.body);
      }
    case Explain(s) => CheckStatementExact(s, policy, safe);
    case SetVariable(_, vars, _) => CheckVarsExact(vars, safe);
    case _ =>
  }

  /** Exactly what the firewall lets through: text that parses to at least one statement,
      to more than one only with DML and DDL both on, every one of an allowed kind under
      its EXPLAINs, and nowhere in any of them a call to a denylisted function. */
  lemma EvaluateExact(parsed: Option<seq<Node>>, policy: Policy, profile: Profile)
    ensures Evaluate(parsed, policy, profile).Allow? <==>
      && parsed.Some? && 0 < |parsed.value|
      && (|parsed.value| > 1 ==> AllowsDml(policy) && AllowsDdl(policy))
      && forall i | 0 <= i < |parsed.value| ::
           KindAllowed(Explained(parsed.value[i]), policy, profile.safeVars)
           && !HasDanger(parsed.value[i], profile.dangerous)
  {
    if parsed.Some? {
      var stmts, f := parsed.value, FlagsOf(policy);
      hide KindAllowed, Explained, CheckStatement, HasDanger;
      FirstDenyExact(stmts, f, profile.safeVars);
      FirstDangerExact(stmts, profile.dangerous);
      forall i | 0 <= i < |stmts|
        ensures CheckStatement(stmts[i], f, profile.safeVars).Allow?
            <==> KindAllowed(Explained(stmts[i]), policy, profile.safeVars)
      {
        CheckStatementExact(stmts[i], policy, profile.safeVars);
      }
    }
  }

  // ---- why a text is denied ----

  /** The reasons for which a statement, under its EXPLAINs, can be denied. */
  function Reasons(n: Node): seq<string> {
    match n
    case QueryStmt(_) => ["INTO OUTFILE/DUMPFILE not allowed"]
    case SetVariable(local, _, _) =>
      if local then ["SET LOCAL not allowed by policy"]
      else ["SET GLOBAL not allowed by policy", "setting user-defined variables not allowed",
            "this session variable is not on the allowlist"]
    case Dml(_) => ["DML not allowed by policy"]
    case Ddl(_) => ["DDL not allowed by policy"]
    case Grant(_) => ["admin not allowed by policy"]
    case _ => ["statement kind not allowed by policy"]
  }

  /** The `k`th statement is the first of a kind that is not let through. */
  ghost predicate FirstForbidden(stmts: seq<Node>, k: nat, policy: Policy, safe: seq<Listed>) {
    && k < |stmts| && !KindAllowed(Explained(stmts[k]), policy, safe)
    && forall j | 0 <= j < k :: KindAllowed(Explained(stmts[j]), policy, safe)
  }

  /** The reason a client is given: that of the first statement whose kind is not let through, or,
      if all are, that some listed function is called. */
  lemma DenialReason(parsed: Option<seq<Node>>, policy: Policy, profile: Profile)
    requires Evaluate(parsed, policy, profile).Deny?
    ensures var reason := Evaluate(parsed, policy, profile).reason;
      if parsed.None? then reason == "statement did not parse"
      else if parsed.value == [] then reason == "empty statement"
      else if |parsed.value| > 1 && !(AllowsDml(policy) && AllowsDdl(policy)) then
        reason == "multiple statements per request not allowed"
      else if forall i | 0 <= i < |parsed.value| :: KindAllowed(Explained(parsed.value[i]), policy, profile.safeVars) then
        reason == "dangerous builtin not allowed" && exists i :: 0 <= i < |parsed.value| && HasDanger(parsed.value[i], profile.dangerous)
      else exists k: nat ::
        FirstForbidden(parsed.value, k, policy, profile.safeVars) && reason in Reasons(Explained(parsed.value[k]))
  {
    if parsed.Some? && |parsed.value| > 0 {
      var stmts := parsed.value;
      hide KindAllowed, Explained, HasDanger, Reasons;
      var k := FirstDenyReason(stmts, policy, profile.safeVars);
      FirstDangerExact(stmts, profile.dangerous);
      DangerReason(stmts, profile.dangerous);
    }
  }

  lemma {:induction false} DangerReason(stmts: seq<Node>, dangerous: seq<Listed>)
    ensures FirstDanger(stmts, dangerous).Deny? ==> FirstDanger(stmts, dangerous).reason == "dangerous builtin not allowed"
    decreases |stmts|
  {
    if 0 < |stmts| {
      DangerReason(stmts[1..], dangerous);
    }
  }

  lemma {:induction false} FirstDenyReason(stmts: seq<Node>, policy: Policy, safe: seq<Listed>) returns (k: nat)
    ensures var d := FirstDeny(stmts, FlagsOf(policy), safe);
      if d.Deny? then FirstForbidden(stmts, k, policy, safe) && d.reason in Reasons(Explained(stmts[k]))
      else forall i | 0 <= i < |stmts| :: KindAllowed(Explained(stmts[i]), policy, safe)
    decreases |stmts|
  {
    hide KindAllowed, Explained, CheckStatement, Reasons;
    k := 0;
    if 0 < |stmts| {
      CheckStatementExact(stmts[0], policy, safe);
      StatementReason(stmts[0], policy, safe);
      if KindAllowed(Explained(stmts[0]), policy, safe) {
        k := FirstDenyReason(stmts[1..], policy, safe);
        k := k + 1;
        assert forall i | 0 < i < |stmts| :: stmts[i] == stmts[1..][i - 1];
      }
    }
  }

  lemma {:induction false} StatementReason(n: Node, policy: Policy, safe: seq<Listed>)
    ensures var d := CheckStatement(n, FlagsOf(policy), safe); d.Deny? ==> d.reason in Reasons(Explained(n))
    decreases n
  {
    hide CheckVars, ScanInto, FlagsOf, Reasons;
    match n
    case Explain(s) => StatementReason(s, policy, safe);
    case QueryStmt(q) => QueryReason(q);
    case SetVariable(local, vars, _) => SetReason(local, vars, safe);
    case _ => KindReason(n, FlagsOf(policy), safe);
  }

  lemma QueryReason(q: Node)
    ensures CheckQuery(q).Deny? ==> CheckQuery(q).reason in Reasons(QueryStmt(q))
  {
    hide ScanInto;
    if q.Query? {
      ScanIntoReason(q.body);
    }
  }

  lemma SetReason(local: bool, vars: seq<VarName>, safe: seq<Listed>)
    ensures "SET LOCAL not allowed by policy" in Reasons(SetVariable(true, vars, []))
    ensures !local && CheckVars(vars, safe).Deny? ==> CheckVars(vars, safe).reason in Reasons(SetVariable(false, vars, []))
    ensures forall kids :: Reasons(SetVariable(local, vars, kids)) == Reasons(SetVariable(local, vars, []))
  {
    hide CheckVars;
    VarsReason(vars, safe);
  }

  lemma KindReason(n: Node, f: Flags, safe: seq<Listed>)
    requires !n.Explain? && !n.QueryStmt? && !n.SetVariable?
    ensures var d := CheckStatement(n, f, safe); d.Deny? ==> d.reason in Reasons(n)
  {
  }

  lemma {:induction false} ScanIntoReason(body: Node)
    ensures ScanInto(body).Some? ==> ScanInto(body).value == Deny("INTO OUTFILE/DUMPFILE not allowed")
    decreases body
  {
    match body
    case SetQuery(q) =>
      if q.Query? {
        ScanIntoReason(q.body);
      }
    case SetOperation(l, r) =>
      ScanIntoReason(l);
      ScanIntoReason(r);
    case _ =>
  }

  lemma {:induction false} VarsReason(vars: seq<VarName>, safe: seq<Listed>)
    ensures var d := CheckVars(vars, safe); d.Deny? ==> d.reason in Reasons(SetVariable(false, [], []))
    decreases |vars|
  {
    if 0 < |vars| {
      VarsReason(vars[1..], safe);
    }
  }

  // ---- what an allowed text can still contain ----

  /** A statement of a kind the policy leaves off, or of one that is never let through. */
  function Forbidden(p: Policy): Node -> bool {
    (n: Node) => (n.Dml? && !AllowsDml(p)) || (n.Ddl? && !AllowsDdl(p)) || (n.Grant? && !AllowsAdmin(p)) || n.OtherStmt?
  }

  /** A function on the list, called as a table. */
  function TableCalls(dangerous: seq<Listed>): Node -> bool {
    (n: Node) => n.TableCall? && IsListed(LastSegment(n.name), dangerous)
  }

  /** A function on the list, called anywhere a function can be. */
  function AnyCalls(dangerous: seq<Listed>): Node -> bool {
    (n: Node) => ListedCalls(dangerous)(n) || TableCalls(dangerous)(n)
  }

  function Intos(): Node -> bool {
    (n: Node) => n.Select? && n.into
  }

  lemma {:induction false} ExplainedHas(n: Node, hit: Node -> bool)
    requires forall m: Node | m.Explain? :: !hit(m)
    ensures Has(n, hit) <==> Has(Explained(n), hit)
    decreases n
  {
    if n.Explain? {
      ExplainedHas(n.stmt, hit);
      HasExact(n, hit);
      assert Children(n)[0] == n.stmt;
    }
  }

  /** An allowed text has a forbidden statement at some depth exactly when it has one below
      its outermost statement: that one is checked, those nested in it are not. */
  lemma NestedStatementsExact(parsed: Option<seq<Node>>, policy: Policy, profile: Profile, i: nat)
    requires Evaluate(parsed, policy, profile).Allow? && i < |parsed.value|
    ensures var n, bad := parsed.value[i], Forbidden(policy);
      Has(n, bad) <==> Below(Explained(n), bad)
  {
    hide Evaluate, Has, HasDanger, Below;
    EvaluateExact(parsed, policy, profile);
    var n, bad := parsed.value[i], Forbidden(policy);
    ExplainedHas(n, bad);
    HasExact(Explained(n), bad);
    assert KindAllowed(Explained(n), policy, profile.safeVars);
  }

  /** An allowed text calls a function on the list exactly when it calls one as a table: the
      visitor looks at expressions. */
  lemma TableCallsExact(parsed: Option<seq<Node>>, policy: Policy, profile: Profile, i: nat)
    requires Evaluate(parsed, policy, profile).Allow? && i < |parsed.value|
    ensures Has(parsed.value[i], AnyCalls(profile.dangerous)) <==> Has(parsed.value[i], TableCalls(profile.dangerous))
  {
    EvaluateExact(parsed, policy, profile);
    var n, dangerous := parsed.value[i], profile.dangerous;
    assert !HasDanger(n, dangerous);
    if path, target :| Leads(n, path, target) && AnyCalls(dangerous)(target) {
      assert !ListedCalls(dangerous)(target);
      assert TableCalls(dangerous)(target);
    }
    if path, target :| Leads(n, path, target) && TableCalls(dangerous)(target) {
      assert AnyCalls(dangerous)(target);
    }
  }

  /** An INTO that the scan of a set expression does not come by: in a clause of a select or
      query, or in an arm that is neither. */
  ghost predicate IntoAside(body: Node)
    decreases body
  {
    match body
    case SetQuery(q) => if q.Query? then IntoAside(q.body) || KidsHaveInto(q.kids) else Has(q, Intos())
    case SetOperation(l, r) => IntoAside(l) || IntoAside(r)
    case _ => Below(body, Intos())
  }

  ghost predicate KidsHaveInto(kids: seq<Node>) {
    exists k :: 0 <= k < |kids| && Has(kids[k], Intos())
  }

  lemma {:induction false} IntoSplits(body: Node)
    ensures Has(body, Intos()) <==> HasInto(body) || IntoAside(body)
    decreases body
  {
    hide Has, HasInto, Leads;
    HasExact(body, Intos());
    ScanIntoExact(body);
    match body
    case SetQuery(q) =>
      assert Children(body) == [q] && Children(body)[0] == q;
      HasExact(q, Intos());
      if q.Query? {
        IntoSplits(q.body);
        ScanIntoExact(q.body);
        QueryHasInto(q);
      }
    case SetOperation(l, r) =>
      assert Children(body) == [l, r];
      IntoSplits(l);
      IntoSplits(r);
      ScanIntoExact(l);
      ScanIntoExact(r);
      assert Children(body)[0] == l && Children(body)[1] == r;
    case _ =>
  }

  lemma QueryHasInto(q: Node)
    requires q.Query?
    ensures Below(q, Intos()) <==> Has(q.body, Intos()) || KidsHaveInto(q.kids)
  {
    hide Has;
    var kids := Children(q);
    assert kids[0] == q.body && forall k | 0 <= k < |q.kids| :: kids[k + 1] == q.kids[k];
    if KidsHaveInto(q.kids) {
      var k :| 0 <= k < |q.kids| && Has(q.kids[k], Intos());
      assert Has(kids[k + 1], Intos());
    }
  }

  /** Where the checks do not look for an INTO: aside from the arms of a query's set expression,
      and anywhere below a statement of another kind. */
  ghost predicate IntoUnseen(n: Node) {
    if n.QueryStmt? && n.query.Query? then IntoAside(n.query.body) || KidsHaveInto(n.query.kids) else Below(n, Intos())
  }

  /** An allowed text has an INTO exactly when it has one that is not looked for. */
  lemma IntoExact(parsed: Option<seq<Node>>, policy: Policy, profile: Profile, i: nat)
    requires Evaluate(parsed, policy, profile).Allow? && i < |parsed.value|
    ensures Has(parsed.value[i], Intos()) <==> IntoUnseen(Explained(parsed.value[i]))
  {
    hide Evaluate, Has, HasDanger, HasInto, IntoAside, KidsHaveInto;
    EvaluateExact(parsed, policy, profile);
    var n := Explained(parsed.value[i]);
    assert KindAllowed(n, policy, profile.safeVars);
    ExplainedHas(parsed.value[i], Intos());
    HasExact(n, Intos());
    if n.QueryStmt? && n.query.Query? {
      assert Children(n) == [n.query] && Children(n)[0] == n.query;
      HasExact(n.query, Intos());
      QueryHasInto(n.query);
      IntoSplits(n.query.body);
    }
  }

  /** Neither a forbidden statement nor a listed function, anywhere. */
  ghost predicate Clean(n: Node, policy: Policy, profile: Profile) {
    !Has(n, Forbidden(policy)) && !Has(n, AnyCalls(profile.dangerous))
  }

  /** The firewall is sound for exactly the texts with nothing forbidden nested in their
      outermost statements and no listed function called as a table. */
  lemma AllowedCleanExact(parsed: Option<seq<Node>>, policy: Policy, profile: Profile)
    requires Evaluate(parsed, policy, profile).Allow?
    ensures (forall i | 0 <= i < |parsed.value| :: Clean(parsed.value[i], policy, profile)) <==>
      (forall i | 0 <= i < |parsed.value| :: NothingUnseen(parsed.value[i], policy, profile))
  {
    hide Evaluate, Has, HasDanger, Below, Explained, KindAllowed;
    EvaluateExact(parsed, policy, profile);
    forall i | 0 <= i < |parsed.value|
      ensures Clean(parsed.value[i], policy, profile) <==> NothingUnseen(parsed.value[i], policy, profile)
    {
      NestedStatementsExact(parsed, policy, profile, i);
      TableCallsExact(parsed, policy, profile, i);
    }
  }

  /** Nothing of what the checks pass over is there to be passed over. */
  ghost predicate NothingUnseen(n: Node, policy: Policy, profile: Profile) {
    !Below(Explained(n), Forbidden(policy)) && !Has(n, TableCalls(profile.dangerous))
  }

  lemma AtRoot(n: Node, hit: Node -> bool)
    requires hit(n)
    ensures Has(n, hit)
  {
    HasExact(n, hit);
  }

  lemma AtChild(n: Node, child: Node, hit: Node -> bool)
    requires Children(n) == [child] && !hit(n)
    ensures Has(n, hit) <==> Has(child, hit)
  {
    hide Has;
    HasExact(n, hit);
    assert Children(n)[0] == child;
  }

  lemma AtLeaf(n: Node, hit: Node -> bool)
    requires Children(n) == [] && !hit(n)
    ensures !Has(n, hit)
  {
    HasExact(n, hit);
  }

  /** A query whose body is an insert passes a read-only policy. */
  lemma NestedInsertAllowed(profile: Profile)
    ensures var stmt := QueryStmt(Query(OtherSet([Dml([])]), []));
      Evaluate(Some([stmt]), ReadOnly, profile).Allow? && !Clean(stmt, ReadOnly, profile)
  {
    hide Has, Evaluate;
    var insert, stmt := Dml([]), QueryStmt(Query(OtherSet([Dml([])]), []));
    var bad, calls := Forbidden(ReadOnly), ListedCalls(profile.dangerous);
    AtRoot(insert, bad);
    AtLeaf(insert, calls);
    Chain(stmt, OtherSet([insert]), insert, bad);
    Chain(stmt, OtherSet([insert]), insert, calls);
    ScanIntoExact(OtherSet([insert]));
    EvaluateExact(Some([stmt]), ReadOnly, profile);
  }

  /** A listed function passes as a table, under every policy. */
  lemma TableCallAllowed(policy: Policy)
    ensures var stmt := QueryStmt(Query(Select(false, [TableCall(["pg_ls_dir"], [])]), []));
      Evaluate(Some([stmt]), policy, POSTGRES).Allow? && !Clean(stmt, policy, POSTGRES)
  {
    hide Has, Evaluate, IsListed, POSTGRES;
    var call, stmt := TableCall(["pg_ls_dir"], []), QueryStmt(Query(Select(false, [TableCall(["pg_ls_dir"], [])]), []));
    var bad, calls := AnyCalls(POSTGRES.dangerous), ListedCalls(POSTGRES.dangerous);
    LsDirListed();
    assert TableCalls(POSTGRES.dangerous)(call);
    AtRoot(call, bad);
    AtLeaf(call, calls);
    Chain(stmt, Select(false, [call]), call, bad);
    Chain(stmt, Select(false, [call]), call, calls);
    ScanIntoExact(Select(false, [call]));
    EvaluateExact(Some([stmt]), policy, POSTGRES);
  }

  lemma LsDirListed()
    ensures IsListed(LastSegment(["pg_ls_dir"]), POSTGRES.dangerous)
  {
    hide SHARED_DANGEROUS;
    var w := "pg_ls_dir";
    assert PG_DANGEROUS[2] == w;
    assert w in PG_DANGEROUS;
    assert SameButCase(w, w);
  }

  /** A select INTO passes every policy inside a select. */
  lemma SubqueryIntoAllowed(policy: Policy, profile: Profile)
    ensures var stmt := QueryStmt(Query(Select(false, [Query(Select(true, []), [])]), []));
      Evaluate(Some([stmt]), policy, profile).Allow? && Has(stmt, Intos())
  {
    hide Has, Evaluate;
    var select, query := Select(true, []), Query(Select(true, []), []);
    var stmt := QueryStmt(Query(Select(false, [query]), []));
    var calls := ListedCalls(profile.dangerous);
    AtRoot(select, Intos());
    AtLeaf(select, calls);
    AtChild(query, select, Intos());
    AtChild(query, select, calls);
    Chain(stmt, Select(false, [query]), query, Intos());
    Chain(stmt, Select(false, [query]), query, calls);
    ScanIntoExact(Select(false, [query]));
    EvaluateExact(Some([stmt]), policy, profile);
  }

  /** Down from a query statement through its body to what hangs off that. */
  lemma Chain(stmt: Node, body: Node, leaf: Node, hit: Node -> bool)
    requires stmt == QueryStmt(Query(body, [])) && Children(body) == [leaf]
    requires !hit(stmt) && !hit(stmt.query) && !hit(body)
    ensures Has(stmt, hit) <==> Has(leaf, hit)
  {
    hide Has;
    AtChild(body, leaf, hit);
    AtChild(stmt.query, body, hit);
    AtChild(stmt, stmt.query, hit);
  }

  /** The PostgreSQL list extends the MySQL one. */
  lemma ListsNested(n: Node)
    ensures HasDanger(n, MYSQL.dangerous) ==> HasDanger(n, POSTGRES.dangerous)
  {
    hide SHARED_DANGEROUS, PG_DANGEROUS, SameButCase;
    if path, target :| Leads(n, path, target) && ListedCalls(MYSQL.dangerous)(target) {
      assert ListedCalls(POSTGRES.dangerous)(target);
    }
  }

  /** The functions on the two lists. */
  lemma DangerousNames(w: Listed)
    ensures w in MYSQL.dangerous <==>
      || w == "load_file" || w == "sys_exec" || w == "sys_eval" || w == "sys_get" || w == "lo_import" || w == "lo_export"
    ensures w in POSTGRES.dangerous <==>
      || w in MYSQL.dangerous || w == "pg_read_file" || w == "pg_read_binary_file" || w == "pg_ls_dir" || w == "pg_stat_file"
      || w == "dblink" || w == "dblink_exec"
  {
  }

  /** The variables on the list of MySQL, and on that of PostgreSQL. */
  lemma MySqlSafeNames(w: Listed)
    ensures w in MYSQL.safeVars <==>
      || w == "names" || w == "autocommit" || w == "time_zone" || w == "character_set_client" || w == "character_set_results"
      || w == "character_set_connection" || w == "collation_connection" || w == "sql_safe_updates" || w == "wait_timeout"
      || w == "net_read_timeout" || w == "net_write_timeout" || w == "max_execution_time" || w == "group_concat_max_len"
      || w == "transaction_isolation" || w == "tx_isolation"
  {
    hide POSTGRES, SHARED_DANGEROUS;
  }

  lemma PgSafeNames(w: Listed)
    ensures w in POSTGRES.safeVars <==>
      || w == "names" || w == "client_encoding" || w == "timezone" || w == "datestyle" || w == "application_name"
      || w == "statement_timeout" || w == "lock_timeout" || w == "idle_in_transaction_session_timeout"
      || w == "extra_float_digits" || w == "bytea_output" || w == "intervalstyle"
  {
    hide MYSQL, SHARED_DANGEROUS, PG_DANGEROUS;
  }

  // ---- monotonicity ----

  predicate Wider(p: Policy, q: Policy) {
    (AllowsDml(p) ==> AllowsDml(q)) && (AllowsDdl(p) ==> AllowsDdl(q)) && (AllowsAdmin(p) ==> AllowsAdmin(q))
  }

  lemma {:induction false} KindMonotone(n: Node, p: Policy, q: Policy, safe: seq<Listed>)
    requires Wider(p, q)
    ensures KindAllowed(n, p, safe) ==> KindAllowed(n, q, safe)
  {
  }

  /** Widening a policy never turns an allowed request into a denied one. */
  lemma EvaluateMonotone(parsed: Option<seq<Node>>, p: Policy, q: Policy, profile: Profile)
    requires Wider(p, q)
    ensures Evaluate(parsed, p, profile).Allow? ==> Evaluate(parsed, q, profile).Allow?
  {
    hide Evaluate, KindAllowed, HasDanger;
    EvaluateExact(parsed, p, profile);
    EvaluateExact(parsed, q, profile);
    if Evaluate(parsed, p, profile).Allow? {
      forall i | 0 <= i < |parsed.value|
        ensures KindAllowed(Explained(parsed.value[i]), q, profile.safeVars)
      {
        KindMonotone(Explained(parsed.value[i]), p, q, profile.safeVars);
      }
    }
  }

  /** The named policies are a chain, and the widest custom policy tops it. */
  lemma PolicyChain(p: Policy)
    ensures Wider(ReadOnly, p) && Wider(p, Custom(true, true, true))
    ensures Wider(p, ReadWrite) <==> !AllowsDdl(p) && !AllowsAdmin(p)
  {
  }
}
