# middleWHERE: a verified model

middleWHERE is a database proxy daemon: clients reach a MySQL or PostgreSQL backend through it with a token
of their own, a query firewall reads every statement, backends may sit behind SSH bastions, and the whole
configuration lives in one sealed file. This project models its hardest parts and proves what they are for.
`dafny verify dfyconfig.toml` checks everything.

| file | models |
|---|---|
| `Common`, `Bytes` | options and results; byte strings, searching, digits, big-endian integers |
| `PgLexer`, `PgInline`, `PgRescan`, `Utf8` | the scanner that inlines parameters, and what it does to the statement's lexical structure and encoding |
| `PgPlaceholders` | which value each placeholder gets |
| `PgDialect` | PostgreSQL's own lexical rules, and exactly where the scanner departs from them |
| `PgArray`, `PgLiteral`, `PgRender`, `PgValues` | binary arrays, quoted and numeric literals, rendering any bound value, what the literals denote |
| `PgSession`, `PgAnswers` | the extended-query command loop as a state machine, with its error recovery and its firewall; what a client reads in answer to each message |
| `Policy` | the firewall over an abstract syntax tree |
| `Config`, `Changes` | the configuration, its validity, every transform of it, in place; what each one stores and when it is refused |
| `SnapshotHeap`, `LiveEnvs`, `Daemon`, `LiveRuns`, `Entitlements`, `LiveDaemon` | reference-counted runtimes and tunnels, the live env table, control requests as steps, what is served after any run, which policy and token it checks, the daemon as an object |
| `SealedStore` | saving the configuration, with a crash between any two file operations |
| `Reaper` | the idle reaper as a timed machine |
| `Probe` | the JSON report one binary prints and another parses by hand |
| `Framing`, `ResultSet`, `Router` | MySQL packets, length-encoded values, result sets, the command loop, what each command is answered |
| `Token` | token text and the native-password check (modules `Token` and `NativePassword`) |

Code that changes things in place is a method or a class here (`PgSession.Session`, `Config.Store`,
`LiveDaemon.Service`, `SealedStore.StateDir`, `Reaper.ReapLoop`, `Framing.Stream`), tied by its contract to a
specification function, about which the theorems are stated.

What the code does not do as its documentation, or a reader, might expect:

- A placeholder right after a `-` and a negative number make `--`, a comment; so does a literal starting with
  a byte that pairs up with the one before it. `PgRescan.RescanExact` gives the exact condition under which
  the statement's structure survives, `PgRescan.DashMakesComment` an input for which it does not.
- The comment on parameter inlining says a `$n` that is data is never rewritten. The scanner does not know escape
  strings (`E'..\'..'`), nested block comments, a `$` inside an identifier, a carriage return as a line break, or
  dollar-quote tags beyond ASCII. `PgDialect.LexersAgreeExact` says exactly for which statements it cuts the text as
  PostgreSQL's lexer does; `PgDialect.EscapedQuoteRewritten` and `PgDialect.NestedCommentRewritten` are statements whose
  data it rewrites.
- `NaN` and the infinities bound as text to a number type are inlined as bare words, which the server reads as
  names; bound in binary they are quoted. `PgValues.BareWordExact` says exactly which text is a number,
  `PgValues.NotANumberBothWays` is an input.
- A binary `oid` is read as a signed integer: `PgRender.OidExact` says exactly which OIDs come out right.
- The firewall checks the kind of the outermost statement and the names of functions called as expressions.
  The documentation says writes and dangerous functions never reach the backend; a write nested in an allowed query
  does (`Policy.NestedInsertAllowed`), and so does a listed function called where a table stands, which the
  parser does not make an expression (`Policy.TableCallAllowed`), and an INTO in a subquery
  (`Policy.SubqueryIntoAllowed`). An allowed text is free of forbidden statements exactly when it has none below its
  outermost ones (`Policy.NestedStatementsExact`), of listed functions exactly when it calls none as a table
  (`Policy.TableCallsExact`), and of INTO exactly when a query among its outermost statements has none aside from the
  arms that are scanned and the others have none below them (`Policy.IntoExact`).
- The denial of a MySQL statement logs its first 64 bytes first, and that slice panics inside a character: such a
  denial is never answered, and takes the session with it (in a release build, which aborts on a panic, the daemon).
  `Router.PanicExact` says exactly which sessions end so, `Router.DenialPanics` is an input.
- During error recovery the loop still runs simple queries, closes names and answers unsupported messages
  (`PgSession.PassedOverExact`, `PgSession.QueryRunsDuringRecovery`), where section 55.2.3 of the PostgreSQL 15
  manual has the server discard everything up to Sync.
- Describing a portal after its statement is parsed again reports the new statement's columns
  (`PgSession.ReparseAndPortals`).
- The header comment of the PostgreSQL server says the extended protocol is not handled; the code handles it, and
  the model follows the code.
- Between the two renames of a save there is no current file, and until someone restores the backup nothing
  loads (`SealedStore.UnloadableWindow`, `SealedStore.LostExactlyInWindow`).
- A credential rotation stops at the first env it cannot rebuild, which includes one that is on disk but not
  live (`Daemon.RotationAnswer`).
- The idle timeout of the command line goes into the copy of the configuration that is bound. A later re-pin or
  rotation rebuilds from the disk, changes the live timeout, and does not wake the reaper, so the idle bound can
  break (`Reaper.LateRebuild`); `Reaper.RebuildExact` says exactly when it holds.
- PostgreSQL envs are refused at start-up where cleartext tokens would leave the host, but not when added to a
  running daemon, which then does not start again. `LiveRuns.AddedPostgresServed` is an input;
  `LiveRuns.RefusalAtStartOnly` says exactly which PostgreSQL envs are served after a start that refuses them, and
  `LiveRuns.BootRefusal` when the next one fails.
- The probe parser reads an env name back exactly when nothing in it needs an escape (`Probe.EnvBack`), and
  turns control characters in a reason into U+FFFD (`Probe.ReasonBack`).
- The token generator's comment speaks of 192 bits; the 32 bytes it encodes are 256 (`Token.TokenShape`).

## Model

| member | source | states |
|---|---|---|
| PgLexer.LexLossless | crates/mw-net/src/engine/postgres/server.rs:440-556 | The tokens of a statement, by the scanner's own rules, put together again are the statement. |
| PgInline.InlineParams | crates/mw-net/src/engine/postgres/server.rs:440-556 | The six-state index loop terminates and writes the tokens with every in-range placeholder replaced. |
| PgInline.StepInside | crates/mw-net/src/engine/postgres/server.rs:512-552 | One turn inside a quote, comment or dollar-quote copies its bytes and leaves it exactly at its closing mark. |
| PgInline.StepNormal | crates/mw-net/src/engine/postgres/server.rs:458-511 | One turn outside spans opens the right span or copies one byte. |
| PgInline.StepDollar | crates/mw-net/src/engine/postgres/server.rs:475-506 | At a `$`: a parameter in range is replaced, one out of range kept, a dollar-quote opened with its tag. |
| PgPlaceholders.InlineExact | crates/mw-net/src/engine/postgres/server.rs:440-556 | Token by token: a placeholder whose decimal number has a value becomes that value, everything else stays as it was, in order. |
| PgPlaceholders.NamesOne | crates/mw-net/src/engine/postgres/server.rs:478-482 | A `$` and a run of digits names exactly one number, zeros in front or not. |
| PgPlaceholders.PlaceholderGetsItsValue | crates/mw-net/src/engine/postgres/server.rs:475-488 | `$k` with a value for `k` becomes it, for any number of digits and leading zeros. |
| PgPlaceholders.PlaceholderKept | crates/mw-net/src/engine/postgres/server.rs:482-488 | `$0`, a number beyond the values and one that no 64-bit index holds stay as they are. |
| PgPlaceholders.ElevenValues | crates/mw-net/src/engine/postgres/server.rs:475-488 | With eleven values `$11` is the eleventh. |
| PgRescan.RescanExact | crates/mw-net/src/engine/postgres/server.rs:440-556 | Scanning the output gives the source's tokens with each literal's tokens in place of its placeholder if and only if no literal merges with the token before it. |
| PgRescan.RescanStable | crates/mw-net/src/engine/postgres/server.rs:440-556 | So whenever every placeholder has a value and none follows a `-`. |
| PgRescan.FinalStateKept | crates/mw-net/src/engine/postgres/server.rs:440-556 | The scan of the output then ends in the state the scan of the source ends in. |
| PgRescan.DashMakesComment | crates/mw-net/src/engine/postgres/server.rs:440-556 | A concrete statement and value for which a comment appears that the source does not have. |
| PgRescan.InlineNothing | crates/mw-net/src/engine/postgres/server.rs:440-556 | An empty parameter list changes nothing. |
| PgRescan.InlineOnce | crates/mw-net/src/engine/postgres/server.rs:440-556 | A statement with all placeholders filled has none left: values are never scanned for placeholders. |
| PgDialect.FirstExact | crates/mw-net/src/engine/postgres/server.rs:437-511 | The scanner's next token is PostgreSQL's if and only if it is not an escape string with an escaped first quote, a block comment with another inside, a line comment with a lone carriage return, a `$` mark inside an identifier, or a dollar-quote with a tag beyond ASCII. |
| PgDialect.LexersAgreeExact | crates/mw-net/src/engine/postgres/server.rs:437-556 | The scanner cuts a statement into PostgreSQL's tokens if and only if none of these stands anywhere in it. |
| PgDialect.ParametersAgree | crates/mw-net/src/engine/postgres/server.rs:437-556 | Exactly the parameters PostgreSQL would read are then replaced. |
| PgDialect.PgRescanExact | crates/mw-net/src/engine/postgres/server.rs:437-556 | PostgreSQL then reads the inlined text as the statement with the values' tokens put in, if and only if none of these has come about in it. |
| PgDialect.EscapedQuoteRewritten | crates/mw-net/src/engine/postgres/server.rs:437-440 | In an escape string with an escaped quote, `$1` is data and is replaced. |
| PgDialect.NestedCommentRewritten | crates/mw-net/src/engine/postgres/server.rs:437-440 | So it is in a comment around a comment. |
| Utf8.CutExact | crates/mw-net/src/router.rs:112 | A text cut at an offset is text exactly at its end or where a character starts. |
| Utf8.InlineUtf8 | crates/mw-net/src/engine/postgres/server.rs:440-556 | UTF-8 in, UTF-8 out: the final lossy decoding replaces nothing. |
| PgArray.DecodeBinArray | crates/mw-net/src/engine/postgres/server.rs:357-402 | The decoder reads only inside its input, for any input, and computes the decoding function. |
| PgArray.ReadDimensions | crates/mw-net/src/engine/postgres/server.rs:370-382 | The dimension loop: its running product never leaves an i64. |
| PgArray.ReadElements | crates/mw-net/src/engine/postgres/server.rs:383-400 | The element loop, with NULL for any negative length. |
| PgArray.DecodeEncode | crates/mw-net/src/engine/postgres/server.rs:357-402 | Decoding inverts the binary array encoding for zero to six dimensions. |
| PgArray.DecodeSound | crates/mw-net/src/engine/postgres/server.rs:357-402 | Whatever is accepted is an encoded array with exactly the product of its dimensions elements, at most ten million. |
| PgLiteral.QuoteLit | crates/mw-net/src/engine/postgres/server.rs:157-169 | The quoting loop doubles every quote and adds the outer two. |
| PgLiteral.QuotedValue | crates/mw-net/src/engine/postgres/server.rs:157-169 | The backend reads back the value that was quoted. |
| PgLiteral.QuotedLiteral | crates/mw-net/src/engine/postgres/server.rs:157-169 | A quoted value scans from outside every span back to outside every span, whatever follows it. |
| PgLiteral.IsSafeNumeric | crates/mw-net/src/engine/postgres/server.rs:182-222 | The greedy scan computes the acceptance function, white space trimmed. |
| PgLiteral.NumericTextIsGrammar | crates/mw-net/src/engine/postgres/server.rs:182-222 | What is accepted, apart from the four words, is exactly the SQL number grammar. |
| PgLiteral.SafeNumericLiteral | crates/mw-net/src/engine/postgres/server.rs:182-222 | Every text accepted is inert for the scanner even though it is inlined unquoted. |
| PgLiteral.TrimExact | crates/mw-net/src/engine/postgres/server.rs:183-183 | Trimming takes off white space at both ends and leaves none there. |
| PgRender.IntTextExact | crates/mw-net/src/engine/postgres/server.rs:280-352 | A printed integer denotes the integer it was printed from, and is a literal in the scanner's sense. |
| PgRender.RenderElemsLoop | crates/mw-net/src/engine/postgres/server.rs:406-438 | The array loop renders the elements in order and stops at the first failure. |
| PgRender.RenderScalarFit | crates/mw-net/src/engine/postgres/server.rs:280-352 | Every scalar rendered, for any type, format and bytes, can stand at a placeholder. |
| PgRender.RenderParamFit | crates/mw-net/src/engine/postgres/server.rs:406-438 | So can every parameter rendered, arrays included. |
| PgRender.OidExact | crates/mw-net/src/engine/postgres/server.rs:280-352 | A binary OID is rendered as its value if and only if its top bit is clear. |
| PgValues.BinaryExact | crates/mw-net/src/engine/postgres/server.rs:280-337 | What the literal of any binary value denotes: truth by the first byte, the two's complement of all the bytes, the float, the text; with a NUL in other types an integer by length, or a refusal. |
| PgValues.IntegerArrives | crates/mw-net/src/engine/postgres/server.rs:291-320 | An integer sent in the width of its type is the integer the server reads. |
| PgValues.TextExact | crates/mw-net/src/engine/postgres/server.rs:338-351 | What the literal of any text value denotes: six words are true, number types keep what reads as a number, all else is quoted text. |
| PgValues.BareWordExact | crates/mw-net/src/engine/postgres/server.rs:182-222 | Text that is inlined unquoted is a number of the SQL grammar exactly if it is none of the four words. |
| PgValues.NotANumberBothWays | crates/mw-net/src/engine/postgres/server.rs:184-186 | NaN in binary is quoted, as text it is a bare word. |
| PgValues.ScalarParam | crates/mw-net/src/engine/postgres/server.rs:406-437 | A NULL is NULL for every type; a value of no array type is its scalar. |
| PgValues.TextArrayExact | crates/mw-net/src/engine/postgres/server.rs:425-435 | An array sent as text is that text cast to the right array type, and refused exactly with a NUL in it. |
| PgValues.BinaryArrayExact | crates/mw-net/src/engine/postgres/server.rs:411-424 | Between the brackets of a binary array's literal a reader that splits at commas outside quotes finds the literals of the elements in order; empty arrays are cast; refusals exactly. |
| PgValues.ElementNames | crates/mw-net/src/engine/postgres/server.rs:239-255 | The type name for each element type, text for all others. |
| PgValues.ArrayArrives | crates/mw-net/src/engine/postgres/server.rs:357-437 | From a client's encoding to the literals the server reads. |
| PgSession.Session.Exec | crates/mw-net/src/engine/postgres/server.rs:635-792 | Firewall first, then run: the frames, the calls and the verdict of both execution paths. |
| PgSession.Session.RenderParams | crates/mw-net/src/engine/postgres/server.rs:925-946 | Bound values are rendered in order, up to the first that cannot be. |
| PgSession.Session.HandleParse | crates/mw-net/src/engine/postgres/server.rs:844-902 | One Parse: the map entry, the answer, the skip flag and the backend call. |
| PgSession.Session.HandleBind | crates/mw-net/src/engine/postgres/server.rs:903-956 | One Bind: the portal inlined from the statement as it is now, or an error. |
| PgSession.Session.Handle | crates/mw-net/src/engine/postgres/server.rs:826-1038 | One message changes maps and flag, writes frames and calls the backend exactly as the step function. |
| PgSession.Session.Serve | crates/mw-net/src/engine/postgres/server.rs:808-1040 | The loop does that for every message up to Terminate. |
| PgSession.OnlyAllowedSqlReachesBackend | crates/mw-net/src/engine/postgres/server.rs:635-1011 | In every run, each text handed to the backend, to prepare or to run, was allowed by the firewall. |
| PgSession.ReachableSound | crates/mw-net/src/engine/postgres/server.rs:843-1011 | In every reachable state each prepared statement is one the run parsed and the firewall allowed, and each portal one the run bound to a statement that was allowed when parsed. |
| PgSession.PreparedExact | crates/mw-net/src/engine/postgres/server.rs:844-902 | The prepared statements of a reachable state are exactly those a Parse of the run set and no Parse or Close has touched since. |
| PgSession.PortalExact | crates/mw-net/src/engine/postgres/server.rs:903-956 | The portals of a reachable state are exactly those a Bind of the run set and no Bind or Close has touched since, holding the statement as it was parsed before that Bind with the values of that Bind inlined. |
| PgSession.RenderAllLiteral | crates/mw-net/src/engine/postgres/server.rs:925-946 | The values a Bind inlines are literals in the scanner's sense. |
| PgSession.PortalLexes | crates/mw-net/src/engine/postgres/server.rs:903-956 | A portal of a run lexes as the statement it was bound to with the tokens of the values it was bound with, if and only if none merges with the byte before it. |
| PgSession.SkipStep | crates/mw-net/src/engine/postgres/server.rs:819-1038 | One message sets the skip flag exactly when it is a Parse, Bind or Execute answered with an error; only Sync clears it. |
| PgSession.SkipExact | crates/mw-net/src/engine/postgres/server.rs:819-1038 | In every run the flag is set exactly when such an error was answered and no Sync read since. |
| PgSession.PassedOverExact | crates/mw-net/src/engine/postgres/server.rs:826-1038 | While it is set, exactly Parse, Bind, Describe and Execute are passed over without a trace. |
| PgSession.QueryRunsDuringRecovery | crates/mw-net/src/engine/postgres/server.rs:829-843 | A simple query still runs before Sync. |
| PgSession.ReadyExact | crates/mw-net/src/engine/postgres/server.rs:826-1038 | ReadyForQuery is written once for every Query, Sync and unsupported message read, and never otherwise. |
| PgSession.ReparseAndPortals | crates/mw-net/src/engine/postgres/server.rs:957-988 | Re-parsing leaves what a portal executes and changes what Describe says of it exactly when the columns differ. |
| PgAnswers.QueryAnswered | crates/mw-net/src/engine/postgres/server.rs:594-610 | A query the backend answers: the column names as text, every row in order, the completion, readiness; without columns neither description nor rows. |
| PgAnswers.QueryRefused | crates/mw-net/src/engine/postgres/server.rs:717-779 | A blank, denied, unconnected or failed query: the one frame with its code and text, readiness, and whether the backend was asked. |
| PgAnswers.ExecuteAnswered | crates/mw-net/src/engine/postgres/server.rs:694-713 | An Execute the backend answers: every row in order and the completion, no description. |
| PgAnswers.ExecuteRefused | crates/mw-net/src/engine/postgres/server.rs:643-693 | Any other Execute: one error with its code and text, and recovery. |
| PgAnswers.ParseAnswered | crates/mw-net/src/engine/postgres/server.rs:844-902 | A Parse succeeds exactly if allowed and described by the backend, and then stores what was described. |
| PgAnswers.RenderAllExact | crates/mw-net/src/engine/postgres/server.rs:925-946 | The values of a Bind are rendered by their own types and formats, each at its place, or the first failure is answered. |
| PgAnswers.BindAnswered | crates/mw-net/src/engine/postgres/server.rs:903-956 | A Bind succeeds exactly if its statement is known and every value has a literal; the portal then holds the statement with these inlined. |
| PgAnswers.DescribeAnswered | crates/mw-net/src/engine/postgres/server.rs:957-988 | Parameter types and columns of a statement, columns of a portal's, or no data. |
| PgAnswers.OthersAnswered | crates/mw-net/src/engine/postgres/server.rs:1011-1038 | Close, Sync, Flush, Terminate, unsupported messages and bodies that do not parse. |
| PgAnswers.ExecutedInRun | crates/mw-net/src/engine/postgres/server.rs:989-1010 | In every run, executing a portal hands the backend the statement as parsed with the literals of the values bound, and the client every row of the answer. |
| PgSession.BackendSeesNoDanger | crates/mw-net/src/engine/postgres/server.rs:635-792 | With the real firewall, every statement a run hands the backend is of an allowed kind under its EXPLAINs and calls no listed function as an expression at any depth; nothing forbidden is anywhere in it exactly when nothing is in the places the firewall does not look. |
| Policy.ScanExact | crates/mw-core/src/policy.rs:324-353 | The visitor stops exactly when what it looks for is somewhere in the tree. |
| Policy.ScanIntoExact | crates/mw-core/src/policy.rs:256-282 | The INTO scan denies exactly when a select reached through nested queries and set operations has one. |
| Policy.EvaluateExact | crates/mw-core/src/policy.rs:134-254 | Allow, if and only if the text parses, its outermost statements, below any EXPLAINs, are of kinds the policy names (DML by ReadWrite or its own flag, DDL and grants only by their own flags), more than one only with DML and DDL, and no expression in it calls a listed function. |
| Policy.CheckVarExact | crates/mw-core/src/policy.rs:284-322 | A SET is let through exactly for a listed variable, in any case of its name, that is neither global nor the user's own. |
| Policy.CallsExact | crates/mw-core/src/policy.rs:330-344 | The visitor finds a listed function in whatever case its name is written. |
| Policy.DangerousNames | crates/mw-core/src/policy.rs:40-66 | The functions on the two lists. |
| Policy.MySqlSafeNames | crates/mw-core/src/policy.rs:71-87 | The variables on the list of MySQL. |
| Policy.PgSafeNames | crates/mw-core/src/policy.rs:91-103 | The variables on the list of PostgreSQL. |
| Policy.DenialReason | crates/mw-core/src/policy.rs:134-254 | The reason given is that of the first outermost statement whose kind is not let through, or, if all are, the call of a listed function. |
| Policy.NestedStatementsExact | crates/mw-core/src/policy.rs:154-160 | An allowed text has a forbidden statement at some depth exactly when it has one below its outermost statement. |
| Policy.TableCallsExact | crates/mw-core/src/policy.rs:328-345 | An allowed text calls a listed function somewhere exactly when it calls one as a table. |
| Policy.IntoExact | crates/mw-core/src/policy.rs:256-280 | Any statement of an allowed text has an INTO somewhere exactly when, under its EXPLAINs, it is a query with one aside from the arms that are scanned, or another statement with one below it. |
| Policy.SubqueryIntoAllowed | crates/mw-core/src/policy.rs:256-280 | A select INTO inside a select is allowed by every policy. |
| Policy.AllowedCleanExact | crates/mw-core/src/policy.rs:134-172 | An allowed text contains nothing forbidden exactly when nothing is in the places that are passed over. |
| Policy.NestedInsertAllowed | crates/mw-core/src/policy.rs:184-184 | A query with an insert for its body is allowed by a read-only policy. |
| Policy.TableCallAllowed | crates/mw-core/src/policy.rs:330-344 | A listed function called as a table is allowed by every policy. |
| Policy.ListsNested | crates/mw-core/src/policy.rs:40-66 | What the MySQL list finds the PostgreSQL list finds too. |
| Policy.EvaluateMonotone | crates/mw-core/src/policy.rs:134-254 | Widening a policy never turns Allow into Deny. |
| Policy.PolicyChain | crates/mw-core/src/policy.rs:134-172 | The named policies form a chain, with the widest custom policy at the top. |
| Config.Validate | crates/mw-core/src/config.rs:246-284 | The loop accepts exactly the valid configurations, and what it complains of is so. |
| Config.PickFreePort | crates/mw-core/src/mutate.rs:284-287 | The least free port of 6033 to 6064, or none exactly when all are taken. |
| Config.FreePortBelow32 | crates/mw-core/src/mutate.rs:186-241 | With fewer than 32 envs there is always one. |
| Config.ImportExact | crates/mw-core/src/mutate.rs:322-353 | A merge is valid exactly when the fragment fits beside what is there, as a valid fragment always does. |
| Config.ApplyValid | crates/mw-core/src/mutate.rs:46-353 | Every transform that succeeds keeps a valid configuration valid; an import exactly when its fragment fits. |
| Config.EnvsStayPut | crates/mw-core/src/mutate.rs:46-353 | No transform moves an existing env's port, engine, bastion, credential or pool, and policy or auth only of the env named. |
| Config.EnvNames | crates/mw-core/src/mutate.rs:186-353 | Env names come and go only as the request says. |
| Changes.ChangeStores | crates/mw-core/src/mutate.rs:46-353 | Every change stores, field by field, exactly what it was given, tokens as digests in the engine's scheme, and touches nothing else. |
| Changes.AcceptedExact | crates/mw-core/src/mutate.rs:46-353 | A change is made if and only if its names are free or there as it needs them, nothing refers to what it removes, and its ports are free. |
| Config.Store.Change | crates/mw-core/src/mutate.rs:46-320 | Each transform edits its tables in place, or refuses and leaves all of them unchanged. |
| Config.Store.AddEnvInPlace | crates/mw-core/src/mutate.rs:186-241 | The same for adding an env, port choice and all refusals included. |
| Config.Store.MergeInPlace | crates/mw-core/src/mutate.rs:322-353 | The same for an import. |
| SnapshotHeap.RunningExact | crates/mw-net/src/ssh.rs:206-225 | A local forward runs exactly while some holder's snapshot dials through it. |
| SnapshotHeap.Fresh | crates/mwsqld/src/lib.rs:406-430 | A new runtime over a new tunnel: counts stay right, everyone else sees what they saw. |
| SnapshotHeap.Sharing | crates/mwsqld/src/lib.rs:325-336 | A copied runtime shares the tunnel of the one it is copied from. |
| SnapshotHeap.Clone | crates/mwsqld/src/lib.rs:594-604 | A session's reference sees what is published at that moment. |
| SnapshotHeap.Drop | crates/mw-net/src/ssh.rs:219-225 | A reference given up: the last one takes runtime, tunnel and forward with it, and nobody else's. |
| LiveEnvs.Dial | crates/mw-net/src/ssh.rs:157-203 | Every session handed out or cached has a host key that the bastion's entry accepts. |
| LiveEnvs.OpensExact | crates/mw-net/src/ssh.rs:62-126 | A new session opens exactly with an accepted password and a pinned key, or any key where none is pinned and first keys are trusted. |
| LiveEnvs.BuildKeeps | crates/mwsqld/src/lib.rs:353-430 | A build that fails leaves no tunnel behind; one that succeeds makes the runtime the disk entry asks for. |
| LiveEnvs.BuildExact | crates/mwsqld/src/lib.rs:353-430 | A build succeeds exactly when the engine exists, the pool builds, and the bastion session is cached or opens on a key the entry accepts; what stays cached is exactly that. |
| LiveEnvs.RebuildExact | crates/mwsqld/src/lib.rs:302-323 | A rebuild succeeds exactly when, besides, the env is live. |
| LiveEnvs.RebuildKeeps | crates/mwsqld/src/lib.rs:302-323 | A rebuild changes only that env's published runtime, and only on success. |
| LiveEnvs.SwapKeeps | crates/mwsqld/src/lib.rs:325-336 | A policy or auth swap keeps the tunnel. |
| LiveEnvs.AddKeeps | crates/mwsqld/src/lib.rs:251-270 | An add that fails changes nothing that is live. |
| LiveEnvs.RmKeeps | crates/mwsqld/src/lib.rs:274-278 | A removal takes the env's sessions with it and disturbs no other. |
| Daemon.RepinKeeps | crates/mwsqld/src/control/handlers.rs:195-226 | After the rebuild loop every affected env that was live is on the new pin or offline and listed. |
| Daemon.RepinFailsClosed | crates/mwsqld/src/control/handlers.rs:178-227 | After a re-pin every live env behind the bastion dials through a session that presented the pinned key; the envs that left the table are exactly those named in the answer. |
| Daemon.RepinExact | crates/mwsqld/src/control/handlers.rs:203-223 | Exactly which envs the loop takes offline: live ones failing at their own forward or pool, or visited before any has got a session the new pins accept. |
| Daemon.RepinOfflineExact | crates/mwsqld/src/control/handlers.rs:178-227 | So for the whole request, where only the pinned key can open that session. |
| Daemon.RotateKeeps | crates/mwsqld/src/control/handlers.rs:251-264 | The envs before the first failure run on the new password, the rest are untouched. |
| Daemon.RotateStops | crates/mwsqld/src/control/handlers.rs:257-263 | The loop stops at an env that is not live or whose backend cannot be built. |
| Daemon.RotationAnswer | crates/mwsqld/src/control/handlers.rs:229-266 | `Done` only when every env using the credential is live with the new password; else the answer names the unreachable env where it stopped, those before it are up to date and the others untouched. |
| Daemon.AddExact | crates/mwsqld/src/lib.rs:251-270 | Adding an env live succeeds exactly when its backend can be built and its port bound. |
| Daemon.AddAllStops | crates/mwsqld/src/control/handlers.rs:431-437 | An import stops at an env for which that fails. |
| Daemon.AddAllKeeps | crates/mwsqld/src/control/handlers.rs:416-440 | An import brings the new envs up to the first failure and disturbs none that is live. |
| Daemon.EnvCarries | crates/mw-core/src/mutate.rs:46-353 | What a live env owes the disk survives every change that does not name it. |
| Daemon.CacheCarries | crates/mwsqld/src/control/handlers.rs:43-56 | With the eviction on removal and re-pin, no cached session outlives or outdates its bastion's entry. |
| Daemon.ForgetsOnly | crates/mwsqld/src/control/handlers.rs:43-56 | A save forgets the kept session of the bastion it re-pins or removes, and no other. |
| Daemon.StepKeeps | crates/mwsqld/src/control/handlers.rs:34-440 | Every request, connection and hang-up keeps the invariant, whatever fails on the way, spares every other session, leaves each idle timeout or sets it to the one on disk, and brings up only envs it names. |
| Daemon.SessionKeepsTunnel | crates/mwsqld/src/lib.rs:582-612 | A session whose env stays live keeps its snapshot, and its forward keeps running. |
| Daemon.StartServes | crates/mwsqld/src/lib.rs:113-168 | A start that succeeds serves exactly the envs of the bound configuration whose engine exists, each as bound. |
| Daemon.BootServes | crates/mwsqld/src/main.rs:130-157 | A start with the idle flag keeps the disk as it is, and gives every live env the timeout of the flag, or its own without one. |
| Daemon.RefusalExact | crates/mwsqld/src/lib.rs:134-146 | Where cleartext is refused, a start fails exactly if a PostgreSQL env is on disk or it would fail anyway. |
| LiveRuns.AddAllExact | crates/mwsqld/src/control/handlers.rs:416-440 | An import brings up exactly the envs up to the first that cannot be built or whose port cannot be bound, a bastion session opened for one serving those after it. |
| LiveRuns.LiveExact | crates/mwsqld/src/control/handlers.rs:34-440 | After any event an env is served exactly if the event's saved add or import brings it up, or it was served and is neither removed nor stopped by a re-pin. |
| LiveRuns.ConnectExact | crates/mwsqld/src/lib.rs:592-602 | A connection to a live env is one more session of it, which sees what is published then. |
| LiveRuns.LeaveExact | crates/mwsqld/src/lib.rs:594-604 | A session that leaves is gone, and only it. |
| LiveRuns.UnsavedAnswer | crates/mwsqld/src/control/handlers.rs:34-440 | When a request is saved; an unconfirmed one for read-write access is denied, any other unsaved one refused, and nothing changes. |
| LiveRuns.SavedAnswer | crates/mwsqld/src/control/handlers.rs:34-440 | What a saved request is answered, told by which envs are live afterwards. |
| LiveRuns.ServedExact | crates/mwsqld/src/lib.rs:251-323 | After any run the served envs of an engine are exactly those served at first and not taken off, and those some request of the run saved and brought up and none after it took off. |
| LiveRuns.BootRefusal | crates/mwsqld/src/lib.rs:134-146 | With cleartext refused, a start with any idle flag fails exactly if a PostgreSQL env is on disk or it would fail anyway. |
| LiveRuns.StartExact | crates/mwsqld/src/lib.rs:113-168 | A start succeeds exactly if every env whose engine exists can be brought up in its turn. |
| LiveRuns.BootExact | crates/mwsqld/src/main.rs:130-157 | So with flags, and no PostgreSQL env where these are refused. |
| LiveRuns.RefusalAtStartOnly | crates/mwsqld/src/lib.rs:251-270 | After a start that refuses, the PostgreSQL envs served are exactly those a request of the run brought up and none after it took off. |
| LiveRuns.AddedPostgresServed | crates/mwsqld/src/lib.rs:251-270 | A refusing start, then one saved add of a PostgreSQL env: it is served, and the next refusing start fails. |
| Entitlements.SaysExact | crates/mwsqld/src/control/handlers.rs:268-375 | After any run an env's policy and token are exactly those of the last request that set them, or the first ones if none did. |
| Entitlements.ReadWriteConfirmed | crates/mwsqld/src/control/handlers.rs:366-390 | An env that is read-write after a run was so at first, was added or imported so, or was made so by a confirmed request. |
| Entitlements.LiveChecks | crates/mwsqld/src/lib.rs:282-300 | A live env checks new connections by exactly the policy and token on disk. |
| Entitlements.ChangedAtOnce | crates/mwsqld/src/control/handlers.rs:335-400 | A saved change of policy or token is at once what a live env checks. |
| Daemon.EveryRun | crates/mwsqld/src/lib.rs:251-336 | After any run from any start, with or without the idle flag: every live env and every kept session has a pinned key (any key only where none is pinned and first keys are trusted), live envs are as on disk (idle timeouts as on disk or as the flag), tunnels run exactly while used, no handle was overwritten. |
| LiveDaemon.Service.GetOrOpen | crates/mw-net/src/ssh.rs:157-185 | The slot map in place: reuse, or insert a slot and fill it if the session opens. |
| LiveDaemon.Service.Establish | crates/mwsqld/src/lib.rs:353-430 | Building a runtime in place. |
| LiveDaemon.Service.RebuildBackend | crates/mwsqld/src/lib.rs:302-323 | Build before publish, in place. |
| LiveDaemon.Service.AddEnvLive | crates/mwsqld/src/lib.rs:251-270 | Build, bind, insert, in place. |
| LiveDaemon.Service.RmEnvLive | crates/mwsqld/src/lib.rs:274-278 | Remove, dropping each session of the env, in place. |
| LiveDaemon.Service.Bind | crates/mwsqld/src/lib.rs:113-168 | The start-up loop, over whatever configuration is bound. |
| LiveDaemon.Service.Boot | crates/mwsqld/src/main.rs:138-151 | The flag goes over the bound copy; the disk keeps its values. |
| LiveDaemon.Service.WithConfig | crates/mw-core/src/state.rs:364-372 | Load, transform, validate, save; a failure leaves the disk unchanged. |
| LiveDaemon.Service.RepinEnvs | crates/mwsqld/src/control/handlers.rs:205-223 | The re-pin loop. |
| LiveDaemon.Service.RotateEnvs | crates/mwsqld/src/control/handlers.rs:257-263 | The rotation loop. |
| LiveDaemon.Service.AddEnvs | crates/mwsqld/src/control/handlers.rs:431-437 | The import loop. |
| LiveDaemon.Service.Dispatch | crates/mwsqld/src/control/handlers.rs:34-440 | A request changes the daemon by one step, answers as the step does and keeps the invariant. |
| LiveDaemon.Service.Accept | crates/mwsqld/src/lib.rs:592-602 | An accepted connection takes the snapshot published now. |
| SealedStore.SaveKeepsSafe | crates/mw-core/src/state.rs:345-401 | However a save ends, the current file is absent or complete and it or the backup holds the last committed configuration. |
| SealedStore.CrashSafe | crates/mw-core/src/state.rs:345-401 | So after any number of saves, each cut at any operation. |
| SealedStore.LoadOrBackup | crates/mw-core/src/state.rs:330-338 | Loading succeeds exactly when there is a current file, with what was committed last; otherwise the backup has it. |
| SealedStore.UnloadableWindow | crates/mw-core/src/state.rs:352-400 | One cut save leaves nothing to load exactly when it was cut between the two renames. |
| SealedStore.CompleteSave | crates/mw-core/src/state.rs:345-401 | A complete save leaves the new file, the one before it as backup, and no temporary file. |
| SealedStore.CutSave | crates/mw-core/src/state.rs:345-401 | What a save leaves in each of the six places it can be cut. |
| SealedStore.LostExactlyInWindow | crates/mw-core/src/state.rs:364-372 | Changes through `with_config` lose the store exactly if one of them is cut there. |
| SealedStore.StateDir.SaveConfig | crates/mw-core/src/state.rs:345-359 | The operations of a save in place, up to any cut. |
| SealedStore.StateDir.WriteNew | crates/mw-core/src/state.rs:374-401 | Open, write, sync, rename in place, up to any cut. |
| Reaper.CurrentInterval | crates/mwsqld/src/lib.rs:571-580 | The loop finds the interval of the tightest non-zero timeout, or the fallback. |
| Reaper.StepKeeps | crates/mwsqld/src/lib.rs:522-562 | Every step, a rebuild in time included, keeps the next sweep within reach of every env and of every connection. |
| Reaper.IntervalExact | crates/mw-net/src/idle.rs:24-30 | Half the timeout, at least a second and at most a minute. |
| Reaper.SweepScheduled | crates/mwsqld/src/lib.rs:522-562 | Where each step puts the next sweep. |
| Reaper.NeverPostponed | crates/mwsqld/src/lib.rs:526-534 | Until the next sweep, nothing puts it off: adds and wake-ups only bring it closer. |
| Reaper.IdleBound | crates/mwsqld/src/lib.rs:522-580 | In every state of every run whose rebuilds are in time, no connection has been idle longer than its timeout and the interval of that timeout (half of it, at least a second and at most a minute), plus two delays of the loop. |
| Reaper.RebuildExact | crates/mwsqld/src/lib.rs:302-323 | A rebuild to a new timeout keeps that bound in everything that can follow exactly when the sweep already due is no further off than the timeout, its interval and one delay, or a wake-up is pending. |
| Reaper.LateRebuild | crates/mwsqld/src/main.rs:145-149 | An hour by the flag and a second on disk: after the rebuild the bound breaks. |
| Reaper.SweepExact | crates/mw-net/src/idle.rs:17-19 | A sweep closes exactly the idle connections whose timeout has passed since their last checkout. |
| Reaper.TimeGoesOn | crates/mwsqld/src/lib.rs:524-560 | The timing assumption never blocks the clock. |
| Reaper.ReapLoop.Woken | crates/mwsqld/src/lib.rs:531-534 | The wake-up branch in place. |
| Reaper.ReapLoop.SweepDue | crates/mwsqld/src/lib.rs:535-559 | The sweep branch in place, env by env. |
| Probe.JsonEscape | crates/mwsqld/src/main.rs:87-101 | The escaping loop computes the escaping function. |
| Probe.TestAll | crates/mwsqld/src/main.rs:173-217 | The output and the exit status of the test command. |
| Probe.UnescapeLoop | crates/mwsqlctl/src/probe.rs:209-236 | The unescaping loop computes the unescaping function, on any text. |
| Probe.UnescapeEscape | crates/mwsqlctl/src/probe.rs:209-236 | Unescaping undoes escaping but for control characters, which become U+FFFD. |
| Probe.JsonBack | crates/mwsqld/src/main.rs:87-101 | Any JSON parser reads the printed text back, control characters included. |
| Probe.KeyPosition | crates/mwsqld/src/main.rs:193-199 | Whatever the env and the reason contain, a key closes only where the printer put it. |
| Probe.OkTest | crates/mwsqlctl/src/probe.rs:144-146 | The substring test for `ok` finds exactly the flag printed. |
| Probe.SupportedTest | crates/mwsqlctl/src/probe.rs:147-149 | So does the one for `supported`. |
| Probe.ReasonBack | crates/mwsqlctl/src/probe.rs:191-197 | The reason of a printed line comes back, for every env and reason. |
| Probe.EnvBack | crates/mwsqlctl/src/probe.rs:201-207 | The env name comes back if and only if nothing in it needs an escape. |
| Probe.LinesBack | crates/mwsqlctl/src/probe.rs:138-142 | The lines of the output are the lines printed. |
| Probe.FirstFailureReason | crates/mwsqlctl/src/probe.rs:138-162 | The loop stops at the first line that reads as a genuine failure. |
| Probe.UnsupportedOnlyReason | crates/mwsqlctl/src/probe.rs:168-189 | The loop keeps the first note and gives up when an env has connected. |
| Probe.FirstFailureBack | crates/mwsqlctl/src/probe.rs:138-162 | From a printed report it is the first supported failure, and none exactly when there is none. |
| Probe.VerdictExact | crates/mwsqlctl/src/probe.rs:105-131 | The verdict on any set of results, through print and parse, stated on the results. |
| Framing.WriteLenencInt | crates/mw-net/src/framing.rs:139-154 | Pushing a length-encoded integer in its shortest form. |
| Framing.ReadLenencInt | crates/mw-net/src/framing.rs:111-137 | Reading one, the eight-byte form in a loop; NULL and 0xFF refused. |
| Framing.LenencBack | crates/mw-net/src/framing.rs:111-154 | Reading undoes writing for every 64-bit value, whatever follows. |
| Framing.LenencForms | crates/mw-net/src/framing.rs:139-154 | The four forms, byte by byte. |
| Framing.LenencFirst | crates/mw-net/src/framing.rs:139-154 | What the first byte can be, and when it is 0x00 or 0xFE. |
| Framing.SequenceCounter.Expect | crates/mw-net/src/framing.rs:44-53 | The counter advances only past the number it expects. |
| Framing.PacketLayout | crates/mw-net/src/framing.rs:88-107 | A packet byte by byte: three bytes of length, the number modulo 256, the payload. |
| Framing.Stream.WritePacket | crates/mw-net/src/framing.rs:88-107 | A payload that fits is written with its header; one that does not is refused before anything is written. |
| Framing.Stream.ReadPacket | crates/mw-net/src/framing.rs:56-86 | A packet is taken off the front, or the exact error. |
| Framing.TakeExact | crates/mw-net/src/framing.rs:56-107 | A reader takes a written packet exactly when its count agrees modulo 256. |
| Framing.TakeRefused | crates/mw-net/src/framing.rs:56-86 | Exactly when a packet is taken, and which error otherwise. |
| Framing.PacketsBack | crates/mw-net/src/framing.rs:56-107 | A reader in step recovers every payload, past any number of wrap-arounds. |
| ResultSet.RowTextPacket | crates/mw-net/src/wire.rs:45-82 | The row loop appends each cell, NULL as 0xFB. |
| ResultSet.RowBack | crates/mw-net/src/wire.rs:45-100 | Every text row decodes back to its cells. |
| ResultSet.RowFirst | crates/mw-net/src/wire.rs:45-100 | A row starts with 0xFE exactly when its first value has 16 MiB or more, and never with 0xFF. |
| ResultSet.WrittenRowIsNoTerminator | crates/mw-net/src/framing.rs:88-95 | So no row that can be written is taken for the terminator or an error. |
| ResultSet.AnswerTaken | crates/mw-net/src/router.rs:181-201 | A client reads every answer back whole, refusals and result sets included, and stops exactly where it ends. |
| ResultSet.ErrBack | crates/mw-net/src/router.rs:226-234 | A client reads back code, state and message of every error packet. |
| ResultSet.OkBack | crates/mw-net/src/router.rs:216-224 | A client reads the OK and the terminator as nothing affected, nothing inserted, autocommit, no warnings. |
| ResultSet.SessionBack | crates/mw-net/src/router.rs:45-92 | Over a whole session whose answers are complete and fit, a client in step, counting from 1 for each, reads back exactly the answers. |
| ResultSet.IncompleteNotTaken | crates/mw-net/src/router.rs:183-195 | Of a result set that the backend cut short a client has exactly the packets written, and never takes it for an answer. |
| ResultSet.SessionCut | crates/mw-net/src/router.rs:187-190 | The first incomplete answer ends the session, whatever follows on the stream; every answer before it is read back, and it is not. |
| ResultSet.EndingExact | crates/mw-net/src/router.rs:45-92 | How a session ends: with the client's hang-up exactly if every answer is complete and fits, else at the first that does not, by its own fault. |
| ResultSet.WriteTable | crates/mw-net/src/router.rs:183-195 | The result-set writes, up to the first packet that does not fit or to where the backend fails. |
| ResultSet.ServeSession | crates/mw-net/src/router.rs:35-92 | The command loop, its counter reset before every command, for any answers, complete, cut short or missing. |
| Router.QueryRead | crates/mw-net/src/router.rs:129-201 | What a client reads for an allowed query: the backend's table, an OK without columns, two fixed refusals, or the packets of a cut one. |
| Router.CommandRead | crates/mw-net/src/router.rs:65-127 | The same for a ping, a denial with its reason, and an unsupported command. |
| Router.QuotedExact | crates/mw-net/src/router.rs:109-114 | The slice a denial logs is defined exactly when the text has at most 64 bytes or byte 64 starts a character, which is when no character is cut. |
| Router.PanicExact | crates/mw-net/src/router.rs:107-127 | A session ends in a panic exactly when the first command it does not get past is a denied query for which that slice is not defined. |
| Router.DenialPanics | crates/mw-net/src/router.rs:107-127 | Sixty-three letters and a two-byte character, denied, get no answer; with a letter less they get the denial. |
| Token.EncodeToken | crates/mw-core/src/token.rs:24-47 | The encoding loop, three bytes at a time with the tail of one or two. |
| Token.Shifts | crates/mw-core/src/token.rs:29-45 | The shifts and masks of the loop take out the four six-bit parts of three bytes. |
| Token.DecodeEncode | crates/mw-core/src/token.rs:24-47 | The text decodes back to the bytes, for any number of them. |
| Token.EncodeDecode | crates/mw-core/src/token.rs:24-47 | A text decodes to given bytes if and only if it is their encoding. |
| Token.TokenShape | crates/mw-core/src/token.rs:15-49 | Four characters for three bytes, rounded up, all from the alphabet; 43 for a token. |
| NativePassword.VerifyNativeResponse | crates/mw-core/src/token.rs:66-88 | The check in place: length, unmask, hash, compare. |
| NativePassword.NativeResponse | crates/mw-core/src/token.rs:108-120 | The answer a client computes. |
| NativePassword.AcceptsExact | crates/mw-core/src/token.rs:66-88 | For any 20-byte hash, an answer is accepted exactly when it is a masked preimage of the stored value. |
| NativePassword.Formulas | crates/mw-core/src/token.rs:66-120 | The answer and the check, bit by bit, in hashes. |
| NativePassword.RightPassword | crates/mw-core/src/token.rs:66-120 | The right password is accepted under every scramble. |
| NativePassword.Replay | crates/mw-core/src/token.rs:66-88 | When an answer to one scramble passes for another. |

## Left out

- Sockets, TLS and SSH handshakes, connection pools, timeouts, the scheduler and the shutdown path: their outcomes are inputs of the steps (`Luck`, `Answer`, `Attempt`, the timed events).
- Cryptography, CBOR and the key store: hashes are abstract functions, a sealed blob is its configuration or torn.
- The SQL parser: a statement arrives as an abstract tree with the node kinds the firewall distinguishes, a function called in a FROM clause being a table factor and not an expression; sqlparser is not part of this model.
- Bounds of `parse_bind` and the other message parsers: messages arrive parsed, `None` for a body that does not parse.
- Float and date formatting, lossy decoding and `command_tag`: given as functions or values, with only the facts the proofs need.
- Column definition packets: opaque payloads; what is proved is that they come through whole and in order.
- Listing, audit, the admin probe, peer credentials, installers, services, the wizard and the command line: input and output, or easy claims only.
- Text PostgreSQL's lexer rejects, such as letters right behind a number or a parameter: `PgDialect` takes them as part of it; what the server's grammar makes of the tokens is left out.
- Directory syncs: a rename counts as done when it returns, as the code relies on.
- `init` after a crash, and I/O errors that make `with_config` fail halfway: a request there either saves or leaves the disk unchanged; `SealedStore` treats the file operations.
- The load right after a successful save: taken to succeed.
- Session eviction on `RmBastion`: part of the request's step, though the code does it just after releasing the lock.
- Aborting an accept loop: its sessions end with it in the same step, not at their next suspension point.
- Copy tasks of connections already tunnelled: a forward runs here as long as its accept task does.
- The pool of a snapshot that is no longer published: the reaper sweeps published snapshots only, and so does the model.
- 32-bit hosts: lengths are 64-bit as on the platforms the daemon ships for.
