/** The configuration, what makes it valid, and every transform of it. */
module Config {
  import opened Common
  import opened Bytes
  import opened Policy

  type Name = string

  type Port = p: int | 0 <= p < 0x1_0000

  datatype Fingerprint = Fingerprint(algo: string, sha256: string)

  datatype BastionAuth = Password(password: string) | Key(pem: seq<byte>, passphrase: Option<string>)

  datatype Bastion = Bastion(host: string, port: Port, user: string, auth: BastionAuth, pins: seq<Fingerprint>)

  datatype Credential = Credential(user: string, password: string)

  datatype Engine = MySql | Postgres | MsSql

  /** The material a client's token is checked against. */
  datatype ClientAuth = NativePassword(doubleSha1: seq<byte>) | PgCleartext(sha256: seq<byte>)

  datatype Pool = Pool(maxSize: nat, idleSecs: nat)

  datatype Env = Env(
    host: string, port: Port, database: Option<string>, bastion: Option<Name>, credential: Name,
    policy: Policy, auth: ClientAuth, listenPort: Port, pool: Pool, engine: Engine)

  const SCHEMA_VERSION := 2
  const DEFAULT_POOL := Pool(16, 300)
  const PORT_BASE := 6033
  const PORT_END := 6064

  datatype Config = Config(
    schema: nat, bastions: map<Name, Bastion>, credentials: map<Name, Credential>, envs: map<Name, Env>)

  /** The two token digests. */
  datatype Hashes = Hashes(doubleSha1: string -> seq<byte>, sha256: string -> seq<byte>)

  // ---- validity ----

  predicate AuthMatches(engine: Engine, auth: ClientAuth) {
    match engine
    case MySql => auth.NativePassword?
    case Postgres => auth.PgCleartext?
    case MsSql => true
  }

  /** An env's references resolve and its client auth is of its engine's kind. */
  predicate EnvFits(e: Env, bastions: map<Name, Bastion>, credentials: map<Name, Credential>) {
    && (e.bastion.Some? ==> e.bastion.value in bastions)
    && e.credential in credentials
    && AuthMatches(e.engine, e.auth)
  }

  ghost predicate PortsInjective(envs: map<Name, Env>) {
    forall m, n | m in envs && n in envs && m != n :: envs[m].listenPort != envs[n].listenPort
  }

  ghost predicate Valid(c: Config) {
    && c.schema == SCHEMA_VERSION
    && (forall n | n in c.envs :: EnvFits(c.envs[n], c.bastions, c.credentials))
    && PortsInjective(c.envs)
  }

  datatype ConfigError =
    | UnknownBastion(name: Name)
    | UnknownCredential(name: Name)
    | DuplicateListenPort(port: Port, first: Name, second: Name)
    | UnsupportedSchema(version: nat)
    | EngineAuthMismatch(env: Name, engine: Engine)

  /** What each complaint of `validate` says about the configuration. */
  ghost predicate Justified(c: Config, e: ConfigError) {
    match e
    case UnsupportedSchema(v) => v == c.schema != SCHEMA_VERSION
    case UnknownBastion(b) => b !in c.bastions && exists n :: n in c.envs && c.envs[n].bastion == Some(b)
    case UnknownCredential(k) => k !in c.credentials && exists n :: n in c.envs && c.envs[n].credential == k
    case EngineAuthMismatch(n, engine) =>
      n in c.envs && c.envs[n].engine == engine && !AuthMatches(engine, c.envs[n].auth)
    case DuplicateListenPort(p, m, n) =>
      m in c.envs && n in c.envs && m != n && c.envs[m].listenPort == p == c.envs[n].listenPort
  }

  /** `Config::validate`, over the envs in any order. */
  method Validate(c: Config) returns (r: Result<(), ConfigError>)
    ensures r.Ok? <==> Valid(c)
    ensures r.Err? ==> Justified(c, r.error)
  {
    if c.schema != SCHEMA_VERSION {
      return Err(UnsupportedSchema(c.schema));
    }
    var seen: map<Port, Name> := map[];
    var rest := c.envs.Keys;
    while rest != {}
      invariant rest <= c.envs.Keys
      invariant forall n | n in c.envs && n !in rest ::
        EnvFits(c.envs[n], c.bastions, c.credentials) && c.envs[n].listenPort in seen && seen[c.envs[n].listenPort] == n
      invariant forall p | p in seen :: seen[p] in c.envs && seen[p] !in rest && c.envs[seen[p]].listenPort == p
      decreases rest
    {
      var n :| n in rest;
      var e := c.envs[n];
      if e.bastion.Some? && e.bastion.value !in c.bastions {
        return Err(UnknownBastion(e.bastion.value));
      }
      if e.credential !in c.credentials {
        return Err(UnknownCredential(e.credential));
      }
      if !AuthMatches(e.engine, e.auth) {
        return Err(EngineAuthMismatch(n, e.engine));
      }
      if e.listenPort in seen {
        return Err(DuplicateListenPort(e.listenPort, seen[e.listenPort], n));
      }
      seen := seen[e.listenPort := n];
      rest := rest - {n};
    }
    return Ok(());
  }

  // ---- ports ----

  predicate PortUsed(c: Config, p: Port) {
    exists n | n in c.envs :: c.envs[n].listenPort == p
  }

  /** The first free port at or after `p` in the client range. */
  function FreeFrom(c: Config, p: Port): (r: Option<Port>)
    requires p <= PORT_END + 1
    ensures r.Some? ==> p <= r.value <= PORT_END && !PortUsed(c, r.value)
    ensures r.Some? ==> forall q: Port | p <= q < r.value :: PortUsed(c, q)
    ensures r.None? ==> forall q: Port | p <= q <= PORT_END :: PortUsed(c, q)
    decreases PORT_END - p
  {
    if p > PORT_END then None else if !PortUsed(c, p) then Some(p) else FreeFrom(c, p + 1)
  }

  /** `pick_free_port`: the least free port of the range, if there is one. */
  function PickFreePort(c: Config): (r: Option<Port>)
    ensures r.Some? ==> PORT_BASE <= r.value <= PORT_END && !PortUsed(c, r.value)
    ensures r.Some? ==> forall q: Port | PORT_BASE <= q < r.value :: PortUsed(c, q)
    ensures r.None? <==> forall q: Port | PORT_BASE <= q <= PORT_END :: PortUsed(c, q)
  {
    FreeFrom(c, PORT_BASE)
  }

  ghost function PortsOf(envs: map<Name, Env>): set<Port> {
    set n | n in envs :: envs[n].listenPort
  }

  lemma {:induction false} PortsAtMostEnvs(envs: map<Name, Env>)
    ensures |PortsOf(envs)| <= |envs|
    decreases |envs|
  {
    if envs != map[] {
      var n :| n in envs;
      var fewer := envs - {n};
      PortsAtMostEnvs(fewer);
      assert envs.Keys == fewer.Keys + {n};
      assert |envs.Keys| == |fewer.Keys| + 1;
      assert PortsOf(envs) == PortsOf(fewer) + {envs[n].listenPort};
    }
  }

  lemma {:induction false} RangeSize(lo: Port, k: nat, s: set<Port>)
    requires lo + k < 0x1_0000
    requires forall q: Port | lo <= q < lo + k :: q in s
    ensures k <= |s|
    decreases k
  {
    if 0 < k {
      var top: Port := lo + k - 1;
      RangeSize(lo, k - 1, s - {top});
      assert s == s - {top} + {top};
    }
  }

  /** Running out of ports takes 32 envs. */
  lemma FreePortBelow32(c: Config)
    requires |c.envs| < 32
    ensures PickFreePort(c).Some?
  {
    if PickFreePort(c).None? {
      forall q: Port | PORT_BASE <= q < PORT_BASE + 32
        ensures q in PortsOf(c.envs)
      {
        assert PortUsed(c, q);
      }
      RangeSize(PORT_BASE, 32, PortsOf(c.envs));
      PortsAtMostEnvs(c.envs);
      assert false;
    }
  }

  // ---- transforms ----

  datatype EnvArgs = EnvArgs(
    name: Name, host: string, port: Port, database: Option<string>, bastion: Option<Name>,
    credential: Name, policy: Policy, listenPort: Option<Port>, maxPool: Option<nat>, engine: Engine)

  datatype Change =
    | AddBastion(name: Name, host: string, port: Port, user: string, auth: BastionAuth, fingerprint: Option<Fingerprint>)
    | SetFingerprint(name: Name, pin: Fingerprint)
    | RmBastion(name: Name)
    | AddCred(name: Name, user: string, password: string)
    | RotateCred(name: Name, password: string)
    | RmCred(name: Name)
    | AddEnv(args: EnvArgs, token: string)
    | RmEnv(name: Name)
    | Grant(name: Name, token: string)
    | SetPolicy(name: Name, readWrite: bool)
    | Import(fragment: Config)

  datatype Kind = ABastion | ACredential | AnEnv

  datatype Refusal =
    | AlreadyExists(kind: Kind)
    | NotFound(kind: Kind)
    | StillReferenced(kind: Kind)
    | PortInUse(port: Port)
    | NoFreePort
    | EngineNotImplemented
    | PortCollision

  type Outcome = Result<Config, Refusal>

  predicate BastionUsed(c: Config, name: Name) {
    exists n | n in c.envs :: c.envs[n].bastion == Some(name)
  }

  predicate CredUsed(c: Config, name: Name) {
    exists n | n in c.envs :: c.envs[n].credential == name
  }

  /** `client_auth_for`. */
  function ClientAuthFor(h: Hashes, engine: Engine, token: string): (r: ClientAuth)
    ensures AuthMatches(engine, r)
  {
    if engine == Postgres then PgCleartext(h.sha256(token)) else NativePassword(h.doubleSha1(token))
  }

  function ChosenPort(c: Config, wanted: Option<Port>): (r: Result<Port, Refusal>)
    ensures r.Ok? ==> !PortUsed(c, r.value)
  {
    match wanted
    case Some(p) => if PortUsed(c, p) then Err(PortInUse(p)) else Ok(p)
    case None =>
      match PickFreePort(c)
      case Some(p) => Ok(p)
      case None => Err(NoFreePort)
  }

  function NewEnv(h: Hashes, a: EnvArgs, listenPort: Port, token: string): Env {
    Env(a.host, a.port, a.database, a.bastion, a.credential, a.policy,
        ClientAuthFor(h, a.engine, token), listenPort,
        if a.maxPool.Some? then DEFAULT_POOL.(maxSize := a.maxPool.value) else DEFAULT_POOL,
        a.engine)
  }

  function ApplyAddEnv(c: Config, h: Hashes, a: EnvArgs, token: string): (r: Outcome) {
    if a.engine == MsSql then Err(EngineNotImplemented)
    else if a.name in c.envs then Err(AlreadyExists(AnEnv))
    else if a.credential !in c.credentials then Err(NotFound(ACredential))
    else if a.bastion.Some? && a.bastion.value !in c.bastions then Err(NotFound(ABastion))
    else
      match ChosenPort(c, a.listenPort)
      case Err(e) => Err(e)
      case Ok(p) => Ok(c.(envs := c.envs[a.name := NewEnv(h, a, p, token)]))
  }

  /** `merge_import`. */
  function ApplyImport(c: Config, f: Config): (r: Outcome) {
    if f.bastions.Keys * c.bastions.Keys != {} then Err(AlreadyExists(ABastion))
    else if f.credentials.Keys * c.credentials.Keys != {} then Err(AlreadyExists(ACredential))
    else if f.envs.Keys * c.envs.Keys != {} then Err(AlreadyExists(AnEnv))
    else if exists n | n in f.envs :: PortUsed(c, f.envs[n].listenPort) then Err(PortCollision)
    else Ok(c.(bastions := c.bastions + f.bastions, credentials := c.credentials + f.credentials, envs := c.envs + f.envs))
  }

  /** Every transform of `mutate.rs`: the configuration it leaves, or why it refuses. */
  function Apply(c: Config, h: Hashes, change: Change): (r: Outcome) {
    match change
    case AddBastion(name, host, port, user, auth, fingerprint) =>
      if name in c.bastions then Err(AlreadyExists(ABastion))
      else
        var pins := if fingerprint.Some? then [fingerprint.value] else [];
        Ok(c.(bastions := c.bastions[name := Bastion(host, port, user, auth, pins)]))
    case SetFingerprint(name, pin) =>
      if name !in c.bastions then Err(NotFound(ABastion))
      else Ok(c.(bastions := c.bastions[name := c.bastions[name].(pins := [pin])]))
    case RmBastion(name) =>
      if BastionUsed(c, name) then Err(StillReferenced(ABastion))
      else if name !in c.bastions then Err(NotFound(ABastion))
      else Ok(c.(bastions := c.bastions - {name}))
    case AddCred(name, user, password) =>
      if name in c.credentials then Err(AlreadyExists(ACredential))
      else Ok(c.(credentials := c.credentials[name := Credential(user, password)]))
    case RotateCred(name, password) =>
      if name !in c.credentials then Err(NotFound(ACredential))
      else Ok(c.(credentials := c.credentials[name := c.credentials[name].(password := password)]))
    case RmCred(name) =>
      if CredUsed(c, name) then Err(StillReferenced(ACredential))
      else if name !in c.credentials then Err(NotFound(ACredential))
      else Ok(c.(credentials := c.credentials - {name}))
    case AddEnv(args, token) => ApplyAddEnv(c, h, args, token)
    case RmEnv(name) =>
      if name !in c.envs then Err(NotFound(AnEnv)) else Ok(c.(envs := c.envs - {name}))
    case Grant(name, token) =>
      if name !in c.envs then Err(NotFound(AnEnv))
      else Ok(c.(envs := c.envs[name := c.envs[name].(auth := ClientAuthFor(h, c.envs[name].engine, token))]))
    case SetPolicy(name, readWrite) =>
      if name !in c.envs then Err(NotFound(AnEnv))
      else Ok(c.(envs := c.envs[name := c.envs[name].(policy := if readWrite then ReadWrite else ReadOnly)]))
    case Import(fragment) => ApplyImport(c, fragment)
  }

  // ---- what the transforms keep ----

  lemma AddEnvValid(c: Config, h: Hashes, a: EnvArgs, token: string)
    requires Valid(c) && ApplyAddEnv(c, h, a, token).Ok?
    ensures Valid(ApplyAddEnv(c, h, a, token).value)
  {
    hide PickFreePort;
    var p := ChosenPort(c, a.listenPort).value;
    assert forall n | n in c.envs :: c.envs[n].listenPort != p;
  }

  /** What an imported fragment must satisfy for the merge to be valid: its references may
      resolve in either configuration, its own ports must differ, its auth must match. */
  ghost predicate FragmentFits(c: Config, f: Config) {
    && (forall n | n in f.envs :: EnvFits(f.envs[n], c.bastions + f.bastions, c.credentials + f.credentials))
    && PortsInjective(f.envs)
  }

  /** A merge into a valid configuration is valid exactly when the fragment fits, which a
      fragment that is valid on its own always does. */
  lemma ImportExact(c: Config, f: Config)
    requires Valid(c) && ApplyImport(c, f).Ok?
    ensures Valid(ApplyImport(c, f).value) <==> FragmentFits(c, f)
    ensures Valid(f) ==> FragmentFits(c, f)
  {
    MergedEnvs(c, f);
    MergedPorts(c, f);
    hide ApplyImport, PortsInjective;
    var m := ApplyImport(c, f).value;
    assert forall n | n in c.envs :: EnvFits(m.envs[n], m.bastions, m.credentials);
  }

  /** A merge keeps both sides' envs as they are. */
  lemma MergedEnvs(c: Config, f: Config)
    requires ApplyImport(c, f).Ok?
    ensures var m := ApplyImport(c, f).value;
      && m.schema == c.schema && m.bastions == c.bastions + f.bastions && m.credentials == c.credentials + f.credentials
      && m.envs.Keys == c.envs.Keys + f.envs.Keys
      && (forall n | n in f.envs :: n !in c.envs && m.envs[n] == f.envs[n])
      && (forall n | n in c.envs :: m.envs[n] == c.envs[n])
  {
    forall n | n in f.envs
      ensures n !in c.envs
    {
      assert n !in f.envs.Keys * c.envs.Keys;
    }
  }

  lemma MergedPorts(c: Config, f: Config)
    requires ApplyImport(c, f).Ok? && PortsInjective(c.envs)
    ensures PortsInjective(ApplyImport(c, f).value.envs) <==> PortsInjective(f.envs)
  {
    MergedEnvs(c, f);
    forall i, j | i in f.envs && j in c.envs
      ensures f.envs[i].listenPort != c.envs[j].listenPort
    {
      assert !PortUsed(c, f.envs[i].listenPort);
    }
    hide ApplyImport;
    var m := ApplyImport(c, f).value;
    if PortsInjective(m.envs) {
      forall i, j | i in f.envs && j in f.envs && i != j
        ensures f.envs[i].listenPort != f.envs[j].listenPort
      {
        assert m.envs[i].listenPort != m.envs[j].listenPort;
      }
    }
  }

  /** Every transform that succeeds keeps a valid configuration valid; an import does
      exactly when its fragment fits. */
  lemma ApplyValid(c: Config, h: Hashes, change: Change)
    requires Valid(c) && Apply(c, h, change).Ok?
    ensures Valid(Apply(c, h, change).value) <==> (change.Import? ==> FragmentFits(c, change.fragment))
  {
    match change
    case AddEnv(args, token) => AddEnvValid(c, h, args, token);
    case Import(f) => ImportExact(c, f);
    case _ => SmallChangeValid(c, h, change);
  }

  lemma SmallChangeValid(c: Config, h: Hashes, change: Change)
    requires Valid(c) && Apply(c, h, change).Ok? && !change.AddEnv? && !change.Import?
    ensures Valid(Apply(c, h, change).value)
  {
    var d := Apply(c, h, change).value;
    forall n | n in d.envs
      ensures n in c.envs && EnvFits(d.envs[n], d.bastions, d.credentials)
      ensures d.envs[n].listenPort == c.envs[n].listenPort
    {
      assert EnvFits(c.envs[n], c.bastions, c.credentials);
    }
  }

  /** No transform moves an existing env: whatever it survives, its listener, engine,
      bastion and credential stay, and policy and auth change only when it is named. */
  lemma EnvsStayPut(c: Config, h: Hashes, change: Change, n: Name)
    requires Apply(c, h, change).Ok?
    requires n in c.envs && n in Apply(c, h, change).value.envs
    ensures var e, e' := c.envs[n], Apply(c, h, change).value.envs[n];
      && e'.listenPort == e.listenPort && e'.engine == e.engine
      && e'.bastion == e.bastion && e'.credential == e.credential && e'.pool == e.pool
      && (e'.policy != e.policy ==> change.SetPolicy? && change.name == n)
      && (e'.auth != e.auth ==> change.Grant? && change.name == n)
  {
    if change.Import? {
      assert n !in change.fragment.envs.Keys * c.envs.Keys;
    }
  }

  /** Names come and go only as the request says. */
  lemma EnvNames(c: Config, h: Hashes, change: Change)
    requires Apply(c, h, change).Ok?
    ensures var d := Apply(c, h, change).value;
      d.envs.Keys == match change
                     case AddEnv(args, _) => c.envs.Keys + {args.name}
                     case RmEnv(name) => c.envs.Keys - {name}
                     case Import(f) => c.envs.Keys + f.envs.Keys
                     case _ => c.envs.Keys
  {
  }

  // ---- the configuration in place ----

  class Store {
    var schema: nat
    var bastions: map<Name, Bastion>
    var credentials: map<Name, Credential>
    var envs: map<Name, Env>

    constructor (c: Config)
      ensures Value() == c
    {
      schema, bastions, credentials, envs := c.schema, c.bastions, c.credentials, c.envs;
    }

    function Value(): Config
      reads this
    {
      Config(schema, bastions, credentials, envs)
    }

    /** Every transform edits the tables it touches and nothing else, or refuses and
        leaves the configuration as it was. */
    method Change(h: Hashes, change: Change) returns (refused: Option<Refusal>)
      modifies this
      ensures match Apply(old(Value()), h, change)
              case Ok(c) => refused == None && Value() == c
              case Err(e) => refused == Some(e) && Value() == old(Value())
    {
      match change {
        case AddBastion(name, host, port, user, auth, fingerprint) =>
          if name in bastions {
            return Some(AlreadyExists(ABastion));
          }
          var pins := if fingerprint.Some? then [fingerprint.value] else [];
          bastions := bastions[name := Bastion(host, port, user, auth, pins)];
        case SetFingerprint(name, pin) =>
          if name !in bastions {
            return Some(NotFound(ABastion));
          }
          bastions := bastions[name := bastions[name].(pins := [pin])];
        case RmBastion(name) =>
          if exists n | n in envs :: envs[n].bastion == Some(name) {
            return Some(StillReferenced(ABastion));
          }
          if name !in bastions {
            return Some(NotFound(ABastion));
          }
          bastions := bastions - {name};
        case AddCred(name, user, password) =>
          if name in credentials {
            return Some(AlreadyExists(ACredential));
          }
          credentials := credentials[name := Credential(user, password)];
        case RotateCred(name, password) =>
          if name !in credentials {
            return Some(NotFound(ACredential));
          }
          credentials := credentials[name := credentials[name].(password := password)];
        case RmCred(name) =>
          if exists n | n in envs :: envs[n].credential == name {
            return Some(StillReferenced(ACredential));
          }
          if name !in credentials {
            return Some(NotFound(ACredential));
          }
          credentials := credentials - {name};
        case AddEnv(args, token) =>
          refused := AddEnvInPlace(h, args, token);
          return;
        case RmEnv(name) =>
          if name !in envs {
            return Some(NotFound(AnEnv));
          }
          envs := envs - {name};
        case Grant(name, token) =>
          if name !in envs {
            return Some(NotFound(AnEnv));
          }
          envs := envs[name := envs[name].(auth := ClientAuthFor(h, envs[name].engine, token))];
        case SetPolicy(name, readWrite) =>
          if name !in envs {
            return Some(NotFound(AnEnv));
          }
          envs := envs[name := envs[name].(policy := if readWrite then ReadWrite else ReadOnly)];
        case Import(fragment) =>
          refused := MergeInPlace(fragment);
          return;
      }
      return None;
    }

    method AddEnvInPlace(h: Hashes, a: EnvArgs, token: string) returns (refused: Option<Refusal>)
      modifies this
      ensures match ApplyAddEnv(old(Value()), h, a, token)
              case Ok(c) => refused == None && Value() == c
              case Err(e) => refused == Some(e) && Value() == old(Value())
    {
      if a.engine == MsSql {
        return Some(EngineNotImplemented);
      }
      if a.name in envs {
        return Some(AlreadyExists(AnEnv));
      }
      if a.credential !in credentials {
        return Some(NotFound(ACredential));
      }
      if a.bastion.Some? && a.bastion.value !in bastions {
        return Some(NotFound(ABastion));
      }
      var port := ChosenPort(Value(), a.listenPort);
      if port.Err? {
        return Some(port.error);
      }
      envs := envs[a.name := NewEnv(h, a, port.value, token)];
      return None;
    }

    method MergeInPlace(f: Config) returns (refused: Option<Refusal>)
      modifies this
      ensures match ApplyImport(old(Value()), f)
              case Ok(c) => refused == None && Value() == c
              case Err(e) => refused == Some(e) && Value() == old(Value())
    {
      if f.bastions.Keys * bastions.Keys != {} {
        return Some(AlreadyExists(ABastion));
      }
      if f.credentials.Keys * credentials.Keys != {} {
        return Some(AlreadyExists(ACredential));
      }
      if f.envs.Keys * envs.Keys != {} {
        return Some(AlreadyExists(AnEnv));
      }
      if exists n | n in f.envs :: PortUsed(Value(), f.envs[n].listenPort) {
        return Some(PortCollision);
      }
      bastions := bastions + f.bastions;
      credentials := credentials + f.credentials;
      envs := envs + f.envs;
      return None;
    }
  }
}
