/** What each change of the configuration stores and when it is refused, field by field. */
module Changes {
  import opened Common
  import opened Bytes
  import opened Policy
  import opened Config

  /** The tables agree everywhere but at this name. */
  ghost predicate SameBut<V>(before: map<Name, V>, after: map<Name, V>, name: Name) {
    forall n | n != name :: (n in after <==> n in before) && (n in after ==> after[n] == before[n])
  }

  // ---- what is stored ----

  /** How a token is kept: the SHA-256 for PostgreSQL, the doubled SHA-1 for the others. */
  ghost predicate KeepsToken(auth: ClientAuth, engine: Engine, h: Hashes, token: string) {
    if engine == Postgres then auth.PgCleartext? && auth.sha256 == h.sha256(token)
    else auth.NativePassword? && auth.doubleSha1 == h.doubleSha1(token)
  }

  ghost predicate PortTaken(c: Config, p: Port) {
    exists n :: n in c.envs && c.envs[n].listenPort == p
  }

  /** The port asked for, or the least one free between 6033 and 6064; no env had it. */
  ghost predicate TakesPort(c: Config, wanted: Option<Port>, p: Port) {
    && !PortTaken(c, p)
    && (wanted.Some? ==> p == wanted.value)
    && (wanted.None? ==> 6033 <= p <= 6064 && forall q: Port | 6033 <= q < p :: PortTaken(c, q))
  }

  ghost predicate StoresEnv(c: Config, e: Env, h: Hashes, a: EnvArgs, token: string) {
    && e.host == a.host && e.port == a.port && e.database == a.database && e.bastion == a.bastion
    && e.credential == a.credential && e.policy == a.policy && e.engine == a.engine
    && KeepsToken(e.auth, a.engine, h, token) && TakesPort(c, a.listenPort, e.listenPort)
    && e.pool.maxSize == (if a.maxPool.Some? then a.maxPool.value else 16) && e.pool.idleSecs == 300
  }

  /** One bastion is added or changed, and nothing else. */
  ghost predicate BastionOnly(c: Config, d: Config, name: Name) {
    name in d.bastions && SameBut(c.bastions, d.bastions, name) && d.credentials == c.credentials && d.envs == c.envs
  }

  ghost predicate CredentialOnly(c: Config, d: Config, name: Name) {
    name in d.credentials && SameBut(c.credentials, d.credentials, name) && d.bastions == c.bastions && d.envs == c.envs
  }

  ghost predicate EnvOnly(c: Config, d: Config, name: Name) {
    name in d.envs && SameBut(c.envs, d.envs, name) && d.bastions == c.bastions && d.credentials == c.credentials
  }

  /** What `d` holds after the change to `c`: what was given, at the name given. */
  ghost predicate Stores(c: Config, d: Config, h: Hashes, change: Change) {
    d.schema == c.schema &&
    match change
    case AddBastion(name, host, port, user, auth, fingerprint) =>
      && BastionOnly(c, d, name)
      && var b := d.bastions[name];
         && b.host == host && b.port == port && b.user == user && b.auth == auth
         && (forall k :: k in b.pins <==> fingerprint == Some(k)) && |b.pins| <= 1
    case SetFingerprint(name, pin) =>
      && BastionOnly(c, d, name) && name in c.bastions
      && var b, old' := d.bastions[name], c.bastions[name];
         b.pins == [pin] && b.host == old'.host && b.port == old'.port && b.user == old'.user && b.auth == old'.auth
    case RmBastion(name) =>
      && name !in d.bastions && SameBut(c.bastions, d.bastions, name)
      && d.credentials == c.credentials && d.envs == c.envs
    case AddCred(name, user, password) =>
      CredentialOnly(c, d, name) && d.credentials[name].user == user && d.credentials[name].password == password
    case RotateCred(name, password) =>
      && CredentialOnly(c, d, name) && name in c.credentials
      && d.credentials[name].password == password && d.credentials[name].user == c.credentials[name].user
    case RmCred(name) =>
      && name !in d.credentials && SameBut(c.credentials, d.credentials, name)
      && d.bastions == c.bastions && d.envs == c.envs
    case AddEnv(args, token) => EnvOnly(c, d, args.name) && StoresEnv(c, d.envs[args.name], h, args, token)
    case RmEnv(name) =>
      && name !in d.envs && SameBut(c.envs, d.envs, name)
      && d.bastions == c.bastions && d.credentials == c.credentials
    case Grant(name, token) =>
      && EnvOnly(c, d, name) && name in c.envs
      && KeepsToken(d.envs[name].auth, c.envs[name].engine, h, token)
      && d.envs[name].policy == c.envs[name].policy && SameElsewhere(c.envs[name], d.envs[name])
    case SetPolicy(name, readWrite) =>
      && EnvOnly(c, d, name) && name in c.envs
      && (d.envs[name].policy == ReadWrite <==> readWrite) && (d.envs[name].policy == ReadOnly <==> !readWrite)
      && d.envs[name].auth == c.envs[name].auth && SameElsewhere(c.envs[name], d.envs[name])
    case Import(f) =>
      && AddsAll(c.bastions, f.bastions, d.bastions) && AddsAll(c.credentials, f.credentials, d.credentials)
      && AddsAll(c.envs, f.envs, d.envs)
  }

  /** All but policy and token. */
  ghost predicate SameElsewhere(e: Env, e': Env) {
    && e'.host == e.host && e'.port == e.port && e'.database == e.database && e'.bastion == e.bastion
    && e'.credential == e.credential && e'.listenPort == e.listenPort && e'.pool == e.pool && e'.engine == e.engine
  }

  /** Everything of both, which have no name in common. */
  ghost predicate AddsAll<V>(before: map<Name, V>, more: map<Name, V>, after: map<Name, V>) {
    && (forall n :: n in after <==> n in before || n in more)
    && (forall n | n in before :: n !in more && after[n] == before[n])
    && (forall n | n in more :: after[n] == more[n])
  }

  /** Every change that is made stores exactly what it was given. */
  lemma ChangeStores(c: Config, h: Hashes, change: Change)
    requires Apply(c, h, change).Ok?
    ensures Stores(c, Apply(c, h, change).value, h, change)
  {
    match change
    case AddEnv(args, token) => EnvStored(c, h, args, token);
    case Import(f) => ImportStored(c, f);
    case _ =>
  }

  lemma EnvStored(c: Config, h: Hashes, a: EnvArgs, token: string)
    requires ApplyAddEnv(c, h, a, token).Ok?
    ensures var d := ApplyAddEnv(c, h, a, token).value;
      d.schema == c.schema && EnvOnly(c, d, a.name) && StoresEnv(c, d.envs[a.name], h, a, token)
  {
    assert forall p: Port :: PortUsed(c, p) <==> PortTaken(c, p);
    hide PortUsed, PortTaken, FreeFrom;
  }

  lemma ImportStored(c: Config, f: Config)
    requires ApplyImport(c, f).Ok?
    ensures var d := ApplyImport(c, f).value;
      && d.schema == c.schema
      && AddsAll(c.bastions, f.bastions, d.bastions) && AddsAll(c.credentials, f.credentials, d.credentials)
      && AddsAll(c.envs, f.envs, d.envs)
  {
    assert forall n | n in f.bastions :: n !in f.bastions.Keys * c.bastions.Keys;
    assert forall n | n in f.credentials :: n !in f.credentials.Keys * c.credentials.Keys;
    assert forall n | n in f.envs :: n !in f.envs.Keys * c.envs.Keys;
  }

  // ---- when it is refused ----

  /** What a change needs of the configuration. */
  ghost predicate Accepted(c: Config, change: Change) {
    match change
    case AddBastion(name, _, _, _, _, _) => name !in c.bastions
    case SetFingerprint(name, _) => name in c.bastions
    case RmBastion(name) => name in c.bastions && forall n | n in c.envs :: c.envs[n].bastion != Some(name)
    case AddCred(name, _, _) => name !in c.credentials
    case RotateCred(name, _) => name in c.credentials
    case RmCred(name) => name in c.credentials && forall n | n in c.envs :: c.envs[n].credential != name
    case AddEnv(a, _) =>
      && a.engine != MsSql && a.name !in c.envs && a.credential in c.credentials
      && (a.bastion.Some? ==> a.bastion.value in c.bastions)
      && (a.listenPort.Some? ==> !PortTaken(c, a.listenPort.value))
      && (a.listenPort.None? ==> exists p: Port :: 6033 <= p <= 6064 && !PortTaken(c, p))
    case RmEnv(name) => name in c.envs
    case Grant(name, _) => name in c.envs
    case SetPolicy(name, _) => name in c.envs
    case Import(f) =>
      && (forall n | n in f.bastions :: n !in c.bastions)
      && (forall n | n in f.credentials :: n !in c.credentials)
      && (forall n | n in f.envs :: n !in c.envs && !PortTaken(c, f.envs[n].listenPort))
  }

  /** A change is made exactly if its names are free or there, as it needs them, nothing refers
      to what it removes, and its ports are free. */
  lemma AcceptedExact(c: Config, h: Hashes, change: Change)
    ensures Apply(c, h, change).Ok? <==> Accepted(c, change)
  {
    match change
    case AddEnv(a, token) => EnvAccepted(c, h, a, token);
    case Import(f) => ImportAccepted(c, f);
    case _ =>
  }

  lemma EnvAccepted(c: Config, h: Hashes, a: EnvArgs, token: string)
    ensures ApplyAddEnv(c, h, a, token).Ok? <==> Accepted(c, AddEnv(a, token))
  {
    hide FreeFrom;
    assert forall p: Port :: PortUsed(c, p) <==> PortTaken(c, p);
    if PickFreePort(c).Some? {
      assert !PortTaken(c, PickFreePort(c).value);
    }
  }

  lemma ImportAccepted(c: Config, f: Config)
    ensures ApplyImport(c, f).Ok? <==> Accepted(c, Import(f))
  {
    assert forall p: Port :: PortUsed(c, p) <==> PortTaken(c, p);
    DisjointExact(f.bastions.Keys, c.bastions.Keys);
    DisjointExact(f.credentials.Keys, c.credentials.Keys);
    DisjointExact(f.envs.Keys, c.envs.Keys);
  }

  lemma DisjointExact(a: set<Name>, b: set<Name>)
    ensures a * b == {} <==> forall n | n in a :: n !in b
  {
    if forall n | n in a :: n !in b {
      assert forall n :: n !in a * b;
    }
    assert forall n | n in a && n in b :: n in a * b;
  }
}
