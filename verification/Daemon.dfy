/** The control requests: change the sealed configuration, then bring the live table into
    line with it. Requests run one at a time; sessions come and go between them. */
module Daemon {
  import opened Common
  import opened Config
  import opened SnapshotHeap
  import opened LiveEnvs

  /** What happens next: an administrator's request (whether the save works, the order the
      affected envs are visited in, and what each env meets on the way), a client that
      connects to an env, or one that leaves. */
  datatype Event =
    | Ask(change: Change, confirmed: bool, saved: bool, order: seq<Name>, luck: Name -> Luck)
    | Connect(env: Name)
    | Leave(env: Name, session: nat)

  datatype Response =
    | Done
    | Denied
    | Refused
    | Token
    | TokenButNotLive
    | Stopped(envs: seq<Name>)
    | NotApplied(env: Name)

  // ---- saving ----

  /** `with_config`: transform, validate, save; any failure leaves the disk as it was. */
  ghost function Save(w: World, h: Hashes, change: Change, saved: bool): Option<Config> {
    var o := Apply(w.disk, h, change);
    if o.Ok? && Valid(o.value) && saved then Some(o.value) else None
  }

  function AffectedBy(c: Config, change: Change): set<Name> {
    match change
    case SetFingerprint(b, _) => set n | n in c.envs && c.envs[n].bastion == Some(b)
    case RotateCred(k, _) => set n | n in c.envs && c.envs[n].credential == k
    case Import(f) => f.envs.Keys
    case _ => {}
  }

  /** Each name once. */
  ghost predicate Lists(order: seq<Name>, names: set<Name>) {
    && (forall n :: n in order <==> n in names)
    && forall i, j | 0 <= i < j < |order| :: order[i] != order[j]
  }

  ghost predicate Orderly(w: World, h: Hashes, e: Event) {
    e.Ask? && Save(w, h, e.change, e.saved).Some? ==>
      Lists(e.order, AffectedBy(Save(w, h, e.change, e.saved).value, e.change))
  }

  // ---- visiting the affected envs ----

  function Names(order: seq<Name>): set<Name> {
    set n | n in order
  }

  ghost predicate OnDisk(w: World, order: seq<Name>) {
    forall i | 0 <= i < |order| :: order[i] in w.disk.envs
  }

  /** The rest of `set_fingerprint`: rebuild every affected live env; one that cannot be
      rebuilt is taken offline. */
  function RepinAll(w: World, order: seq<Name>, luck: Name -> Luck): (World, seq<Name>)
    requires Books(w) && OnDisk(w, order)
    decreases |order|
  {
    hide Books;
    if |order| == 0 then (w, [])
    else
      var n := order[0];
      if n !in w.live then RepinAll(w, order[1..], luck)
      else
        RebuildKeeps(w, n, luck(n));
        var (v, ok) := Rebuild(w, n, luck(n));
        if ok then RepinAll(v, order[1..], luck)
        else
          RmKeeps(v, n);
          var (u, stopped) := RepinAll(RmLive(v, n), order[1..], luck);
          (u, [n] + stopped)
  }

  /** The rest of `rotate_cred`: rebuild the affected envs up to the first failure; how many
      were rebuilt. */
  function RotateAll(w: World, order: seq<Name>, luck: Name -> Luck): (World, nat)
    requires Books(w) && OnDisk(w, order)
    decreases |order|
  {
    hide Books;
    if |order| == 0 then (w, 0)
    else
      RebuildKeeps(w, order[0], luck(order[0]));
      var (v, ok) := Rebuild(w, order[0], luck(order[0]));
      if !ok then (v, 0)
      else
        var (u, k) := RotateAll(v, order[1..], luck);
        (u, k + 1)
  }

  /** The rest of `import`: bring the new envs up to the first failure. */
  function AddAll(w: World, order: seq<Name>, luck: Name -> Luck): (World, nat)
    requires Books(w) && OnDisk(w, order) && NoneLive(w, order)
    decreases |order|
  {
    hide Books, OnDisk, NoneLive;
    if |order| == 0 then (w, 0)
    else
      FirstNew(w, order, luck(order[0]));
      var (v, ok) := AddLive(w, order[0], luck(order[0]));
      if !ok then (v, 0)
      else
        var (u, k) := AddAll(v, order[1..], luck);
        (u, k + 1)
  }

  ghost predicate NoneLive(w: World, order: seq<Name>) {
    && (forall i | 0 <= i < |order| :: order[i] !in w.live)
    && forall i, j | 0 <= i < j < |order| :: order[i] != order[j]
  }

  lemma FirstNew(w: World, order: seq<Name>, l: Luck)
    requires Books(w) && OnDisk(w, order) && NoneLive(w, order) && |order| > 0
    ensures order[0] in w.disk.envs && order[0] !in w.live
    ensures OnDisk(w, order[1..]) && NoneLive(w, order[1..])
    ensures var (v, ok) := AddLive(w, order[0], l);
      AddDone(w, v, order[0], ok) && Books(v) && OnDisk(v, order[1..]) && NoneLive(v, order[1..])
  {
    hide Books, AddLive;
    AddKeeps(w, order[0], l);
  }

  // ---- what holds between the steps of a request ----

  /** The live table is in line with the disk, but for the host keys of the envs `stale`. */
  ghost predicate Served(w: World, stale: set<Name>) {
    && Books(w)
    && CacheTrusted(w.disk, w.tofu, w.cache)
    && forall n | n in w.live :: LiveAgrees(w, n) && (n !in stale ==> LiveTrusted(w, n))
  }

  /** Every session of an env that stays live keeps its snapshot and its tunnel. */
  ghost predicate SessionsKept(w: World, v: World) {
    forall n, id | n in w.live && n in v.live && id in w.live[n] ::
      id in v.live[n] && Seen(v.heap, InFlight(id, n)) == Seen(w.heap, InFlight(id, n))
  }

  /** New connections to the env log in to its backend with this password. */
  ghost predicate LogsInWith(w: World, n: Name, password: string) {
    var v := PublishedView(w, n);
    n in w.live && v.Some? && v.value.data.password == password
  }

  ghost function IdleSecs(w: World, n: Name): Option<nat> {
    if PublishedView(w, n).Some? then Some(PublishedView(w, n).value.data.idleSecs) else None
  }

  /** The env's backend connections are reaped by the timeout on disk. */
  ghost predicate IdlesAsOnDisk(w: World, n: Name) {
    n in w.disk.envs && IdleSecs(w, n) == Some(w.disk.envs[n].pool.idleSecs)
  }

  /** Every live env has the timeout it had, or the one on disk. */
  ghost predicate IdleKept(w: World, v: World) {
    forall n | n in v.live :: (n in w.live && IdleSecs(v, n) == IdleSecs(w, n)) || IdlesAsOnDisk(v, n)
  }

  /** The env's published snapshot is built from the disk as it is now. */
  ghost predicate UpToDate(w: World, n: Name) {
    && n in w.live && n in w.disk.envs && w.disk.envs[n].credential in w.disk.credentials
    && LiveAgrees(w, n) && LiveTrusted(w, n) && IdlesAsOnDisk(w, n)
    && LogsInWith(w, n, w.disk.credentials[w.disk.envs[n].credential].password)
  }

  lemma RebuildServes(w: World, n: Name, l: Luck, stale: set<Name>)
    requires Served(w, stale) && n in w.disk.envs
    ensures var (v, ok) := Rebuild(w, n, l);
      && Served(v, if ok then stale - {n} else stale) && SessionsKept(w, v)
      && v == w.(heap := v.heap, cache := v.cache)
      && (ok ==> UpToDate(v, n))
      && (forall m | m in w.live && (!ok || m != n) :: PublishedView(v, m) == PublishedView(w, m))
  {
    hide Good, Seen, Rebuild, CacheTrusted, Agrees, Trusted;
    RebuildKeeps(w, n, l);
  }

  lemma RmServes(w: World, n: Name, stale: set<Name>)
    requires Served(w, stale)
    ensures var v := RmLive(w, n);
      && Served(v, stale - {n}) && SessionsKept(w, v)
      && v == w.(heap := v.heap, live := w.live - {n})
      && (forall m | m in v.live :: PublishedView(v, m) == PublishedView(w, m))
  {
    hide Good, Seen, RmLive, CacheTrusted, Agrees, Trusted;
    RmKeeps(w, n);
  }

  lemma AddServes(w: World, n: Name, l: Luck)
    requires Served(w, {}) && n in w.disk.envs && n !in w.live
    ensures var (v, ok) := AddLive(w, n, l);
      && Served(v, {}) && SessionsKept(w, v)
      && v == w.(heap := v.heap, cache := v.cache, live := if ok then w.live[n := []] else w.live)
      && (ok ==> UpToDate(v, n))
      && (forall m | m in w.live :: PublishedView(v, m) == PublishedView(w, m))
  {
    hide Good, Seen, AddLive, CacheTrusted, Agrees, Trusted;
    AddKeeps(w, n, l);
  }

  /** What re-pinning leaves: all in line with the disk; the affected envs that were live are
      either rebuilt on a host key the new pin accepts, or offline and reported. */
  ghost predicate RepinDone(w: World, v: World, order: seq<Name>, stopped: seq<Name>) {
    && Served(v, {}) && SessionsKept(w, v)
    && v == w.(heap := v.heap, cache := v.cache, live := v.live)
    && (forall n :: n in v.live <==> n in w.live && n !in stopped)
    && (forall n | n in stopped :: n in order && n in w.live)
    && (forall n | n in order && n in v.live :: UpToDate(v, n))
    && (forall n | n in v.live && n !in order :: PublishedView(v, n) == PublishedView(w, n))
  }

  lemma {:induction false} RepinKeeps(w: World, order: seq<Name>, luck: Name -> Luck)
    requires OnDisk(w, order) && Lists(order, Names(order))
    requires Served(w, Names(order))
    ensures var (v, stopped) := RepinAll(w, order, luck); RepinDone(w, v, order, stopped)
    decreases |order|
  {
    hide Books, Seen, CacheTrusted, LiveAgrees, LiveTrusted, Rebuild, RmLive, RepinDone, UpToDate;
    if |order| == 0 {
      RepinNone(w);
    } else {
      var n, rest := order[0], order[1..];
      var stale := Names(order);
      assert Names(rest) == stale - {n};
      if n !in w.live {
        RepinKeeps(w, rest, luck);
        var (u, stopped) := RepinAll(w, rest, luck);
        RepinPassed(w, u, order, stopped);
      } else {
        RebuildServes(w, n, luck(n), stale);
        var (v, ok) := Rebuild(w, n, luck(n));
        if ok {
          RepinKeeps(v, rest, luck);
          var (u, stopped) := RepinAll(v, rest, luck);
          RepinRebuilt(w, v, u, order, stopped);
        } else {
          RmServes(v, n, stale);
          RepinKeeps(RmLive(v, n), rest, luck);
          var (u, stopped) := RepinAll(RmLive(v, n), rest, luck);
          RepinStopped(w, v, RmLive(v, n), u, order, stopped);
        }
      }
    }
  }

  lemma RepinNone(w: World)
    requires Served(w, Names([]))
    ensures RepinDone(w, w, [], [])
  {
  }

  lemma RepinPassed(w: World, u: World, order: seq<Name>, stopped: seq<Name>)
    requires |order| > 0 && order[0] !in w.live && RepinDone(w, u, order[1..], stopped)
    ensures RepinDone(w, u, order, stopped)
  {
    hide Served, SessionsKept, UpToDate, Seen;
  }

  lemma RepinRebuilt(w: World, v: World, u: World, order: seq<Name>, stopped: seq<Name>)
    requires |order| > 0 && Lists(order, Names(order)) && order[0] in w.live && RepinDone(v, u, order[1..], stopped)
    requires v == w.(heap := v.heap, cache := v.cache) && SessionsKept(w, v) && UpToDate(v, order[0])
    requires forall m | m in w.live && m != order[0] :: PublishedView(v, m) == PublishedView(w, m)
    ensures RepinDone(w, u, order, stopped)
  {
    hide Books, CacheTrusted, LiveAgrees, LiveTrusted, Seen;
  }

  lemma RepinStopped(w: World, v: World, x: World, u: World, order: seq<Name>, stopped: seq<Name>)
    requires |order| > 0 && Lists(order, Names(order)) && order[0] in w.live && RepinDone(x, u, order[1..], stopped)
    requires v == w.(heap := v.heap, cache := v.cache) && SessionsKept(w, v)
    requires x == v.(heap := x.heap, live := v.live - {order[0]}) && SessionsKept(v, x)
    requires forall m | m in w.live :: PublishedView(v, m) == PublishedView(w, m)
    requires forall m | m in x.live :: PublishedView(x, m) == PublishedView(v, m)
    ensures RepinDone(w, u, order, [order[0]] + stopped)
  {
    hide Served, UpToDate, Seen;
  }

  /** Some env up to the `i`th has a chance to open the session, and takes it. */
  ghost predicate OpenedBy(w: World, b: Name, order: seq<Name>, i: nat, luck: Name -> Luck) {
    exists j | 0 <= j <= i < |order| :: order[j] in w.live && Opens(w, b, luck(order[j]))
  }

  /** Exactly which envs a re-pin takes offline: the live ones that fail at their own forward or
      pool, and those visited before any of them has got a session the new pins accept. */
  lemma {:induction false} RepinExact(w: World, b: Name, order: seq<Name>, luck: Name -> Luck)
    requires Valid(w.disk) && Served(w, Names(order)) && Lists(order, Names(order))
    requires forall n | n in order :: n in w.disk.envs && w.disk.envs[n].bastion == Some(b)
    ensures OnDisk(w, order)
    ensures forall i | 0 <= i < |order| :: order[i] in RepinAll(w, order, luck).1 <==>
      && order[i] in w.live
      && !(luck(order[i]).forwards && luck(order[i]).builds && (Cached(w, b) || OpenedBy(w, b, order, i, luck)))
    decreases |order|
  {
    hide Books, Seen, CacheTrusted, LiveTrusted, Rebuild, RmLive, Opens, Valid, Agrees;
    assert forall i | 0 <= i < |order| :: order[i] in order;
    if |order| > 0 {
      var n, rest := order[0], order[1..];
      assert Names(rest) == Names(order) - {n};
      if n !in w.live {
        RepinExact(w, b, rest, luck);
        Shifted(w, w, b, order, luck);
        RepinStops(w, rest, luck);
      } else {
        RepinHead(w, b, n, luck(n));
        RebuildServes(w, n, luck(n), Names(order));
        var (v, ok) := Rebuild(w, n, luck(n));
        var u := if ok then v else RmLive(v, n);
        if !ok {
          RmServes(v, n, Names(order));
        }
        RepinExact(u, b, rest, luck);
        Shifted(w, u, b, order, luck);
        RepinStops(u, rest, luck);
      }
    }
  }

  lemma RepinHead(w: World, b: Name, n: Name, l: Luck)
    requires Valid(w.disk) && Books(w) && n in w.live && LiveAgrees(w, n) && n in w.disk.envs
    requires w.disk.envs[n].bastion == Some(b)
    ensures Rebuild(w, n, l).1 <==> l.forwards && l.builds && (Cached(w, b) || Opens(w, b, l))
    ensures Cached(Rebuild(w, n, l).0, b) <==> Cached(w, b) || Opens(w, b, l)
    ensures Rebuild(w, n, l).0.disk == w.disk && Rebuild(w, n, l).0.tofu == w.tofu
  {
    hide Books, Opens, Rebuild;
    RebuildExact(w, n, l);
    RebuildKeeps(w, n, l);
  }

  /** Only envs still to be visited are stopped. */
  lemma RepinStops(w: World, order: seq<Name>, luck: Name -> Luck)
    requires OnDisk(w, order) && Lists(order, Names(order)) && Served(w, Names(order))
    ensures forall n | n in RepinAll(w, order, luck).1 :: n in order && n in w.live
  {
    hide Books, Served, RepinAll;
    RepinKeeps(w, order, luck);
  }

  /** What the first env opened, later ones find. */
  lemma Shifted(w: World, u: World, b: Name, order: seq<Name>, luck: Name -> Luck)
    requires |order| > 0 && Lists(order, Names(order))
    requires u.disk == w.disk && u.tofu == w.tofu
    requires forall n | n in order[1..] :: n in u.live <==> n in w.live
    requires Cached(u, b) <==> Cached(w, b) || (order[0] in w.live && Opens(w, b, luck(order[0])))
    ensures forall i | 1 <= i < |order| ::
      (Cached(u, b) || OpenedBy(u, b, order[1..], i - 1, luck)) <==> (Cached(w, b) || OpenedBy(w, b, order, i, luck))
  {
    hide Opens, Cached;
    var rest := order[1..];
    forall i | 1 <= i < |order|
      ensures (Cached(u, b) || OpenedBy(u, b, rest, i - 1, luck)) <==> (Cached(w, b) || OpenedBy(w, b, order, i, luck))
    {
      SameOpens(w, u, b);
      if OpenedBy(u, b, rest, i - 1, luck) {
        var j :| 0 <= j <= i - 1 && rest[j] in u.live && Opens(u, b, luck(rest[j]));
        assert order[j + 1] == rest[j];
      }
      if OpenedBy(w, b, order, i, luck) {
        var j :| 0 <= j <= i && order[j] in w.live && Opens(w, b, luck(order[j]));
        if j > 0 {
          assert rest[j - 1] == order[j] && order[j] in rest;
        }
      }
    }
  }

  lemma SameOpens(w: World, u: World, b: Name)
    requires u.disk == w.disk && u.tofu == w.tofu
    ensures forall l :: Opens(u, b, l) <==> Opens(w, b, l)
  {
  }

  /** What a rotation leaves: the first `k` affected envs rebuilt with the credential on disk,
      every other env untouched. */
  ghost predicate RotateDone(w: World, v: World, order: seq<Name>, k: nat) {
    && Served(v, {}) && SessionsKept(w, v)
    && v == w.(heap := v.heap, cache := v.cache)
    && k <= |order|
    && (forall j | 0 <= j < k :: UpToDate(v, order[j]))
    && (forall n | n in w.live && n !in order[..k] :: PublishedView(v, n) == PublishedView(w, n))
  }

  lemma {:induction false} RotateKeeps(w: World, order: seq<Name>, luck: Name -> Luck)
    requires OnDisk(w, order) && Lists(order, Names(order)) && Served(w, {})
    ensures var (v, k) := RotateAll(w, order, luck); RotateDone(w, v, order, k)
    decreases |order|
  {
    hide Books, Seen, CacheTrusted, LiveAgrees, LiveTrusted, Rebuild;
    if |order| > 0 {
      RebuildServes(w, order[0], luck(order[0]), {});
      var (v, ok) := Rebuild(w, order[0], luck(order[0]));
      if ok {
        RotateKeeps(v, order[1..], luck);
        var (u, k) := RotateAll(v, order[1..], luck);
        assert order[..k + 1] == [order[0]] + order[1..][..k];
      }
    }
  }

  /** What bringing new envs up leaves: the first `k` of them live as the disk says. */
  ghost predicate AddAllDone(w: World, v: World, order: seq<Name>, k: nat) {
    && Served(v, {}) && SessionsKept(w, v)
    && v == w.(heap := v.heap, cache := v.cache, live := v.live)
    && k <= |order|
    && (forall n :: n in v.live <==> n in w.live || n in order[..k])
    && (forall j | 0 <= j < k :: UpToDate(v, order[j]))
    && (forall n | n in w.live :: PublishedView(v, n) == PublishedView(w, n))
  }

  lemma {:induction false} AddAllKeeps(w: World, order: seq<Name>, luck: Name -> Luck)
    requires OnDisk(w, order) && NoneLive(w, order) && Served(w, {})
    ensures var (v, k) := AddAll(w, order, luck); AddAllDone(w, v, order, k)
    decreases |order|
  {
    hide Books, Seen, CacheTrusted, LiveAgrees, LiveTrusted, AddLive, AddAllDone, OnDisk, NoneLive;
    if |order| == 0 {
      NothingAdded(w);
    } else {
      FirstNew(w, order, luck(order[0]));
      AddServes(w, order[0], luck(order[0]));
      var (v, ok) := AddLive(w, order[0], luck(order[0]));
      if ok {
        AddAllKeeps(v, order[1..], luck);
        var (u, k) := AddAll(v, order[1..], luck);
        AddedThen(w, v, u, order, k);
      } else {
        AddedNone(w, v, order);
      }
    }
  }

  lemma NothingAdded(w: World)
    requires Served(w, {})
    ensures AddAllDone(w, w, [], 0)
  {
  }

  lemma AddedNone(w: World, v: World, order: seq<Name>)
    requires Served(v, {}) && SessionsKept(w, v) && v == w.(heap := v.heap, cache := v.cache)
    requires forall m | m in w.live :: PublishedView(v, m) == PublishedView(w, m)
    ensures AddAllDone(w, v, order, 0)
  {
    hide Served, Seen;
  }

  lemma AddedThen(w: World, v: World, u: World, order: seq<Name>, k: nat)
    requires |order| > 0 && AddAllDone(v, u, order[1..], k)
    requires SessionsKept(w, v) && UpToDate(v, order[0])
    requires order[0] !in w.live && v == w.(heap := v.heap, cache := v.cache, live := w.live[order[0] := []])
    requires forall m | m in w.live :: PublishedView(v, m) == PublishedView(w, m)
    ensures AddAllDone(w, u, order, k + 1)
  {
    hide Books, Seen, CacheTrusted, LiveAgrees, LiveTrusted;
    assert order[..k + 1] == [order[0]] + order[1..][..k];
  }

  // ---- exactly where a rotation or an import stops ----

  lemma StillCannot(w: World, v: World, n: Name, l: Luck)
    requires n in w.disk.envs && v.disk == w.disk && v.tofu == w.tofu
    requires forall b :: Cached(v, b) <==> Cached(w, b) || (w.disk.envs[n].bastion == Some(b) && Opens(w, b, l))
    ensures CanBuild(v, n, l) <==> CanBuild(w, n, l)
  {
  }

  /** A rotation stops at an env that is not live or whose backend cannot be built. */
  lemma {:induction false} RotateStops(w: World, order: seq<Name>, luck: Name -> Luck)
    requires Valid(w.disk) && Books(w) && OnDisk(w, order)
    ensures var (v, k) := RotateAll(w, order, luck);
      k < |order| ==> order[k] in v.disk.envs && !(order[k] in v.live && CanBuild(v, order[k], luck(order[k])))
    decreases |order|
  {
    hide Books, Rebuild, CanBuild, Cached, Opens;
    if |order| > 0 {
      var n := order[0];
      RebuildKeeps(w, n, luck(n));
      RebuildExact(w, n, luck(n));
      var (v, ok) := Rebuild(w, n, luck(n));
      if ok {
        RotateStops(v, order[1..], luck);
      } else {
        StillCannot(w, v, n, luck(n));
      }
    }
  }

  /** Adding an env succeeds exactly when its backend can be built and its port bound. */
  lemma AddExact(w: World, n: Name, l: Luck)
    requires Valid(w.disk) && Books(w) && n in w.disk.envs
    ensures var (v, ok) := AddLive(w, n, l);
      && (ok <==> CanBuild(w, n, l) && l.binds)
      && n in v.disk.envs && (CanBuild(v, n, l) <==> CanBuild(w, n, l))
  {
    hide Good, Build, CanBuild, Cached, Opens, Drop, Move;
    BuildKeeps(w, n, l);
    BuildExact(w, n, l);
    StillCannot(w, Build(w, n, l).0, n, l);
    var (v, ok) := AddLive(w, n, l);
    SameChance(Build(w, n, l).0, v, n, l);
  }

  lemma SameChance(w: World, v: World, n: Name, l: Luck)
    requires n in w.disk.envs && v == w.(heap := v.heap, live := v.live)
    ensures CanBuild(v, n, l) <==> CanBuild(w, n, l)
  {
  }

  /** An import stops at an env whose backend cannot be built or whose port cannot be bound. */
  lemma {:induction false} AddAllStops(w: World, order: seq<Name>, luck: Name -> Luck)
    requires Valid(w.disk) && Books(w) && OnDisk(w, order) && NoneLive(w, order)
    ensures var (v, k) := AddAll(w, order, luck);
      k < |order| ==> order[k] in v.disk.envs && !(CanBuild(v, order[k], luck(order[k])) && luck(order[k]).binds)
    decreases |order|
  {
    hide Books, AddLive, CanBuild, OnDisk, NoneLive;
    if |order| > 0 {
      FirstNew(w, order, luck(order[0]));
      AddExact(w, order[0], luck(order[0]));
      var (v, ok) := AddLive(w, order[0], luck(order[0]));
      if ok {
        AddAllStops(v, order[1..], luck);
      }
    }
  }

  // ---- one step ----

  /** The saved configuration, and the cached session of the bastion it changes forgotten. */
  function Persist(w: World, d: Config, change: Change): World {
    w.(disk := d, cache := match change
                           case SetFingerprint(b, _) => w.cache - {b}
                           case RmBastion(b) => w.cache - {b}
                           case _ => w.cache)
  }

  function CurrentData(w: World, n: Name): Snapshot
    requires Books(w) && n in w.live
  {
    w.heap.runtimes[w.heap.held[Published(n)]].data
  }

  /** The snapshot a grant or a policy change publishes for the env it names. */
  function Rewritten(w: World, change: Change): Snapshot
    requires Books(w) && (change.Grant? || change.SetPolicy?) && change.name in w.live && change.name in w.disk.envs
  {
    var e := w.disk.envs[change.name];
    if change.Grant? then CurrentData(w, change.name).(auth := e.auth) else CurrentData(w, change.name).(policy := e.policy)
  }

  /** Bring the live table into line after a save. */
  function Bring(w: World, change: Change, order: seq<Name>, luck: Name -> Luck): (World, Response)
    requires Books(w) && OnDisk(w, order)
    requires change.Import? ==> NoneLive(w, order)
    requires change.AddEnv? ==> change.args.name in w.disk.envs
    requires change.Grant? || change.SetPolicy? ==> change.name in w.disk.envs
  {
    hide Books;
    match change
    case SetFingerprint(_, _) =>
      var (v, stopped) := RepinAll(w, order, luck);
      (v, if |stopped| == 0 then Done else Stopped(stopped))
    case RotateCred(_, _) =>
      var (v, k) := RotateAll(w, order, luck);
      (v, if k < |order| then NotApplied(order[k]) else Done)
    case AddEnv(a, _) =>
      var (v, ok) := AddLive(w, a.name, luck(a.name));
      (v, if ok then Token else TokenButNotLive)
    case RmEnv(n) => (RmLive(w, n), Done)
    case Grant(n, _) =>
      if n in w.live then (Swap(w, n, Rewritten(w, change)), Token) else (w, TokenButNotLive)
    case SetPolicy(n, _) =>
      if n in w.live then (Swap(w, n, Rewritten(w, change)), Done) else (w, NotApplied(n))
    case Import(_) =>
      var (v, k) := AddAll(w, order, luck);
      (v, if k < |order| then NotApplied(order[k]) else Done)
    case _ => (w, Done)
  }

  /** The invariant of the daemon. */
  ghost predicate Inv(w: World) {
    Valid(w.disk) && Served(w, {})
  }

  // ---- a save keeps what it does not touch ----

  /** The change is to what this env's snapshot copies from its entry. */
  predicate Rewrites(change: Change, n: Name) {
    (change.Grant? || change.SetPolicy?) && change.name == n
  }

  /** The change is to the pins of this env's bastion. */
  predicate Repins(c: Config, change: Change, n: Name) {
    change.SetFingerprint? && n in AffectedBy(c, change)
  }

  /** What an env's snapshot is owed survives any change that does not name the env. */
  lemma EnvCarries(c: Config, h: Hashes, change: Change, tofu: bool, idleFlag: Option<nat>, n: Name, v: View)
    requires Apply(c, h, change).Ok? && Agrees(c, idleFlag, n, v) && n in Apply(c, h, change).value.envs
    ensures !Rewrites(change, n) ==> Agrees(Apply(c, h, change).value, idleFlag, n, v)
    ensures ThroughBastion(v.forward, Apply(c, h, change).value.envs[n].bastion)
    ensures Trusted(c, tofu, v.forward) && !(change.SetFingerprint? && c.envs[n].bastion == Some(change.name)) ==>
      Trusted(Apply(c, h, change).value, tofu, v.forward)
  {
    EnvsStayPut(c, h, change, n);
    if change.Import? && v.forward.Some? && v.forward.value.bastion in c.bastions {
      assert v.forward.value.bastion !in change.fragment.bastions.Keys * c.bastions.Keys;
    }
  }

  lemma CacheCarries(w: World, h: Hashes, change: Change)
    requires Apply(w.disk, h, change).Ok? && CacheTrusted(w.disk, w.tofu, w.cache)
    ensures var d := Apply(w.disk, h, change).value; CacheTrusted(d, w.tofu, Persist(w, d, change).cache)
  {
    var d := Apply(w.disk, h, change).value;
    forall b | b in Persist(w, d, change).cache
      ensures b in w.disk.bastions && b in d.bastions && d.bastions[b] == w.disk.bastions[b]
    {
      if change.Import? {
        assert b !in change.fragment.bastions.Keys * w.disk.bastions.Keys;
      }
    }
  }

  /** After the save and before the live table follows. */
  lemma SaveKeeps(w: World, h: Hashes, change: Change)
    requires Inv(w) && Apply(w.disk, h, change).Ok?
    ensures var v := Persist(w, Apply(w.disk, h, change).value, change);
      && Books(v) && CacheTrusted(v.disk, v.tofu, v.cache)
      && forall n | n in v.live ::
        && PublishedView(v, n) == PublishedView(w, n)
        && (n in v.disk.envs <==> change != RmEnv(n))
        && (n in v.disk.envs && !Rewrites(change, n) ==> LiveAgrees(v, n))
        && (n in v.disk.envs && !Repins(v.disk, change, n) ==> LiveTrusted(v, n))
  {
    hide Good, Seen, Apply, CacheTrusted;
    CacheCarries(w, h, change);
    var d := Apply(w.disk, h, change).value;
    EnvNames(w.disk, h, change);
    forall n | n in w.live && n in d.envs
      ensures var v := Persist(w, d, change);
        && (!Rewrites(change, n) ==> LiveAgrees(v, n))
        && (!Repins(d, change, n) ==> LiveTrusted(v, n))
    {
      EnvsStayPut(w.disk, h, change, n);
      EnvCarries(w.disk, h, change, w.tofu, w.idleFlag, n, PublishedView(w, n).value);
    }
  }

  lemma RewrittenAgrees(w: World, h: Hashes, change: Change)
    requires Inv(w) && Apply(w.disk, h, change).Ok? && (change.Grant? || change.SetPolicy?) && change.name in w.live
    ensures var v := Persist(w, Apply(w.disk, h, change).value, change);
      && Books(v) && change.name in v.disk.envs && PublishedView(v, change.name).Some?
      && Agrees(v.disk, v.idleFlag, change.name, PublishedView(v, change.name).value.(data := Rewritten(v, change)))
  {
    hide Good, Apply, CacheTrusted, LiveTrusted, CurrentData;
    EntryRewritten(w.disk, h, change);
    EnvsStayPut(w.disk, h, change, change.name);
    assert LiveAgrees(w, change.name);
    var v := Persist(w, Apply(w.disk, h, change).value, change);
    assert Books(v);
    DataSeen(v, change.name);
    assert PublishedView(v, change.name) == PublishedView(w, change.name);
  }

  lemma EntryRewritten(c: Config, h: Hashes, change: Change)
    requires Apply(c, h, change).Ok? && (change.Grant? || change.SetPolicy?)
    ensures var d := Apply(c, h, change).value;
      change.name in c.envs && change.name in d.envs
  {
  }

  lemma DataSeen(w: World, n: Name)
    requires Books(w) && n in w.live
    ensures PublishedView(w, n).Some? && PublishedView(w, n).value.data == CurrentData(w, n)
  {
  }

  lemma SwapServes(w: World, n: Name, data: Snapshot)
    requires Books(w) && CacheTrusted(w.disk, w.tofu, w.cache) && n in w.live
    requires forall m | m in w.live :: (m != n ==> LiveAgrees(w, m)) && LiveTrusted(w, m)
    requires Agrees(w.disk, w.idleFlag, n, PublishedView(w, n).value.(data := data))
    ensures var v := Swap(w, n, data);
      && Served(v, {}) && SessionsKept(w, v)
      && v == w.(heap := v.heap)
      && (forall m | m in w.live && m != n :: PublishedView(v, m) == PublishedView(w, m))
      && PublishedView(v, n) == Recast(PublishedView(w, n), data)
  {
    hide Good, Seen, Swap, CacheTrusted, Agrees, Trusted;
    SwapKeeps(w, n, data);
  }

  // ---- every step ----

  ghost predicate Ready(w: World, change: Change, order: seq<Name>) {
    && Books(w) && OnDisk(w, order)
    && (change.Import? ==> NoneLive(w, order))
    && (change.AddEnv? ==> change.args.name in w.disk.envs)
    && (change.Grant? || change.SetPolicy? ==> change.name in w.disk.envs)
  }

  lemma SaveMakesReady(w: World, h: Hashes, change: Change, order: seq<Name>)
    requires Inv(w) && Apply(w.disk, h, change).Ok?
    requires Lists(order, AffectedBy(Apply(w.disk, h, change).value, change))
    ensures var v := Persist(w, Apply(w.disk, h, change).value, change);
      Ready(v, change, order) && (change.AddEnv? ==> change.args.name !in v.live)
  {
    hide Good, Seen, Apply, CacheTrusted, LiveTrusted;
    EnvNames(w.disk, h, change);
    NewNames(w.disk, h, change);
    var d := Apply(w.disk, h, change).value;
    assert Books(Persist(w, d, change));
    forall i | 0 <= i < |order|
      ensures order[i] in d.envs && (change.Import? ==> order[i] in change.fragment.envs)
    {
      assert order[i] in order;
      assert order[i] in AffectedBy(d, change);
    }
    assert forall n | n in w.live :: LiveAgrees(w, n);
  }

  /** A name that a change brings was not in use; a name it edits was. */
  lemma NewNames(c: Config, h: Hashes, change: Change)
    requires Apply(c, h, change).Ok?
    ensures change.AddEnv? ==> change.args.name !in c.envs
    ensures change.Import? ==> forall n | n in change.fragment.envs :: n !in c.envs
    ensures change.Grant? || change.SetPolicy? ==> change.name in c.envs
  {
    if change.Import? {
      assert forall n | n in change.fragment.envs :: n !in change.fragment.envs.Keys * c.envs.Keys;
    }
  }

  /** One event: the state it leaves and, for a request, the answer. */
  ghost function Step(w: World, h: Hashes, e: Event): (World, Response)
    requires Inv(w) && Orderly(w, h, e)
  {
    hide Books, OnDisk, NoneLive;
    match e
    case Connect(n) => (if n in w.live then Open(w, n) else w, Done)
    case Leave(n, i) => (if n in w.live && i < |w.live[n]| then Close(w, n, i) else w, Done)
    case Ask(change, confirmed, saved, order, luck) =>
      if change.SetPolicy? && change.readWrite && !confirmed then (w, Denied)
      else
        match Save(w, h, change, saved)
        case None => (w, Refused)
        case Some(d) =>
          SaveMakesReady(w, h, change, order);
          Bring(Persist(w, d, change), change, order, luck)
  }

  lemma OpenServes(w: World, n: Name)
    requires Served(w, {}) && n in w.live
    ensures Served(Open(w, n), {}) && SessionsKept(w, Open(w, n)) && IdleKept(w, Open(w, n))
  {
    hide Good, Seen, Open, CacheTrusted, Agrees, Trusted;
    OpenKeeps(w, n);
    OpenFields(w, n);
  }

  lemma OpenFields(w: World, n: Name)
    requires Books(w) && n in w.live
    ensures var v := Open(w, n);
      v == w.(heap := v.heap, nextId := v.nextId, live := w.live[n := w.live[n] + [w.nextId]])
  {
  }

  /** Every session of an env that stays live, but the `i`th of `n`, keeps its snapshot. */
  ghost predicate OthersKept(w: World, v: World, n: Name, i: nat) {
    forall m, id | m in w.live && m in v.live && id in w.live[m] ::
      || (m == n && i < |w.live[n]| && id == w.live[n][i])
      || (id in v.live[m] && Seen(v.heap, InFlight(id, m)) == Seen(w.heap, InFlight(id, m)))
  }

  lemma CloseServes(w: World, n: Name, i: nat)
    requires Served(w, {}) && n in w.live && i < |w.live[n]|
    ensures Served(Close(w, n, i), {}) && OthersKept(w, Close(w, n, i), n, i) && IdleKept(w, Close(w, n, i))
  {
    hide Good, Seen, Close, CacheTrusted, Agrees, Trusted;
    CloseKeeps(w, n, i);
    CloseFields(w, n, i);
    WithoutOne(w.live[n], i);
  }

  lemma CloseFields(w: World, n: Name, i: nat)
    requires Books(w) && n in w.live && i < |w.live[n]|
    ensures var v := Close(w, n, i);
      v == w.(heap := v.heap, live := w.live[n := w.live[n][..i] + w.live[n][i + 1..]])
  {
  }

  // ---- what a request achieves ----

  /** The save and the state it leaves, for a request that gets that far. */
  ghost predicate Saves(w: World, h: Hashes, e: Event) {
    && e.Ask? && !(e.change.SetPolicy? && e.change.readWrite && !e.confirmed)
    && Save(w, h, e.change, e.saved).Some?
  }

  ghost function Saved(w: World, h: Hashes, e: Event): World
    requires Saves(w, h, e)
  {
    Persist(w, Save(w, h, e.change, e.saved).value, e.change)
  }

  function Offline(answer: Response): seq<Name> {
    if answer.Stopped? then answer.envs else []
  }

  lemma ForwardFits(w: World, n: Name)
    requires Served(w, {}) && n in w.live
    ensures n in w.disk.envs && PublishedView(w, n).Some?
    ensures ThroughBastion(PublishedView(w, n).value.forward, w.disk.envs[n].bastion)
    ensures Trusted(w.disk, w.tofu, PublishedView(w, n).value.forward)
  {
    assert LiveAgrees(w, n) && LiveTrusted(w, n);
  }

  lemma RepinStep(w: World, h: Hashes, e: Event)
    requires Inv(w) && Orderly(w, h, e) && Saves(w, h, e) && e.change.SetFingerprint?
    ensures var (v, answer) := Step(w, h, e);
      && RepinDone(Saved(w, h, e), v, e.order, Offline(answer))
      && (answer == Done || answer == Stopped(Offline(answer)))
  {
    hide Books, CacheTrusted, LiveAgrees, LiveTrusted, RepinAll, RepinDone;
    var v := Saved(w, h, e);
    SaveKeeps(w, h, e.change);
    SaveMakesReady(w, h, e.change, e.order);
    assert Names(e.order) == AffectedBy(v.disk, e.change);
    RepinKeeps(v, e.order, e.luck);
  }

  ghost predicate Behind(w: World, n: Name, b: Name) {
    n in w.disk.envs && w.disk.envs[n].bastion == Some(b)
  }

  /** New connections to the env go through a session that presented this host key. */
  ghost predicate DialsBy(w: World, n: Name, key: Fingerprint) {
    var v := PublishedView(w, n);
    v.Some? && v.value.forward.Some? && v.value.forward.value.key == key
  }

  /** Re-pinning a bastion fails closed. Afterwards every live env behind it dials through a
      session that presented the new key; an env that was live and could not be rebuilt is
      offline and named in the answer, and nothing else leaves the table. */
  lemma RepinFailsClosed(w: World, h: Hashes, e: Event)
    requires Inv(w) && Orderly(w, h, e) && Saves(w, h, e) && e.change.SetFingerprint?
    ensures var (v, answer) := Step(w, h, e);
      && (forall n :: n in v.live <==> n in w.live && n !in Offline(answer))
      && (forall n | n in Offline(answer) :: n in w.live && Behind(v, n, e.change.name))
      && (forall n | n in v.live && Behind(v, n, e.change.name) :: DialsBy(v, n, e.change.pin))
  {
    hide Step, Books, CacheTrusted, LiveAgrees, LiveTrusted, UpToDate, SessionsKept;
    RepinStep(w, h, e);
    var (v, answer) := Step(w, h, e);
    forall n | n in Offline(answer)
      ensures n in w.live && Behind(v, n, e.change.name)
    {
      assert n in AffectedBy(v.disk, e.change);
    }
    forall n | n in v.live && Behind(v, n, e.change.name)
      ensures DialsBy(v, n, e.change.pin)
    {
      ForwardFits(v, n);
    }
  }

  /** Exactly which envs the answer names: those that were live and failed at their own forward
      or pool, or came up before any of them had met the bastion with the pinned key. */
  lemma RepinOfflineExact(w: World, h: Hashes, e: Event, i: nat)
    requires Inv(w) && Orderly(w, h, e) && Saves(w, h, e) && e.change.SetFingerprint? && i < |e.order|
    ensures var n := e.order[i];
      n in Offline(Step(w, h, e).1) <==>
        && n in w.live
        && !(e.luck(n).forwards && e.luck(n).builds && OpenedBy(Saved(w, h, e), e.change.name, e.order, i, e.luck))
    ensures forall l :: Opens(Saved(w, h, e), e.change.name, l) ==> l.key == e.change.pin
  {
    hide Books, CacheTrusted, LiveAgrees, LiveTrusted, RepinAll, OpenedBy;
    var v := Saved(w, h, e);
    SaveKeeps(w, h, e.change);
    SaveMakesReady(w, h, e.change, e.order);
    assert Names(e.order) == AffectedBy(v.disk, e.change);
    RepinExact(v, e.change.name, e.order, e.luck);
  }

  /** How far a rotation got, and the answer it gives. */
  lemma RotationStep(w: World, h: Hashes, e: Event) returns (k: nat)
    requires Inv(w) && Orderly(w, h, e) && Saves(w, h, e) && e.change.RotateCred?
    ensures var (v, answer) := Step(w, h, e);
      && RotateDone(Saved(w, h, e), v, e.order, k)
      && answer == (if k == |e.order| then Done else NotApplied(e.order[k]))
      && (k < |e.order| ==> Unreachable(v, e.order[k], e.luck(e.order[k])))
  {
    hide Books, CacheTrusted, LiveAgrees, LiveTrusted, RotateAll, CanBuild;
    var v := Saved(w, h, e);
    SaveKeeps(w, h, e.change);
    SaveMakesReady(w, h, e.change, e.order);
    RotateStops(v, e.order, e.luck);
    RotateKeeps(v, e.order, e.luck);
    k := RotateAll(v, e.order, e.luck).1;
  }

  /** The env is not live, or its backend cannot be built. */
  ghost predicate Unreachable(w: World, n: Name, l: Luck) {
    n in w.disk.envs && !(n in w.live && CanBuild(w, n, l))
  }

  /** A rotation answers `Done` only when every env on disk that uses the credential is live
      with the new password. Any other answer names an env the rotation did not reach: its
      snapshot, and that of every env after it, is the one from before. */
  lemma RotationAnswer(w: World, h: Hashes, e: Event)
    requires Inv(w) && Orderly(w, h, e) && Saves(w, h, e) && e.change.RotateCred?
    ensures var (v, answer) := Step(w, h, e);
      answer == Done ==> forall n | n in v.disk.envs && v.disk.envs[n].credential == e.change.name ::
        LogsInWith(v, n, e.change.password)
    ensures var (v, answer) := Step(w, h, e);
      answer != Done ==> answer.NotApplied? && exists k: nat | k < |e.order| ::
        e.order[k] == answer.env && RotateDone(Saved(w, h, e), v, e.order, k)
        && Unreachable(v, e.order[k], e.luck(e.order[k]))
  {
    hide Step, Books, CacheTrusted, LiveAgrees, LiveTrusted, SessionsKept;
    var k := RotationStep(w, h, e);
    var (v, answer) := Step(w, h, e);
    if k == |e.order| {
      forall n | n in v.disk.envs && v.disk.envs[n].credential == e.change.name
        ensures LogsInWith(v, n, e.change.password)
      {
        assert n in AffectedBy(v.disk, e.change);
        assert n in e.order;
      }
    }
  }

  // ---- every run ----

  /** The live table is in line, and what was there is disturbed no more than it must be. */
  ghost predicate BringDone(w: World, u: World, change: Change) {
    && u.disk == w.disk && u.tofu == w.tofu && Served(u, {}) && SessionsKept(w, u) && IdleKept(w, u)
    && forall n | n in u.live :: n in w.live || n in Newcomers(change)
  }

  /** The envs a request brings up. */
  function Newcomers(change: Change): set<Name> {
    match change
    case AddEnv(args, _) => {args.name}
    case Import(f) => f.envs.Keys
    case _ => {}
  }

  /** Bringing the live table in line does so, whatever fails on the way. */
  lemma BringKeeps(w: World, h: Hashes, change: Change, order: seq<Name>, luck: Name -> Luck)
    requires Inv(w) && Apply(w.disk, h, change).Ok?
    requires Lists(order, AffectedBy(Apply(w.disk, h, change).value, change))
    ensures var v := Persist(w, Apply(w.disk, h, change).value, change);
      Ready(v, change, order) && BringDone(v, Bring(v, change, order, luck).0, change)
  {
    hide Inv, Books, Served, Apply, Bring, Ready, BringDone, Lists, Persist;
    SaveMakesReady(w, h, change, order);
    match change
    case SetFingerprint(_, _) => RepinBrings(w, h, change, order, luck);
    case RotateCred(_, _) => RotateBrings(w, h, change, order, luck);
    case Import(_) => ImportBrings(w, h, change, order, luck);
    case Grant(_, _) => RewriteBrings(w, h, change, order, luck);
    case SetPolicy(_, _) => RewriteBrings(w, h, change, order, luck);
    case AddEnv(_, _) => AddBrings(w, h, change, order, luck);
    case RmEnv(_) => RemoveBrings(w, h, change, order, luck);
    case _ => PlainBrings(w, h, change, order, luck);
  }

  lemma RepinBrings(w: World, h: Hashes, change: Change, order: seq<Name>, luck: Name -> Luck)
    requires Inv(w) && Apply(w.disk, h, change).Ok? && change.SetFingerprint?
    requires Lists(order, AffectedBy(Apply(w.disk, h, change).value, change))
    requires Ready(Persist(w, Apply(w.disk, h, change).value, change), change, order)
    ensures var v := Persist(w, Apply(w.disk, h, change).value, change); BringDone(v, Bring(v, change, order, luck).0, change)
  {
    hide Books, CacheTrusted, LiveAgrees, LiveTrusted, Apply, RepinAll, Seen;
    var v := Persist(w, Apply(w.disk, h, change).value, change);
    SaveKeeps(w, h, change);
    assert Names(order) == AffectedBy(v.disk, change);
    RepinKeeps(v, order, luck);
  }

  lemma RotateBrings(w: World, h: Hashes, change: Change, order: seq<Name>, luck: Name -> Luck)
    requires Inv(w) && Apply(w.disk, h, change).Ok? && change.RotateCred?
    requires Lists(order, AffectedBy(Apply(w.disk, h, change).value, change))
    requires Ready(Persist(w, Apply(w.disk, h, change).value, change), change, order)
    ensures var v := Persist(w, Apply(w.disk, h, change).value, change); BringDone(v, Bring(v, change, order, luck).0, change)
  {
    hide Books, CacheTrusted, LiveAgrees, LiveTrusted, Apply, RotateAll, Seen;
    var v := Persist(w, Apply(w.disk, h, change).value, change);
    SaveKeeps(w, h, change);
    assert Names(order) == AffectedBy(v.disk, change);
    RotateKeeps(v, order, luck);
    RotatedIdles(v, RotateAll(v, order, luck).0, order, RotateAll(v, order, luck).1);
  }

  lemma RotatedIdles(w: World, v: World, order: seq<Name>, k: nat)
    requires RotateDone(w, v, order, k)
    ensures IdleKept(w, v)
  {
    hide Served, SessionsKept, LiveAgrees, LiveTrusted;
  }

  lemma ImportBrings(w: World, h: Hashes, change: Change, order: seq<Name>, luck: Name -> Luck)
    requires Inv(w) && Apply(w.disk, h, change).Ok? && change.Import?
    requires Lists(order, AffectedBy(Apply(w.disk, h, change).value, change))
    requires Ready(Persist(w, Apply(w.disk, h, change).value, change), change, order)
    ensures var v := Persist(w, Apply(w.disk, h, change).value, change); BringDone(v, Bring(v, change, order, luck).0, change)
  {
    hide Books, CacheTrusted, LiveAgrees, LiveTrusted, Apply, AddAll, Seen;
    SaveKeeps(w, h, change);
    AddAllKeeps(Persist(w, Apply(w.disk, h, change).value, change), order, luck);
    assert forall n, k: nat | k <= |order| && n in order[..k] :: n in order;
  }

  lemma AddBrings(w: World, h: Hashes, change: Change, order: seq<Name>, luck: Name -> Luck)
    requires Inv(w) && Apply(w.disk, h, change).Ok? && change.AddEnv?
    requires Lists(order, AffectedBy(Apply(w.disk, h, change).value, change))
    requires Ready(Persist(w, Apply(w.disk, h, change).value, change), change, order)
    ensures var v := Persist(w, Apply(w.disk, h, change).value, change); BringDone(v, Bring(v, change, order, luck).0, change)
  {
    hide Books, CacheTrusted, LiveAgrees, LiveTrusted, Apply, AddLive, Seen;
    SaveKeeps(w, h, change);
    SaveMakesReady(w, h, change, order);
    AddServes(Persist(w, Apply(w.disk, h, change).value, change), change.args.name, luck(change.args.name));
  }

  lemma RemoveBrings(w: World, h: Hashes, change: Change, order: seq<Name>, luck: Name -> Luck)
    requires Inv(w) && Apply(w.disk, h, change).Ok? && change.RmEnv?
    requires Ready(Persist(w, Apply(w.disk, h, change).value, change), change, order)
    ensures var v := Persist(w, Apply(w.disk, h, change).value, change); BringDone(v, Bring(v, change, order, luck).0, change)
  {
    hide Books, CacheTrusted, LiveAgrees, LiveTrusted, Apply, RmLive, Seen;
    SaveKeeps(w, h, change);
    RemovalServes(Persist(w, Apply(w.disk, h, change).value, change), change.name);
  }

  /** The requests with nothing to bring into line but the disk. */
  lemma PlainBrings(w: World, h: Hashes, change: Change, order: seq<Name>, luck: Name -> Luck)
    requires Inv(w) && Apply(w.disk, h, change).Ok?
    requires change.AddBastion? || change.RmBastion? || change.AddCred? || change.RmCred?
    requires Ready(Persist(w, Apply(w.disk, h, change).value, change), change, order)
    ensures var v := Persist(w, Apply(w.disk, h, change).value, change); BringDone(v, Bring(v, change, order, luck).0, change)
  {
    hide Books, CacheTrusted, LiveAgrees, LiveTrusted, Apply, Seen;
    SaveKeeps(w, h, change);
  }

  lemma RemovalServes(w: World, n: Name)
    requires Books(w) && CacheTrusted(w.disk, w.tofu, w.cache)
    requires forall m | m in w.live && m != n :: LiveAgrees(w, m) && LiveTrusted(w, m)
    ensures var v := RmLive(w, n);
      v == w.(heap := v.heap, live := w.live - {n}) && Served(v, {}) && SessionsKept(w, v) && IdleKept(w, v)
  {
    hide Good, Seen, RmLive, CacheTrusted, Agrees, Trusted;
    RmKeeps(w, n);
  }

  lemma RewriteServes(w: World, h: Hashes, change: Change)
    requires Inv(w) && Apply(w.disk, h, change).Ok? && (change.Grant? || change.SetPolicy?)
    ensures var v := Persist(w, Apply(w.disk, h, change).value, change);
      && Books(v)
      && (change.name in v.live ==>
            && change.name in v.disk.envs
            && var u := Swap(v, change.name, Rewritten(v, change));
            BringDone(v, u, change))
      && (change.name !in v.live ==> BringDone(v, v, change))
  {
    hide Good, Seen, Swap, CacheTrusted, Agrees, Trusted, Rewritten, Apply;
    var v := Persist(w, Apply(w.disk, h, change).value, change);
    SaveKeeps(w, h, change);
    if change.name in v.live {
      RewrittenAgrees(w, h, change);
      SwapServes(v, change.name, Rewritten(v, change));
      RewrittenIdles(v, change);
    }
  }

  lemma RewrittenIdles(w: World, change: Change)
    requires Books(w) && (change.Grant? || change.SetPolicy?) && change.name in w.live && change.name in w.disk.envs
    ensures IdleSecs(w, change.name) == Some(Rewritten(w, change).idleSecs)
  {
    hide Books, CurrentData, Seen;
    DataSeen(w, change.name);
  }

  /** The two requests that publish a copy of the current snapshot. */
  lemma RewriteBrings(w: World, h: Hashes, change: Change, order: seq<Name>, luck: Name -> Luck)
    requires Inv(w) && Apply(w.disk, h, change).Ok? && (change.Grant? || change.SetPolicy?)
    requires Ready(Persist(w, Apply(w.disk, h, change).value, change), change, order)
    ensures var v := Persist(w, Apply(w.disk, h, change).value, change); BringDone(v, Bring(v, change, order, luck).0, change)
  {
    hide Inv, Books, Apply, Swap, Rewritten, BringDone;
    RewriteServes(w, h, change);
  }

  /** The save itself leaves every snapshot alone. */
  lemma AfterPersist(w: World, v: World, u: World, change: Change)
    requires v == w.(disk := v.disk, cache := v.cache) && BringDone(v, u, change)
    ensures SessionsKept(w, u) && IdleKept(w, u)
  {
    hide Served, Seen;
  }

  /** What one event leaves of the sessions: all but the one that ends, as long as their env
      stays live. */
  ghost predicate SessionsSpared(w: World, v: World, e: Event) {
    if e.Leave? then OthersKept(w, v, e.env, e.session) else SessionsKept(w, v)
  }

  /** Every event keeps the invariant. */
  lemma StepKeeps(w: World, h: Hashes, e: Event)
    requires Inv(w) && Orderly(w, h, e)
    ensures var v := Step(w, h, e).0; Inv(v) && SessionsSpared(w, v, e) && IdleKept(w, v) && v.tofu == w.tofu
    ensures forall n | n in Step(w, h, e).0.live :: n in w.live || (Saves(w, h, e) && n in Newcomers(e.change))
  {
    hide Books, CacheTrusted, LiveAgrees, LiveTrusted, Open, Close, Bring, Persist, Apply, Valid, Seen;
    match e
    case Connect(n) =>
      if n in w.live {
        OpenServes(w, n);
        OpenFields(w, n);
      }
    case Leave(n, i) =>
      if n in w.live && i < |w.live[n]| {
        CloseServes(w, n, i);
        CloseFields(w, n, i);
      }
    case Ask(change, _, _, order, luck) =>
      if Saves(w, h, e) {
        var v := Persist(w, Apply(w.disk, h, change).value, change);
        BringKeeps(w, h, change, order, luck);
        PersistFields(w, Apply(w.disk, h, change).value, change);
        AfterPersist(w, v, Bring(v, change, order, luck).0, change);
      }
  }

  /** A save forgets the kept session of the bastion it re-pins or removes, and no other. */
  lemma ForgetsOnly(w: World, h: Hashes, e: Event, b: Name)
    requires Saves(w, h, e)
    ensures Cached(Saved(w, h, e), b) <==>
      Cached(w, b) && !((e.change.SetFingerprint? || e.change.RmBastion?) && e.change.name == b)
  {
    hide Apply, Valid;
  }

  lemma PersistFields(w: World, d: Config, change: Change)
    ensures var v := Persist(w, d, change); v == w.(disk := d, cache := v.cache)
  {
  }

  /** A session whose env stays live keeps its snapshot, and the forward it dials through
      keeps running. */
  lemma SessionKeepsTunnel(w: World, h: Hashes, e: Event, n: Name, id: nat)
    requires Inv(w) && Orderly(w, h, e)
    requires n in w.live && id in w.live[n] && n in Step(w, h, e).0.live
    requires e.Leave? && e.env == n && e.session < |w.live[n]| ==> w.live[n][e.session] != id
    ensures var v := Step(w, h, e).0;
      && id in v.live[n]
      && Seen(v.heap, InFlight(id, n)) == Seen(w.heap, InFlight(id, n))
      && forall f | Uses(w.heap, InFlight(id, n), f) :: f in v.heap.running
  {
    hide Step, CacheTrusted, LiveAgrees, LiveTrusted;
    StepKeeps(w, h, e);
    var v := Step(w, h, e).0;
    forall f | Uses(w.heap, InFlight(id, n), f)
      ensures f in v.heap.running
    {
      assert Uses(v.heap, InFlight(id, n), f);
      RunningExact(v.heap, f);
    }
  }

  ghost predicate AllOrderly(w: World, h: Hashes, es: seq<Event>)
    requires Inv(w)
    decreases |es|
  {
    hide Inv, Orderly, Step;
    |es| > 0 ==>
      Orderly(w, h, es[0]) && (StepKeeps(w, h, es[0]); AllOrderly(Step(w, h, es[0]).0, h, es[1..]))
  }

  /** The state after a run of events. */
  ghost function Run(w: World, h: Hashes, es: seq<Event>): (v: World)
    requires Inv(w) && AllOrderly(w, h, es)
    ensures Inv(v)
    decreases |es|
  {
    hide Inv, Orderly, Step;
    if |es| == 0 then w else
      StepKeeps(w, h, es[0]);
      Run(Step(w, h, es[0]).0, h, es[1..])
  }

  // ---- start-up ----

  /** `Daemon::bind`: the stub engine is skipped, and anything else that fails is fatal, as
      is a PostgreSQL env where cleartext tokens are refused. */
  function Start(w: World, refuseCleartext: bool, order: seq<Name>, luck: Name -> Luck): Option<World>
    requires Books(w) && OnDisk(w, order) && NoneLive(w, order)
    decreases |order|
  {
    hide Books, OnDisk, NoneLive;
    if |order| == 0 then Some(w)
    else
      FirstNew(w, order, luck(order[0]));
      var engine := w.disk.envs[order[0]].engine;
      if engine == MsSql then Start(w, refuseCleartext, order[1..], luck)
      else if engine == Postgres && refuseCleartext then None
      else
        var (v, ok) := AddLive(w, order[0], luck(order[0]));
        if ok then Start(v, refuseCleartext, order[1..], luck) else None
  }

  function Blank(c: Config, tofu: bool, idleFlag: Option<nat>): World {
    World(c, tofu, idleFlag, EMPTY, map[], map[], 0)
  }

  lemma BlankServes(c: Config, tofu: bool, idleFlag: Option<nat>)
    ensures Served(Blank(c, tofu, idleFlag), {})
  {
    EmptyGood();
  }

  /** The idle timeout of the command line goes over every env's own, in the copy of the
      configuration that is bound; the disk keeps its values. */
  function Overridden(c: Config, idleFlag: Option<nat>): (r: Config)
    ensures r.envs.Keys == c.envs.Keys
  {
    match idleFlag
    case None => c
    case Some(secs) => c.(envs := map n | n in c.envs :: c.envs[n].(pool := c.envs[n].pool.(idleSecs := secs)))
  }

  /** A start that succeeds serves every env bound whose engine exists, as bound. */
  lemma {:induction false} StartServes(w: World, refuseCleartext: bool, order: seq<Name>, luck: Name -> Luck)
    requires OnDisk(w, order) && NoneLive(w, order) && Served(w, {})
    requires forall n | n in w.live :: IdlesAsOnDisk(w, n)
    ensures var r := Start(w, refuseCleartext, order, luck);
      r.Some? ==>
        && Served(r.value, {})
        && r.value == w.(heap := r.value.heap, cache := r.value.cache, live := r.value.live)
        && (forall n :: n in r.value.live <==> n in w.live || (n in order && w.disk.envs[n].engine != MsSql))
        && (forall n | n in r.value.live :: IdlesAsOnDisk(r.value, n))
    decreases |order|
  {
    hide Books, Seen, CacheTrusted, LiveAgrees, LiveTrusted, AddLive;
    if |order| > 0 {
      FirstNew(w, order, luck(order[0]));
      AddServes(w, order[0], luck(order[0]));
      var (v, ok) := AddLive(w, order[0], luck(order[0]));
      assert order == [order[0]] + order[1..];
      if w.disk.envs[order[0]].engine == MsSql {
        StartServes(w, refuseCleartext, order[1..], luck);
      } else if ok {
        StartServes(v, refuseCleartext, order[1..], luck);
      }
    }
  }

  lemma BlankReady(c: Config, tofu: bool, idleFlag: Option<nat>, order: seq<Name>)
    requires Lists(order, c.envs.Keys)
    ensures var w := Blank(Overridden(c, idleFlag), tofu, idleFlag);
      Served(w, {}) && OnDisk(w, order) && NoneLive(w, order)
  {
    BlankServes(Overridden(c, idleFlag), tofu, idleFlag);
    forall i | 0 <= i < |order|
      ensures order[i] in c.envs
    {
      assert order[i] in order;
    }
  }

  /** `mwsqld run`: bind what the flag makes of the configuration, and go on with the disk as it
      is. */
  ghost function Boot(c: Config, tofu: bool, idleFlag: Option<nat>, refuseCleartext: bool, order: seq<Name>, luck: Name -> Luck)
    : Option<World>
    requires Lists(order, c.envs.Keys)
  {
    BlankReady(c, tofu, idleFlag, order);
    match Start(Blank(Overridden(c, idleFlag), tofu, idleFlag), refuseCleartext, order, luck)
    case None => None
    case Some(w) => Some(w.(disk := c))
  }

  /** A start that succeeds keeps the disk, serves exactly the envs on it whose engine exists,
      and gives each the idle timeout of the flag, or its own if there is none. */
  lemma BootServes(c: Config, tofu: bool, idleFlag: Option<nat>, refuseCleartext: bool, order: seq<Name>, luck: Name -> Luck)
    requires Valid(c) && Lists(order, c.envs.Keys)
    ensures var r := Boot(c, tofu, idleFlag, refuseCleartext, order, luck);
      r.Some? ==>
        && Inv(r.value) && r.value.disk == c && r.value.tofu == tofu
        && (forall n :: n in r.value.live <==> n in c.envs && c.envs[n].engine != MsSql)
        && (forall n | n in r.value.live ::
              IdleSecs(r.value, n) == if idleFlag.Some? then idleFlag else Some(c.envs[n].pool.idleSecs))
  {
    hide Books, Seen, CacheTrusted, Start;
    BlankReady(c, tofu, idleFlag, order);
    var w := Blank(Overridden(c, idleFlag), tofu, idleFlag);
    StartServes(w, refuseCleartext, order, luck);
    var r := Start(w, refuseCleartext, order, luck);
    if r.Some? {
      SealedAgain(r.value, c, idleFlag);
    }
  }

  /** Going on with the disk instead of the copy changes nothing but what idle timeouts are
      compared with. */
  lemma SealedAgain(w: World, c: Config, idleFlag: Option<nat>)
    requires Served(w, {}) && w.disk == Overridden(c, idleFlag) && w.idleFlag == idleFlag
    ensures Served(w.(disk := c), {})
  {
    hide Good, Seen;
    var v := w.(disk := c);
    forall n | n in v.live
      ensures LiveAgrees(v, n) && LiveTrusted(v, n)
    {
      assert LiveAgrees(w, n) && LiveTrusted(w, n);
    }
  }

  // ---- the cleartext refusal holds at start-up only ----

  /** Where cleartext tokens are refused, no start succeeds with a PostgreSQL env on disk. */
  lemma {:induction false} RefusalExact(w: World, order: seq<Name>, luck: Name -> Luck)
    requires Books(w) && OnDisk(w, order) && NoneLive(w, order)
    ensures Start(w, true, order, luck) ==
      if exists n :: n in order && w.disk.envs[n].engine == Postgres then None else Start(w, false, order, luck)
    decreases |order|
  {
    hide Books, AddLive;
    if |order| > 0 {
      FirstNew(w, order, luck(order[0]));
      assert order == [order[0]] + order[1..];
      assert forall n :: n in order <==> n == order[0] || n in order[1..];
      RefusalExact(w, order[1..], luck);
      var (v, ok) := AddLive(w, order[0], luck(order[0]));
      if ok {
        RefusalExact(v, order[1..], luck);
      }
    }
  }

  /** The disk after an event. */
  lemma StepDisk(w: World, h: Hashes, e: Event)
    requires Inv(w) && Orderly(w, h, e)
    ensures Step(w, h, e).0.disk == if Saves(w, h, e) then Apply(w.disk, h, e.change).value else w.disk
  {
    hide Books, CacheTrusted, LiveAgrees, LiveTrusted, Apply, Bring, Valid, Seen;
    match e
    case Connect(n) =>
      if n in w.live {
        OpenFields(w, n);
      }
    case Leave(n, i) =>
      if n in w.live && i < |w.live[n]| {
        CloseFields(w, n, i);
      }
    case Ask(change, _, _, order, luck) =>
      if Saves(w, h, e) {
        BringKeeps(w, h, change, order, luck);
        PersistFields(w, Apply(w.disk, h, change).value, change);
      }
  }

  lemma ServedBooks(w: World)
    requires Served(w, {})
    ensures Books(w)
  {
  }

  // ---- what the invariant says ----

  /** Every live env behind a bastion dials through a session whose host key is pinned on disk
      now, unless nothing is pinned and the daemon trusts first keys. */
  ghost predicate PinsHold(w: World) {
    forall n, b | n in w.live && Behind(w, n, b) && b in w.disk.bastions && (|w.disk.bastions[b].pins| > 0 || !w.tofu) ::
      exists key :: key in w.disk.bastions[b].pins && DialsBy(w, n, key)
  }

  /** So does every session that is kept for later. */
  ghost predicate CachePinned(w: World) {
    forall b | b in w.cache && w.cache[b].Some? ::
      b in w.disk.bastions && (w.cache[b].value in w.disk.bastions[b].pins || (w.tofu && w.disk.bastions[b].pins == []))
  }

  /** Every live env is on disk, and serves the policy, the token digest, the listen port and
      the bastion its entry names; its idle timeout is that of its entry or of the flag. */
  ghost predicate LiveAsOnDisk(w: World) {
    forall n | n in w.live :: LiveAgrees(w, n)
  }

  /** A forward runs exactly when some env's published snapshot or some session dials through
      it. */
  ghost predicate TunnelsExact(w: World) {
    forall f :: f in w.heap.running <==>
      || (exists n | n in w.live :: Uses(w.heap, Published(n), f))
      || (exists n, id | n in w.live && id in w.live[n] :: Uses(w.heap, InFlight(id, n), f))
  }

  /** No accept loop runs outside the table. */
  ghost predicate NoneDetached(w: World) {
    forall x | x in w.heap.held :: x.Published? || x.InFlight?
  }

  /** After any run of events from any start: pins hold, live envs are as on disk, tunnels run
      exactly while used, and no live handle was ever overwritten. */
  lemma EveryRun(c: Config, tofu: bool, idleFlag: Option<nat>, refuseCleartext: bool, order: seq<Name>, luck: Name -> Luck,
                 h: Hashes, es: seq<Event>)
    requires Valid(c) && Lists(order, c.envs.Keys)
    ensures var r := Boot(c, tofu, idleFlag, refuseCleartext, order, luck);
      r.Some? ==> Inv(r.value) && (AllOrderly(r.value, h, es) ==> var v := Run(r.value, h, es);
        PinsHold(v) && CachePinned(v) && LiveAsOnDisk(v) && TunnelsExact(v) && NoneDetached(v) && v.tofu == tofu)
  {
    hide Books, Seen, CacheTrusted, LiveAgrees, LiveTrusted, Step, Run, Boot, AllOrderly;
    BootServes(c, tofu, idleFlag, refuseCleartext, order, luck);
    var r := Boot(c, tofu, idleFlag, refuseCleartext, order, luck);
    if r.Some? && AllOrderly(r.value, h, es) {
      InvSays(Run(r.value, h, es));
      RunTofu(r.value, h, es);
    }
  }

  lemma {:induction false} RunTofu(w: World, h: Hashes, es: seq<Event>)
    requires Inv(w) && AllOrderly(w, h, es)
    ensures Run(w, h, es).tofu == w.tofu
    decreases |es|
  {
    hide Inv, Orderly, Step;
    if |es| > 0 {
      StepKeeps(w, h, es[0]);
      RunTofu(Step(w, h, es[0]).0, h, es[1..]);
    }
  }

  lemma InvSays(w: World)
    requires Inv(w)
    ensures PinsHold(w) && CachePinned(w) && LiveAsOnDisk(w) && TunnelsExact(w) && NoneDetached(w)
  {
    hide Good, Seen, Uses;
    forall n, b | n in w.live && Behind(w, n, b) && b in w.disk.bastions && (|w.disk.bastions[b].pins| > 0 || !w.tofu)
      ensures exists key :: key in w.disk.bastions[b].pins && DialsBy(w, n, key)
    {
      ForwardFits(w, n);
      assert DialsBy(w, n, PublishedView(w, n).value.forward.value.key);
    }
    forall f
      ensures f in w.heap.running <==>
        || (exists n | n in w.live :: Uses(w.heap, Published(n), f))
        || (exists n, id | n in w.live && id in w.live[n] :: Uses(w.heap, InFlight(id, n), f))
    {
      RunningExact(w.heap, f);
      UsersEnrolled(w, f);
    }
  }

  lemma UsersEnrolled(w: World, f: nat)
    requires Books(w)
    ensures forall x | Uses(w.heap, x, f) :: Enrolled(w.live, x)
  {
  }
}
