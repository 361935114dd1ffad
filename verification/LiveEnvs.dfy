/** The live table of the daemon and the operations that apply a saved change to it: open
    or reuse a bastion session, build a runtime, publish, swap, remove. */
module LiveEnvs {
  import opened Common
  import opened Config
  import opened SnapshotHeap

  /** `disk` is the sealed configuration, `cache` the bastion sessions by name (an empty
      slot is a session that failed to open), `live` the env table: for every env served,
      the sessions its accept loop owns, in the order they arrived. `tofu` and `idleFlag` are
      what the process was started with. */
  datatype World = World(
    disk: Config, tofu: bool, idleFlag: Option<nat>, heap: Heap, cache: map<Name, Option<Fingerprint>>,
    live: map<Name, seq<nat>>, nextId: nat)

  /** What the network and the backend do for one env: the host key its bastion presents,
      whether the login, the local listener, the pool and the client listener work out. */
  datatype Luck = Luck(key: Fingerprint, login: bool, forwards: bool, builds: bool, binds: bool)

  // ---- what the live table must look like ----

  /** The env table accounts for this reference. */
  predicate Enrolled(live: map<Name, seq<nat>>, x: Holder) {
    match x
    case Published(n) => n in live
    case InFlight(id, n) => n in live && id in live[n]
    case _ => false
  }

  ghost predicate Distinct(ids: seq<nat>) {
    forall i, j | 0 <= i < j < |ids| :: ids[i] != ids[j]
  }

  ghost predicate SessionsCounted(w: World) {
    forall n | n in w.live :: Distinct(w.live[n]) && forall id | id in w.live[n] :: id < w.nextId
  }

  /** References are exactly those of the env table: one published snapshot for every live
      env, one for every session in flight, no session outliving its env, no accept loop
      cut off from the table. */
  ghost predicate Books(w: World) {
    && Good(w.heap)
    && (forall x :: x in w.heap.held <==> Enrolled(w.live, x))
    && SessionsCounted(w)
  }

  /** `check_server_key`. */
  predicate Accepts(pins: seq<Fingerprint>, tofu: bool, key: Fingerprint) {
    if |pins| == 0 then tofu else key in pins
  }

  /** A published snapshot is the one its env's entry on disk asks for; its idle timeout may
      still be the one given on the command line. */
  ghost predicate Agrees(c: Config, idleFlag: Option<nat>, n: Name, v: View) {
    && n in c.envs && c.envs[n].engine != MsSql
    && v.data.env == n
    && v.data.policy == c.envs[n].policy && v.data.auth == c.envs[n].auth
    && v.data.port == c.envs[n].listenPort
    && (v.data.idleSecs == c.envs[n].pool.idleSecs || idleFlag == Some(v.data.idleSecs))
    && ThroughBastion(v.forward, c.envs[n].bastion)
  }

  predicate ThroughBastion(f: Option<Forward>, bastion: Option<Name>) {
    match bastion
    case None => f.None?
    case Some(b) => f.Some? && f.value.bastion == b
  }

  /** The host key behind this forward is one the bastion's entry on disk accepts now. */
  predicate Trusted(c: Config, tofu: bool, f: Option<Forward>) {
    f.Some? ==> f.value.bastion in c.bastions && Accepts(c.bastions[f.value.bastion].pins, tofu, f.value.key)
  }

  /** Every cached session belongs to a bastion on disk whose entry accepts its host key. */
  ghost predicate CacheTrusted(c: Config, tofu: bool, cache: map<Name, Option<Fingerprint>>) {
    forall b | b in cache ::
      b in c.bastions && (cache[b].Some? ==> Accepts(c.bastions[b].pins, tofu, cache[b].value))
  }

  ghost function PublishedView(w: World, n: Name): Option<View> {
    Seen(w.heap, Published(n))
  }

  ghost predicate LiveAgrees(w: World, n: Name) {
    PublishedView(w, n).Some? && Agrees(w.disk, w.idleFlag, n, PublishedView(w, n).value)
  }

  ghost predicate LiveTrusted(w: World, n: Name) {
    PublishedView(w, n).Some? && Trusted(w.disk, w.tofu, PublishedView(w, n).value.forward)
  }

  // ---- opening and building ----

  /** `get_or_open`: reuse the cached session, or open one and cache it. Key authentication
      never succeeds. */
  function Dial(w: World, b: Name, l: Luck): (r: (World, Option<Fingerprint>))
    requires b in w.disk.bastions
    ensures r.0 == w.(cache := r.0.cache)
    ensures CacheTrusted(w.disk, w.tofu, w.cache) ==>
      CacheTrusted(w.disk, w.tofu, r.0.cache) && (r.1.Some? ==> Accepts(w.disk.bastions[b].pins, w.tofu, r.1.value))
  {
    if b in w.cache && w.cache[b].Some? then (w, w.cache[b])
    else
      var entry := w.disk.bastions[b];
      if Accepts(entry.pins, w.tofu, l.key) && entry.auth.Password? && l.login then
        (w.(cache := w.cache[b := Some(l.key)]), Some(l.key))
      else
        (w.(cache := w.cache[b := None]), None)
  }

  function SnapshotOf(c: Config, n: Name): Snapshot
    requires n in c.envs && c.envs[n].credential in c.credentials
  {
    var e := c.envs[n];
    Snapshot(n, e.policy, e.auth, e.listenPort, e.pool.idleSecs, c.credentials[e.credential].password)
  }

  /** `v` is `w` after a build: the cache may have changed, and every reference sees what
      it saw. */
  ghost predicate SameBut(w: World, v: World, xs: set<Holder>) {
    v == w.(heap := v.heap, cache := v.cache) && SameFor(w.heap, v.heap, xs)
  }

  /** What building for `n` leaves: on success one more reference, to a snapshot of the
      entry on disk; otherwise nothing new. */
  ghost predicate BuildDone(w: World, v: World, n: Name, ok: bool) {
    && SameBut(w, v, w.heap.held.Keys)
    && Good(v.heap)
    && v.heap.held.Keys == w.heap.held.Keys + (if ok then {Building} else {})
    && (ok ==> n in w.disk.envs && Seen(v.heap, Building).Some? && BuiltFor(w, n, Seen(v.heap, Building).value))
    && (CacheTrusted(w.disk, w.tofu, w.cache) ==> CacheTrusted(w.disk, w.tofu, v.cache))
  }

  ghost predicate BuiltFor(w: World, n: Name, v: View) {
    && Agrees(w.disk, w.idleFlag, n, v)
    && w.disk.envs[n].credential in w.disk.credentials
    && v.data.idleSecs == w.disk.envs[n].pool.idleSecs
    && v.data.password == w.disk.credentials[w.disk.envs[n].credential].password
    && (CacheTrusted(w.disk, w.tofu, w.cache) ==> Trusted(w.disk, w.tofu, v.forward))
  }

  /** Build the backend pool behind an open forward. When that fails, the forward goes with
      everything built so far; the stub engine always fails. */
  function Assemble(w: World, n: Name, forward: Option<Forward>, l: Luck): (World, bool)
    requires Good(w.heap) && Building !in w.heap.held
    requires n in w.disk.envs && w.disk.envs[n].credential in w.disk.credentials
  {
    hide Good, SameFor, Seen;
    var k := Fresh(w.heap, SnapshotOf(w.disk, n), forward);
    if l.builds && w.disk.envs[n].engine != MsSql then (w.(heap := k), true) else (w.(heap := Drop(k, Building)), false)
  }

  lemma AssembleDone(w: World, n: Name, forward: Option<Forward>, l: Luck)
    requires Good(w.heap) && Building !in w.heap.held
    requires n in w.disk.envs && w.disk.envs[n].credential in w.disk.credentials
    requires ThroughBastion(forward, w.disk.envs[n].bastion)
    requires CacheTrusted(w.disk, w.tofu, w.cache) ==> Trusted(w.disk, w.tofu, forward)
    ensures var (v, ok) := Assemble(w, n, forward, l); BuildDone(w, v, n, ok)
  {
    hide Good, Seen, CacheTrusted, Trusted;
    var k := Fresh(w.heap, SnapshotOf(w.disk, n), forward);
    assert w.heap.held.Keys <= k.held.Keys - {Building};
  }

  /** `build_env_runtime`. */
  function Build(w: World, n: Name, l: Luck): (World, bool)
    requires Good(w.heap) && Building !in w.heap.held && n in w.disk.envs
  {
    hide Good;
    var e := w.disk.envs[n];
    if e.credential !in w.disk.credentials then (w, false)
    else
      match e.bastion
      case None => Assemble(w, n, None, l)
      case Some(b) =>
        if b !in w.disk.bastions then (w, false)
        else
          var (v, key) := Dial(w, b, l);
          if key.None? || !l.forwards then (v, false) else Assemble(v, n, Some(Forward(b, key.value)), l)
  }

  lemma BuildKeeps(w: World, n: Name, l: Luck)
    requires Good(w.heap) && Building !in w.heap.held && n in w.disk.envs
    ensures var (v, ok) := Build(w, n, l); BuildDone(w, v, n, ok)
  {
    hide Good, Seen, CacheTrusted, SameFor, Assemble, Agrees;
    SameForItself(w.heap);
    var e := w.disk.envs[n];
    if e.credential in w.disk.credentials {
      match e.bastion
      case None => AssembleDone(w, n, None, l);
      case Some(b) =>
        if b in w.disk.bastions {
          var (v, key) := Dial(w, b, l);
          if key.Some? && l.forwards {
            AssembleDone(v, n, Some(Forward(b, key.value)), l);
          }
        }
    }
  }

  lemma SameForItself(h: Heap)
    ensures forall k: Heap | k == h :: SameFor(h, k, h.held.Keys)
  {
  }

  // ---- publishing ----

  /** `send_replace`: the new snapshot takes the place of the published one, which loses
      that reference. */
  function Publish(h: Heap, n: Name): Heap
    requires Good(h) && Building in h.held && Published(n) in h.held && Retiring !in h.held
  {
    hide Good, Seen, SameFor;
    Drop(Move(Move(h, Published(n), Retiring), Building, Published(n)), Retiring)
  }

  lemma PublishDone(h: Heap, n: Name)
    requires Good(h) && Building in h.held && Published(n) in h.held && Retiring !in h.held
    ensures var k := Publish(h, n);
      && Good(k) && k.held.Keys == h.held.Keys - {Building}
      && Seen(k, Published(n)) == Seen(h, Building)
      && SameFor(h, k, h.held.Keys - {Building, Published(n)})
  {
    hide Good, Seen, Move, Drop;
  }

  /** `apply_rebuild_backend`: build first, then publish if the env is live. */
  function Rebuild(w: World, n: Name, l: Luck): (World, bool)
    requires Books(w) && n in w.disk.envs
  {
    hide Good, Seen, SameFor, Build;
    BuildKeeps(w, n, l);
    var (v, ok) := Build(w, n, l);
    if !ok then (v, false)
    else if n !in w.live then (v.(heap := Drop(v.heap, Building)), false)
    else (v.(heap := Publish(v.heap, n)), true)
  }

  // ---- exactly when a build succeeds ----

  predicate Cached(w: World, b: Name) {
    b in w.cache && w.cache[b].Some?
  }

  /** The bastion can be logged in to, and presents a key that its entry accepts. */
  predicate Opens(w: World, b: Name, l: Luck) {
    && b in w.disk.bastions && w.disk.bastions[b].auth.Password?
    && l.login && Accepts(w.disk.bastions[b].pins, w.tofu, l.key)
  }

  /** A session opens exactly if the entry has a password that is accepted and the bastion presents
      a pinned key, or any key where none is pinned and first keys are trusted. */
  lemma OpensExact(w: World, b: Name, l: Luck)
    requires b in w.disk.bastions
    ensures var entry := w.disk.bastions[b];
      Opens(w, b, l) <==>
        && entry.auth.Password? && l.login
        && ((exists i :: 0 <= i < |entry.pins| && entry.pins[i] == l.key) || (entry.pins == [] && w.tofu))
  {
  }

  /** A backend can be built: through an open session if the env has a bastion. */
  predicate CanBuild(w: World, n: Name, l: Luck)
    requires n in w.disk.envs
  {
    && w.disk.envs[n].engine != MsSql && l.builds
    && match w.disk.envs[n].bastion
       case None => true
       case Some(b) => l.forwards && (Cached(w, b) || Opens(w, b, l))
  }

  lemma BuildExact(w: World, n: Name, l: Luck)
    requires Good(w.heap) && Building !in w.heap.held && n in w.disk.envs
    requires EnvFits(w.disk.envs[n], w.disk.bastions, w.disk.credentials)
    ensures Build(w, n, l).1 <==> CanBuild(w, n, l)
    ensures forall b :: Cached(Build(w, n, l).0, b) <==>
      Cached(w, b) || (w.disk.envs[n].bastion == Some(b) && Opens(w, b, l))
  {
    hide Good;
  }

  /** A rebuild succeeds exactly when the env is live and its backend can be built; what it
      leaves cached are the sessions it could open. */
  lemma RebuildExact(w: World, n: Name, l: Luck)
    requires Books(w) && n in w.disk.envs
    requires EnvFits(w.disk.envs[n], w.disk.bastions, w.disk.credentials)
    ensures Rebuild(w, n, l).1 <==> n in w.live && CanBuild(w, n, l)
    ensures forall b :: Cached(Rebuild(w, n, l).0, b) <==>
      Cached(w, b) || (w.disk.envs[n].bastion == Some(b) && Opens(w, b, l))
  {
    hide Good, Build, Opens, CanBuild, Publish, Drop, BuildDone;
    BuildKeeps(w, n, l);
    assert BuildDone(w, Build(w, n, l).0, n, Build(w, n, l).1);
    BuildExact(w, n, l);
  }

  /** What a rebuild leaves: nothing but `n`'s published snapshot may change, and that only
      on success, to one built from the disk entry. */
  ghost predicate RebuildDone(w: World, v: World, n: Name, ok: bool) {
    && Books(v) && SameBut(w, v, w.heap.held.Keys - {Published(n)})
    && (CacheTrusted(w.disk, w.tofu, w.cache) ==> CacheTrusted(w.disk, w.tofu, v.cache))
    && (!ok && n in w.live ==> PublishedView(v, n) == PublishedView(w, n))
    && (ok ==> n in w.live && n in w.disk.envs && PublishedView(v, n).Some? && BuiltFor(w, n, PublishedView(v, n).value))
  }

  lemma RebuildKeeps(w: World, n: Name, l: Luck)
    requires Books(w) && n in w.disk.envs
    ensures var (v, ok) := Rebuild(w, n, l); RebuildDone(w, v, n, ok)
  {
    hide Good, Seen, Build, BuiltFor, CacheTrusted, Publish, Drop;
    BuildKeeps(w, n, l);
    var (v, ok) := Build(w, n, l);
    if ok && n in w.live {
      PublishDone(v.heap, n);
    }
  }

  /** `swap_runtime`: publish a copy of the current snapshot with one field changed, over the
      same tunnel. */
  function Swap(w: World, n: Name, data: Snapshot): World
    requires Books(w) && n in w.live
  {
    hide Good, Seen, SameFor;
    w.(heap := Publish(Sharing(w.heap, Published(n), data), n))
  }

  lemma SwapKeeps(w: World, n: Name, data: Snapshot)
    requires Books(w) && n in w.live
    ensures var v := Swap(w, n, data);
      && Books(v) && v == w.(heap := v.heap) && SameFor(w.heap, v.heap, w.heap.held.Keys - {Published(n)})
      && PublishedView(v, n) == Recast(PublishedView(w, n), data)
  {
    hide Good, Seen, Publish, Sharing;
    PublishDone(Sharing(w.heap, Published(n), data), n);
  }

  /** `apply_add_env`: build, bind the listener, then insert into the table. Inserting over
      a live env would cut its accept loop off from the table. */
  function Install(w: World, n: Name): World
    requires Good(w.heap) && Building in w.heap.held && Detached(n) !in w.heap.held
  {
    hide Good, Seen, SameFor;
    var h := if Published(n) in w.heap.held then Move(w.heap, Published(n), Detached(n)) else w.heap;
    w.(heap := Move(h, Building, Published(n)), live := w.live[n := []])
  }

  function AddLive(w: World, n: Name, l: Luck): (World, bool)
    requires Books(w) && n in w.disk.envs
  {
    hide Good, Seen, SameFor, Build;
    BuildKeeps(w, n, l);
    var (v, ok) := Build(w, n, l);
    if !ok then (v, false)
    else if !l.binds then (v.(heap := Drop(v.heap, Building)), false)
    else (Install(v, n), true)
  }

  /** A new env joins the table and everything else stays as it was. */
  ghost predicate AddDone(w: World, v: World, n: Name, ok: bool) {
    && Books(v)
    && v == w.(heap := v.heap, cache := v.cache, live := if ok then w.live[n := []] else w.live)
    && SameFor(w.heap, v.heap, w.heap.held.Keys)
    && (CacheTrusted(w.disk, w.tofu, w.cache) ==> CacheTrusted(w.disk, w.tofu, v.cache))
    && (ok ==> n in w.disk.envs && PublishedView(v, n).Some? && BuiltFor(w, n, PublishedView(v, n).value))
  }

  lemma AddKeeps(w: World, n: Name, l: Luck)
    requires Books(w) && n in w.disk.envs && n !in w.live
    ensures var (v, ok) := AddLive(w, n, l); AddDone(w, v, n, ok)
  {
    hide Good, Seen, Build, BuiltFor, CacheTrusted, Drop, Move;
    BuildKeeps(w, n, l);
  }

  // ---- sessions ----

  /** An accepted connection takes a reference to the snapshot published now. */
  function Open(w: World, n: Name): World
    requires Books(w) && n in w.live
  {
    hide Good, Seen, SameFor;
    w.(heap := Clone(w.heap, Published(n), InFlight(w.nextId, n)),
       live := w.live[n := w.live[n] + [w.nextId]],
       nextId := w.nextId + 1)
  }

  lemma OpenKeeps(w: World, n: Name)
    requires Books(w) && n in w.live
    ensures var v := Open(w, n);
      && Books(v) && SameFor(w.heap, v.heap, w.heap.held.Keys)
      && v.heap.held.Keys == w.heap.held.Keys + {InFlight(w.nextId, n)}
      && Seen(v.heap, InFlight(w.nextId, n)) == PublishedView(w, n)
  {
    hide Good, Seen, SameFor, Clone;
  }

  /** A session ends and gives its reference back. */
  function Close(w: World, n: Name, i: nat): World
    requires Books(w) && n in w.live && i < |w.live[n]|
  {
    hide Good, Seen, SameFor;
    w.(heap := Drop(w.heap, InFlight(w.live[n][i], n)),
       live := w.live[n := w.live[n][..i] + w.live[n][i + 1..]])
  }

  lemma CloseKeeps(w: World, n: Name, i: nat)
    requires Books(w) && n in w.live && i < |w.live[n]|
    ensures var v := Close(w, n, i);
      && Books(v) && SameFor(w.heap, v.heap, v.heap.held.Keys)
      && v.heap.held.Keys == w.heap.held.Keys - {InFlight(w.live[n][i], n)}
  {
    hide Good, Seen, SameFor, Drop;
    WithoutOne(w.live[n], i);
  }

  lemma WithoutOne(ids: seq<nat>, i: nat)
    requires Distinct(ids) && i < |ids|
    ensures var rest := ids[..i] + ids[i + 1..];
      Distinct(rest) && forall id :: id in rest <==> id in ids && id != ids[i]
  {
    var rest := ids[..i] + ids[i + 1..];
    forall id | id in ids && id != ids[i]
      ensures id in rest
    {
      var j :| 0 <= j < |ids| && ids[j] == id;
      assert id == rest[if j < i then j else j - 1];
    }
  }

  // ---- removing ----

  ghost predicate AllInFlight(h: Heap, n: Name, ids: seq<nat>) {
    Distinct(ids) && forall i | 0 <= i < |ids| :: InFlight(ids[i], n) in h.held
  }

  lemma FewerInFlight(h: Heap, n: Name, ids: seq<nat>)
    requires Good(h) && AllInFlight(h, n, ids) && |ids| > 0
    ensures InFlight(ids[0], n) in h.held && AllInFlight(Drop(h, InFlight(ids[0], n)), n, ids[1..])
  {
    hide Good, SameFor;
  }

  function DropEach(h: Heap, n: Name, ids: seq<nat>): Heap
    requires Good(h) && AllInFlight(h, n, ids)
    decreases |ids|
  {
    hide Good, Seen, SameFor, AllInFlight;
    if |ids| == 0 then h
    else
      FewerInFlight(h, n, ids);
      DropEach(Drop(h, InFlight(ids[0], n)), n, ids[1..])
  }

  lemma {:induction false} DropEachDone(h: Heap, n: Name, ids: seq<nat>)
    requires Good(h) && AllInFlight(h, n, ids)
    ensures var k := DropEach(h, n, ids);
      && Good(k) && SameFor(h, k, k.held.Keys)
      && forall x :: x in k.held <==> x in h.held && !(x.InFlight? && x.env == n && x.id in ids)
    decreases |ids|
  {
    hide Good, Seen, Drop;
    if |ids| > 0 {
      FewerInFlight(h, n, ids);
      DropEachDone(Drop(h, InFlight(ids[0], n)), n, ids[1..]);
      assert forall id :: id in ids <==> id == ids[0] || id in ids[1..];
    }
  }

  /** `apply_rm_env`: the entry goes, its accept loop with it, its sessions with that. */
  function RmLive(w: World, n: Name): World
    requires Books(w)
  {
    hide Good, Seen, SameFor, DropEach;
    if n !in w.live then w
    else
      DropEachDone(w.heap, n, w.live[n]);
      w.(heap := Drop(DropEach(w.heap, n, w.live[n]), Published(n)), live := w.live - {n})
  }

  lemma RmKeeps(w: World, n: Name)
    requires Books(w)
    ensures var v := RmLive(w, n);
      && Books(v) && v == w.(heap := v.heap, live := w.live - {n})
      && SameFor(w.heap, v.heap, v.heap.held.Keys)
  {
    hide Good, Seen, DropEach, Drop;
    if n in w.live {
      DropEachDone(w.heap, n, w.live[n]);
    } else {
      assert w.live - {n} == w.live;
    }
  }
}
