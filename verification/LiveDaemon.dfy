/** The daemon as an object: its fields change in place, request by request, exactly as the
    steps of module Daemon say. */
module LiveDaemon {
  import opened Common
  import opened Config
  import opened SnapshotHeap
  import opened LiveEnvs
  import opened Daemon

  class Service {
    const tofu: bool
    const idleFlag: Option<nat>
    var disk: Config
    var heap: Heap
    var cache: map<Name, Option<Fingerprint>>
    var live: map<Name, seq<nat>>
    var nextId: nat

    constructor (c: Config, tofu: bool, idleFlag: Option<nat>)
      ensures Value() == Blank(c, tofu, idleFlag)
    {
      this.tofu, this.idleFlag := tofu, idleFlag;
      disk, heap, cache, live, nextId := c, EMPTY, map[], map[], 0;
    }

    function Value(): World
      reads this
    {
      World(disk, tofu, idleFlag, heap, cache, live, nextId)
    }

    // ---- bastion sessions and backends ----

    method GetOrOpen(b: Name, l: Luck) returns (key: Option<Fingerprint>)
      requires b in disk.bastions
      modifies `cache
      ensures (Value(), key) == Dial(old(Value()), b, l)
    {
      if b in cache && cache[b].Some? {
        return cache[b];
      }
      if b !in cache {
        cache := cache[b := None];
      }
      assert cache == old(cache)[b := None];
      var entry := disk.bastions[b];
      if !Accepts(entry.pins, tofu, l.key) || !entry.auth.Password? || !l.login {
        return None;
      }
      cache := cache[b := Some(l.key)];
      assert cache == old(cache)[b := Some(l.key)];
      return Some(l.key);
    }

    method Establish(n: Name, l: Luck) returns (ok: bool)
      requires Good(heap) && Building !in heap.held && n in disk.envs
      modifies `cache, `heap
      ensures (Value(), ok) == Build(old(Value()), n, l)
    {
      hide Good;
      var e := disk.envs[n];
      if e.credential !in disk.credentials {
        return false;
      }
      var forward := None;
      if e.bastion.Some? {
        if e.bastion.value !in disk.bastions {
          return false;
        }
        var key := GetOrOpen(e.bastion.value, l);
        if key.None? || !l.forwards {
          return false;
        }
        forward := Some(Forward(e.bastion.value, key.value));
      }
      heap := Fresh(heap, SnapshotOf(disk, n), forward);
      if !l.builds || e.engine == MsSql {
        heap := Drop(heap, Building);
        return false;
      }
      return true;
    }

    method SendReplace(n: Name)
      requires Good(heap) && Building in heap.held && Published(n) in heap.held && Retiring !in heap.held
      modifies `heap
      ensures heap == Publish(old(heap), n)
    {
      hide Good, Seen, SameFor;
      heap := Move(heap, Published(n), Retiring);
      heap := Move(heap, Building, Published(n));
      heap := Drop(heap, Retiring);
    }

    method RebuildBackend(n: Name, l: Luck) returns (ok: bool)
      requires Books(Value()) && n in disk.envs
      modifies `cache, `heap
      ensures (Value(), ok) == Rebuild(old(Value()), n, l)
    {
      hide Good, Seen, SameFor, Build, Publish;
      BuildKeeps(Value(), n, l);
      ok := Establish(n, l);
      if ok && n !in live {
        heap := Drop(heap, Building);
        ok := false;
      } else if ok {
        SendReplace(n);
      }
    }

    method SwapRuntime(n: Name, data: Snapshot)
      requires Books(Value()) && n in live
      modifies `heap
      ensures Value() == Swap(old(Value()), n, data)
    {
      hide Good, Seen, SameFor;
      heap := Sharing(heap, Published(n), data);
      SendReplace(n);
    }

    method AddEnvLive(n: Name, l: Luck) returns (ok: bool)
      requires Books(Value()) && n in disk.envs
      modifies `cache, `heap, `live
      ensures (Value(), ok) == AddLive(old(Value()), n, l)
    {
      hide Good, Seen, SameFor, Build;
      BuildKeeps(Value(), n, l);
      ok := Establish(n, l);
      if ok && !l.binds {
        heap := Drop(heap, Building);
        ok := false;
      } else if ok {
        if Published(n) in heap.held {
          heap := Move(heap, Published(n), Detached(n));
        }
        heap := Move(heap, Building, Published(n));
        live := live[n := []];
      }
    }

    method RmEnvLive(n: Name)
      requires Books(Value())
      modifies `heap, `live
      ensures Value() == RmLive(old(Value()), n)
    {
      hide Good, Seen, SameFor, DropEach;
      if n in live {
        DropEachDone(heap, n, live[n]);
        var ids := live[n];
        for i := 0 to |ids|
          invariant live == old(live)
          invariant Good(heap) && AllInFlight(heap, n, ids[i..])
          invariant DropEach(heap, n, ids[i..]) == DropEach(old(heap), n, ids)
        {
          DropEachStep(heap, n, ids[i..]);
          assert ids[i..][1..] == ids[i + 1..];
          heap := Drop(heap, InFlight(ids[i], n));
        }
        DropEachEnd(heap, n, ids[|ids|..]);
        heap := Drop(heap, Published(n));
        live := live - {n};
      }
    }

    /** `mwsqld run`: the flag goes over the copy that is bound; the disk keeps its values. */
    method Boot(refuseCleartext: bool, order: seq<Name>, luck: Name -> Luck) returns (ok: bool)
      requires Value() == Blank(disk, tofu, idleFlag) && Lists(order, disk.envs.Keys)
      modifies `disk, `cache, `heap, `live
      ensures var r := Daemon.Boot(old(disk), tofu, idleFlag, refuseCleartext, order, luck);
        ok == r.Some? && (ok ==> Value() == r.value)
    {
      hide Books, OnDisk, NoneLive, Start, Overridden;
      BlankReady(disk, tofu, idleFlag, order);
      ServedBooks(Blank(Overridden(disk, idleFlag), tofu, idleFlag));
      var onDisk := disk;
      disk := Overridden(disk, idleFlag);
      ok := Bind(refuseCleartext, order, luck);
      disk := onDisk;
    }

    /** `Daemon::bind`, over the envs in order. */
    method Bind(refuseCleartext: bool, order: seq<Name>, luck: Name -> Luck) returns (ok: bool)
      requires Books(Value()) && OnDisk(Value(), order) && NoneLive(Value(), order)
      modifies `cache, `heap, `live
      ensures var r := Start(old(Value()), refuseCleartext, order, luck);
        ok == r.Some? && (ok ==> Value() == r.value)
    {
      hide Books, AddLive, OnDisk, NoneLive;
      assert order[0..] == order;
      for i := 0 to |order|
        invariant Books(Value()) && OnDisk(Value(), order[i..]) && NoneLive(Value(), order[i..])
        invariant Start(Value(), refuseCleartext, order[i..], luck) == Start(old(Value()), refuseCleartext, order, luck)
      {
        assert order[i..][1..] == order[i + 1..];
        FirstNew(Value(), order[i..], luck(order[i]));
        var engine := disk.envs[order[i]].engine;
        if engine != MsSql {
          if engine == Postgres && refuseCleartext {
            return false;
          }
          var up := AddEnvLive(order[i], luck(order[i]));
          if !up {
            return false;
          }
        }
      }
      return true;
    }

    // ---- requests ----

    /** Load, transform, validate, save. */
    method WithConfig(h: Hashes, change: Change, saved: bool) returns (ok: bool)
      modifies `disk
      ensures var s := Save(old(Value()), h, change, saved);
        ok == s.Some? && disk == if s.Some? then s.value else old(disk)
    {
      var store := new Store(disk);
      var refused := store.Change(h, change);
      if refused.Some? {
        return false;
      }
      var c := store.Value();
      var checked := Validate(c);
      if checked.Err? || !saved {
        return false;
      }
      disk := c;
      return true;
    }

    /** After a saved re-pin. */
    method RepinEnvs(order: seq<Name>, luck: Name -> Luck) returns (stopped: seq<Name>)
      requires Books(Value()) && OnDisk(Value(), order)
      modifies `cache, `heap, `live
      ensures (Value(), stopped) == RepinAll(old(Value()), order, luck)
    {
      hide Books, Rebuild, RmLive;
      stopped := [];
      assert order[0..] == order;
      for i := 0 to |order|
        invariant Books(Value()) && OnDisk(Value(), order)
        invariant disk == old(disk) && nextId == old(nextId)
        invariant RepinAll(Value(), order[i..], luck).0 == RepinAll(old(Value()), order, luck).0
        invariant stopped + RepinAll(Value(), order[i..], luck).1 == RepinAll(old(Value()), order, luck).1
      {
        assert order[i..][1..] == order[i + 1..];
        if order[i] in live {
          RebuildKeeps(Value(), order[i], luck(order[i]));
          var ok := RebuildBackend(order[i], luck(order[i]));
          if !ok {
            RmKeeps(Value(), order[i]);
            RmEnvLive(order[i]);
            stopped := stopped + [order[i]];
          }
        }
      }
      assert stopped == RepinAll(old(Value()), order, luck).1;
    }

    /** After a saved rotation: how many envs were rebuilt before the first failure. */
    method RotateEnvs(order: seq<Name>, luck: Name -> Luck) returns (k: nat)
      requires Books(Value()) && OnDisk(Value(), order)
      modifies `cache, `heap
      ensures (Value(), k) == RotateAll(old(Value()), order, luck) && k <= |order|
    {
      hide Books, Rebuild;
      k := 0;
      while k < |order|
        invariant k <= |order| && Books(Value()) && OnDisk(Value(), order)
        invariant disk == old(disk) && nextId == old(nextId)
        invariant var (v, rest) := RotateAll(Value(), order[k..], luck);
          RotateAll(old(Value()), order, luck) == (v, k + rest)
      {
        assert order[k..][1..] == order[k + 1..];
        RebuildKeeps(Value(), order[k], luck(order[k]));
        var ok := RebuildBackend(order[k], luck(order[k]));
        if !ok {
          return;
        }
        k := k + 1;
      }
    }

    /** After a saved import: how many of the new envs came up before the first failure. */
    method AddEnvs(order: seq<Name>, luck: Name -> Luck) returns (k: nat)
      requires Books(Value()) && OnDisk(Value(), order) && NoneLive(Value(), order)
      modifies `cache, `heap, `live
      ensures (Value(), k) == AddAll(old(Value()), order, luck) && k <= |order|
    {
      hide Books, AddLive, OnDisk, NoneLive;
      k := 0;
      while k < |order|
        invariant k <= |order| && Books(Value()) && OnDisk(Value(), order[k..]) && NoneLive(Value(), order[k..])
        invariant disk == old(disk) && nextId == old(nextId)
        invariant var (v, rest) := AddAll(Value(), order[k..], luck);
          AddAll(old(Value()), order, luck) == (v, k + rest)
      {
        assert order[k..][1..] == order[k + 1..];
        FirstNew(Value(), order[k..], luck(order[k]));
        var ok := AddEnvLive(order[k], luck(order[k]));
        if !ok {
          return;
        }
        k := k + 1;
      }
    }

    /** `dispatch`: a request changes the daemon by one step and gets the step's answer. */
    method Dispatch(h: Hashes, change: Change, confirmed: bool, saved: bool, order: seq<Name>, luck: Name -> Luck)
      returns (answer: Response)
      requires Inv(Value()) && Orderly(Value(), h, Ask(change, confirmed, saved, order, luck))
      modifies this
      ensures (Value(), answer) == Step(old(Value()), h, Ask(change, confirmed, saved, order, luck))
      ensures Inv(Value())
    {
      hide Inv, Bring, Apply, Books, Orderly, Ready;
      if change.SetPolicy? && change.readWrite && !confirmed {
        return Denied;
      }
      StepKeeps(Value(), h, Ask(change, confirmed, saved, order, luck));
      Proceeds(Value(), h, change, confirmed, saved, order, luck);
      var ok := WithConfig(h, change, saved);
      if !ok {
        return Refused;
      }
      match change {
        case SetFingerprint(b, _) => cache := cache - {b};
        case RmBastion(b) => cache := cache - {b};
        case _ =>
      }
      answer := Follow(change, order, luck);
    }

    /** A connection takes the snapshot published at that moment. */
    method Accept(h: Hashes, n: Name)
      requires Inv(Value())
      modifies `heap, `live, `nextId
      ensures Value() == Step(old(Value()), h, Connect(n)).0 && Inv(Value())
    {
      hide Good, Seen, SameFor, Valid, CacheTrusted, LiveAgrees, LiveTrusted;
      StepKeeps(Value(), h, Connect(n));
      if n in live {
        heap := Clone(heap, Published(n), InFlight(nextId, n));
        live := live[n := live[n] + [nextId]];
        nextId := nextId + 1;
      }
    }

    /** A session is over and its snapshot let go. */
    method SessionEnds(h: Hashes, n: Name, i: nat)
      requires Inv(Value())
      modifies `heap, `live
      ensures Value() == Step(old(Value()), h, Leave(n, i)).0 && Inv(Value())
    {
      hide Good, Seen, SameFor, Valid, CacheTrusted, LiveAgrees, LiveTrusted;
      StepKeeps(Value(), h, Leave(n, i));
      if n in live && i < |live[n]| {
        heap := Drop(heap, InFlight(live[n][i], n));
        live := live[n := live[n][..i] + live[n][i + 1..]];
      }
    }

    /** Bring the live table into line with a change just saved. */
    method Follow(change: Change, order: seq<Name>, luck: Name -> Luck) returns (answer: Response)
      requires Ready(Value(), change, order)
      modifies `cache, `heap, `live
      ensures (Value(), answer) == Bring(old(Value()), change, order, luck)
    {
      hide Books, OnDisk, NoneLive, RepinAll, RotateAll, AddAll, AddLive, RmLive, Swap, Rewritten;
      match change {
        case SetFingerprint(_, _) =>
          var stopped := RepinEnvs(order, luck);
          return if |stopped| == 0 then Done else Stopped(stopped);
        case RotateCred(_, _) =>
          var k := RotateEnvs(order, luck);
          return if k < |order| then NotApplied(order[k]) else Done;
        case AddEnv(a, _) =>
          var ok := AddEnvLive(a.name, luck(a.name));
          return if ok then Token else TokenButNotLive;
        case RmEnv(n) =>
          RmEnvLive(n);
          return Done;
        case Grant(n, _) =>
          if n !in live {
            return TokenButNotLive;
          }
          SwapRuntime(n, Rewritten(Value(), change));
          return Token;
        case SetPolicy(n, _) =>
          if n !in live {
            return NotApplied(n);
          }
          SwapRuntime(n, Rewritten(Value(), change));
          return Done;
        case Import(_) =>
          var k := AddEnvs(order, luck);
          return if k < |order| then NotApplied(order[k]) else Done;
        case _ =>
          return Done;
      }
    }
  }

  /** A request that gets past the save is ready to be brought live. */
  lemma Proceeds(w: World, h: Hashes, change: Change, confirmed: bool, saved: bool, order: seq<Name>, luck: Name -> Luck)
    requires Inv(w) && Orderly(w, h, Ask(change, confirmed, saved, order, luck))
    ensures Save(w, h, change, saved).Some? ==> Ready(Persist(w, Save(w, h, change, saved).value, change), change, order)
  {
    hide Apply, Valid, Served, Ready;
    if Save(w, h, change, saved).Some? {
      SaveMakesReady(w, h, change, order);
    }
  }

  lemma DropEachStep(h: Heap, n: Name, ids: seq<nat>)
    requires Good(h) && AllInFlight(h, n, ids) && |ids| > 0
    ensures InFlight(ids[0], n) in h.held
    ensures var k := Drop(h, InFlight(ids[0], n));
      Good(k) && AllInFlight(k, n, ids[1..]) && DropEach(h, n, ids) == DropEach(k, n, ids[1..])
  {
    hide Good, Seen, SameFor, AllInFlight;
    FewerInFlight(h, n, ids);
  }

  lemma DropEachEnd(h: Heap, n: Name, ids: seq<nat>)
    requires Good(h) && AllInFlight(h, n, ids) && |ids| == 0
    ensures DropEach(h, n, ids) == h
  {
  }
}
