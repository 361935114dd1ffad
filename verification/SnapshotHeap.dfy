/** The daemon's reference-counted memory: published runtime snapshots, the tunnels they
    share, and which local forwards are running. Everything happens by counting, as with
    `Arc` and `Drop`; that the counts come out right is what is proved. */
module SnapshotHeap {
  import opened Common
  import opened Config

  /** Who keeps a snapshot alive: an env's published value, an in-flight session of that
      env, the code building or retiring one, or an accept loop cut off from its env. */
  datatype Holder =
    | Published(env: Name)
    | InFlight(id: nat, env: Name)
    | Building
    | Retiring
    | Detached(env: Name)

  /** The bastion session a local forward dials through: which bastion, and the host key
      it presented. */
  datatype Forward = Forward(bastion: Name, key: Fingerprint)

  /** What an `EnvRuntime` carries besides its tunnel. */
  datatype Snapshot = Snapshot(
    env: Name, policy: Policy.Policy, auth: ClientAuth, port: Port, idleSecs: nat, password: string)

  /** An `Arc<EnvRuntime>` and its strong count; `tunnel` names the forward list it shares. */
  datatype Runtime = Runtime(data: Snapshot, tunnel: nat, strong: nat)

  /** An `Arc<Vec<LocalForward>>` and its strong count. The list never has two elements,
      so a forward goes by the number of its list. */
  datatype Tunnel = Tunnel(forward: Option<Forward>, strong: nat)

  /** `running` are the forwards whose accept task has been started and not aborted. */
  datatype Heap = Heap(
    held: map<Holder, nat>,
    runtimes: map<nat, Runtime>,
    tunnels: map<nat, Tunnel>,
    running: set<nat>,
    next: nat)

  const EMPTY := Heap(map[], map[], map[], {}, 0)

  // ---- the counting discipline ----

  ghost function HoldersOf(held: map<Holder, nat>, r: nat): set<Holder> {
    set x | x in held && held[x] == r
  }

  ghost function SharersOf(runtimes: map<nat, Runtime>, t: nat): set<nat> {
    set r | r in runtimes && runtimes[r].tunnel == t
  }

  /** A runtime's count is the number of its holders. */
  ghost predicate RuntimesCounted(held: map<Holder, nat>, runtimes: map<nat, Runtime>, next: nat) {
    forall r | r in runtimes :: r < next && 0 < runtimes[r].strong == |HoldersOf(held, r)|
  }

  /** A tunnel's count is the number of runtimes that share it. */
  ghost predicate TunnelsCounted(runtimes: map<nat, Runtime>, tunnels: map<nat, Tunnel>, next: nat) {
    forall t | t in tunnels :: t < next && 0 < tunnels[t].strong == |SharersOf(runtimes, t)|
  }

  /** The running forwards are those of the tunnels still counted. */
  ghost predicate ForwardsRun(tunnels: map<nat, Tunnel>, running: set<nat>) {
    forall t :: t in running <==> t in tunnels && tunnels[t].forward.Some?
  }

  /** No reference dangles. */
  ghost predicate Linked(h: Heap) {
    && (forall x | x in h.held :: h.held[x] in h.runtimes)
    && (forall r | r in h.runtimes :: h.runtimes[r].tunnel in h.tunnels)
  }

  ghost predicate Good(h: Heap) {
    && Linked(h)
    && RuntimesCounted(h.held, h.runtimes, h.next)
    && TunnelsCounted(h.runtimes, h.tunnels, h.next)
    && ForwardsRun(h.tunnels, h.running)
  }

  lemma EmptyGood()
    ensures Good(EMPTY)
  {
  }

  /** What a holder sees: its snapshot, the tunnel it dials through and the forward there. */
  datatype View = View(data: Snapshot, forward: Option<Forward>, tunnel: nat)

  ghost function Seen(h: Heap, x: Holder): Option<View> {
    if x in h.held && h.held[x] in h.runtimes && h.runtimes[h.held[x]].tunnel in h.tunnels then
      var rt := h.runtimes[h.held[x]];
      Some(View(rt.data, h.tunnels[rt.tunnel].forward, rt.tunnel))
    else
      None
  }

  /** The same tunnel under another snapshot. */
  ghost function Recast(v: Option<View>, data: Snapshot): Option<View> {
    if v.Some? then Some(v.value.(data := data)) else None
  }

  /** A holder's snapshot dials through the forward with number `f`. */
  ghost predicate Uses(h: Heap, x: Holder, f: nat) {
    Seen(h, x).Some? && Seen(h, x).value.forward.Some? && Seen(h, x).value.tunnel == f
  }

  /** A local forward runs exactly while some holder's snapshot uses it: none is lost to a
      live session, and none is left behind. */
  lemma RunningExact(h: Heap, f: nat)
    requires Good(h)
    ensures f in h.running <==> exists x :: Uses(h, x, f)
  {
    if f in h.running {
      var r := SomeElement(SharersOf(h.runtimes, f));
      var x := SomeElement(HoldersOf(h.held, r));
      assert Uses(h, x, f);
    }
  }

  lemma SomeElement<T>(s: set<T>) returns (x: T)
    requires 0 < |s|
    ensures x in s
  {
    x :| x in s;
  }

  // ---- the operations ----

  /** The holders `xs` see in `k` what they saw in `h`. */
  ghost predicate SameFor(h: Heap, k: Heap, xs: set<Holder>) {
    forall x | x in xs :: Seen(k, x) == Seen(h, x)
  }

  /** A new snapshot over a new tunnel, held by the code that builds it. */
  function Fresh(h: Heap, data: Snapshot, forward: Option<Forward>): (k: Heap)
    requires Good(h) && Building !in h.held
    ensures Good(k) && k.held.Keys == h.held.Keys + {Building}
    ensures Seen(k, Building) == Some(View(data, forward, h.next)) && SameFor(h, k, h.held.Keys)
  {
    hide RuntimesCounted, TunnelsCounted, ForwardsRun, Linked, Seen, SameFor;
    FreshCounted(h, data, forward);
    FreshLinked(h, data, forward);
    FreshHeap(h, data, forward)
  }

  function FreshHeap(h: Heap, data: Snapshot, forward: Option<Forward>): Heap {
    Heap(h.held[Building := h.next],
         h.runtimes[h.next := Runtime(data, h.next, 1)],
         h.tunnels[h.next := Tunnel(forward, 1)],
         if forward.Some? then h.running + {h.next} else h.running,
         h.next + 1)
  }

  /** A new snapshot that shares the tunnel of the one `x` holds. */
  function Sharing(h: Heap, x: Holder, data: Snapshot): (k: Heap)
    requires Good(h) && Building !in h.held && x in h.held
    ensures Good(k) && k.held.Keys == h.held.Keys + {Building}
    ensures Seen(k, Building) == Recast(Seen(h, x), data) && SameFor(h, k, h.held.Keys)
  {
    hide RuntimesCounted, TunnelsCounted, ForwardsRun, Seen, SameFor;
    SharingKeeps(h, x, data);
    SharingHeap(h, x, data)
  }

  function SharingHeap(h: Heap, x: Holder, data: Snapshot): Heap
    requires Linked(h) && x in h.held
  {
    var t := h.runtimes[h.held[x]].tunnel;
    h.(held := h.held[Building := h.next],
       runtimes := h.runtimes[h.next := Runtime(data, t, 1)],
       tunnels := h.tunnels[t := h.tunnels[t].(strong := h.tunnels[t].strong + 1)],
       next := h.next + 1)
  }

  /** Another reference to the snapshot `x` holds. */
  function Clone(h: Heap, x: Holder, y: Holder): (k: Heap)
    requires Good(h) && x in h.held && y !in h.held
    ensures Good(k) && k.held.Keys == h.held.Keys + {y}
    ensures Seen(k, y) == Seen(h, x) && SameFor(h, k, h.held.Keys)
  {
    hide RuntimesCounted, TunnelsCounted, ForwardsRun, Seen, SameFor;
    CloneKeeps(h, x, y);
    CloneHeap(h, x, y)
  }

  function CloneHeap(h: Heap, x: Holder, y: Holder): Heap
    requires Linked(h) && x in h.held
  {
    var r := h.held[x];
    h.(held := h.held[y := r], runtimes := h.runtimes[r := h.runtimes[r].(strong := h.runtimes[r].strong + 1)])
  }

  /** Hand a reference over; no count changes. */
  function Move(h: Heap, x: Holder, y: Holder): (k: Heap)
    requires Good(h) && x in h.held && y !in h.held
    ensures Good(k) && k.held.Keys == h.held.Keys - {x} + {y}
    ensures Seen(k, y) == Seen(h, x) && SameFor(h, k, h.held.Keys - {x})
  {
    hide RuntimesCounted, TunnelsCounted;
    MoveCounted(h, x, y);
    h.(held := (h.held - {x})[y := h.held[x]])
  }

  /** Give up a reference. The last one takes the snapshot with it, and the last snapshot
      its tunnel, whose forward is aborted. */
  function Drop(h: Heap, x: Holder): (k: Heap)
    requires Good(h) && x in h.held
    ensures Good(k) && k.held.Keys == h.held.Keys - {x}
    ensures SameFor(h, k, h.held.Keys - {x})
  {
    hide TunnelsCounted, ForwardsRun, SameFor;
    if h.runtimes[h.held[x]].strong > 1 then
      DropCounted(h, x);
      DropLinked(h, x);
      Decremented(h, x)
    else
      ReleaseCounted(h, x);
      ReleaseLinked(h, x);
      Released(h, x)
  }

  function Decremented(h: Heap, x: Holder): Heap
    requires Linked(h) && x in h.held && h.runtimes[h.held[x]].strong > 1
  {
    var r := h.held[x];
    h.(held := h.held - {x}, runtimes := h.runtimes[r := h.runtimes[r].(strong := h.runtimes[r].strong - 1)])
  }

  /** A runtime nothing holds any more goes, and gives up its share of its tunnel. */
  function Released(h: Heap, x: Holder): Heap
    requires Linked(h) && x in h.held
  {
    var r := h.held[x];
    var held, runtimes := h.held - {x}, h.runtimes - {r};
    var t := h.runtimes[r].tunnel;
    var tn := h.tunnels[t];
    if tn.strong > 1 then
      h.(held := held, runtimes := runtimes, tunnels := h.tunnels[t := tn.(strong := tn.strong - 1)])
    else
      h.(held := held, runtimes := runtimes, tunnels := h.tunnels - {t}, running := h.running - {t})
  }

  // ---- what each operation leaves in place ----

  lemma FreshLinked(h: Heap, data: Snapshot, forward: Option<Forward>)
    requires Good(h) && Building !in h.held
    ensures var k := FreshHeap(h, data, forward);
      && Linked(k) && ForwardsRun(k.tunnels, k.running)
      && Seen(k, Building) == Some(View(data, forward, h.next)) && SameFor(h, k, h.held.Keys)
  {
    hide RuntimesCounted, TunnelsCounted;
    FreshNumber(h);
  }

  lemma SharingLinked(h: Heap, x: Holder, data: Snapshot)
    requires Good(h) && Building !in h.held && x in h.held
    ensures var k := SharingHeap(h, x, data);
      && Linked(k) && ForwardsRun(k.tunnels, k.running)
      && Seen(k, Building) == Recast(Seen(h, x), data) && SameFor(h, k, h.held.Keys)
  {
    hide RuntimesCounted, TunnelsCounted;
    FreshNumber(h);
  }

  lemma CloneLinked(h: Heap, x: Holder, y: Holder)
    requires Linked(h) && x in h.held && y !in h.held
    ensures var k := CloneHeap(h, x, y);
      Linked(k) && Seen(k, y) == Seen(h, x) && SameFor(h, k, h.held.Keys)
  {
  }

  lemma CloneKeeps(h: Heap, x: Holder, y: Holder)
    requires Good(h) && x in h.held && y !in h.held
    ensures var k := CloneHeap(h, x, y);
      Good(k) && Seen(k, y) == Seen(h, x) && SameFor(h, k, h.held.Keys)
  {
    hide RuntimesCounted, TunnelsCounted, ForwardsRun, Linked, Seen, SameFor;
    CloneCounted(h, x, y);
    CloneLinked(h, x, y);
  }

  lemma SharingKeeps(h: Heap, x: Holder, data: Snapshot)
    requires Good(h) && Building !in h.held && x in h.held
    ensures var k := SharingHeap(h, x, data);
      Good(k) && Seen(k, Building) == Recast(Seen(h, x), data) && SameFor(h, k, h.held.Keys)
  {
    hide RuntimesCounted, TunnelsCounted, ForwardsRun, Linked, Seen, SameFor;
    SharingCounted(h, x, data);
    SharingLinked(h, x, data);
  }

  lemma DropLinked(h: Heap, x: Holder)
    requires Linked(h) && x in h.held && h.runtimes[h.held[x]].strong > 1
    ensures var k := Decremented(h, x);
      Linked(k) && SameFor(h, k, h.held.Keys - {x})
  {
  }

  lemma ReleaseLinked(h: Heap, x: Holder)
    requires Good(h) && x in h.held && h.runtimes[h.held[x]].strong == 1
    ensures var k := Released(h, x);
      && Linked(k) && ForwardsRun(k.tunnels, k.running)
      && SameFor(h, k, h.held.Keys - {x})
  {
    LastHolder(h, x);
    if h.tunnels[h.runtimes[h.held[x]].tunnel].strong == 1 {
      LastSharer(h, h.held[x]);
    }
  }

  // ---- each operation keeps the counts right ----

  lemma FreshNumber(h: Heap)
    requires Good(h)
    ensures h.next !in h.runtimes && h.next !in h.tunnels
  {
  }

  lemma HoldersMore(held: map<Holder, nat>, y: Holder, r: nat)
    requires y !in held
    ensures forall q :: |HoldersOf(held[y := r], q)| == |HoldersOf(held, q)| + if q == r then 1 else 0
  {
    forall q
      ensures |HoldersOf(held[y := r], q)| == |HoldersOf(held, q)| + if q == r then 1 else 0
    {
      assert HoldersOf(held[y := r], q) == HoldersOf(held, q) + if q == r then {y} else {};
    }
  }

  lemma SharersMore(runtimes: map<nat, Runtime>, n: nat, rt: Runtime)
    requires n !in runtimes
    ensures forall t :: |SharersOf(runtimes[n := rt], t)| == |SharersOf(runtimes, t)| + if t == rt.tunnel then 1 else 0
  {
    forall t
      ensures |SharersOf(runtimes[n := rt], t)| == |SharersOf(runtimes, t)| + if t == rt.tunnel then 1 else 0
    {
      assert SharersOf(runtimes[n := rt], t) == SharersOf(runtimes, t) + if t == rt.tunnel then {n} else {};
    }
  }

  /** The numbers not handed out yet count nothing. */
  lemma NothingYet(h: Heap)
    requires Linked(h) && RuntimesCounted(h.held, h.runtimes, h.next) && TunnelsCounted(h.runtimes, h.tunnels, h.next)
    ensures HoldersOf(h.held, h.next) == {} && SharersOf(h.runtimes, h.next) == {}
  {
  }

  lemma FreshCounted(h: Heap, data: Snapshot, forward: Option<Forward>)
    requires Good(h) && Building !in h.held
    ensures var k := FreshHeap(h, data, forward);
      RuntimesCounted(k.held, k.runtimes, k.next) && TunnelsCounted(k.runtimes, k.tunnels, k.next)
  {
    hide HoldersOf, SharersOf;
    FreshNumber(h);
    NothingYet(h);
    HoldersMore(h.held, Building, h.next);
    SharersMore(h.runtimes, h.next, Runtime(data, h.next, 1));
  }

  lemma SharingCounted(h: Heap, x: Holder, data: Snapshot)
    requires Good(h) && Building !in h.held && x in h.held
    ensures var k := SharingHeap(h, x, data);
      RuntimesCounted(k.held, k.runtimes, k.next) && TunnelsCounted(k.runtimes, k.tunnels, k.next)
  {
    hide HoldersOf, SharersOf;
    FreshNumber(h);
    NothingYet(h);
    HoldersMore(h.held, Building, h.next);
    SharersMore(h.runtimes, h.next, Runtime(data, h.runtimes[h.held[x]].tunnel, 1));
  }

  lemma CloneCounted(h: Heap, x: Holder, y: Holder)
    requires Good(h) && x in h.held && y !in h.held
    ensures var k := CloneHeap(h, x, y);
      RuntimesCounted(k.held, k.runtimes, k.next) && TunnelsCounted(k.runtimes, k.tunnels, k.next)
  {
    hide HoldersOf, SharersOf;
    HoldersMore(h.held, y, h.held[x]);
    SameSharers(h.runtimes, h.held[x], h.runtimes[h.held[x]].strong + 1);
  }

  /** A runtime's own count is no concern of its tunnel's. */
  lemma SameSharers(runtimes: map<nat, Runtime>, r: nat, n: nat)
    requires r in runtimes
    ensures forall t :: SharersOf(runtimes[r := runtimes[r].(strong := n)], t) == SharersOf(runtimes, t)
  {
  }

  lemma MoveCounted(h: Heap, x: Holder, y: Holder)
    requires Linked(h) && RuntimesCounted(h.held, h.runtimes, h.next) && x in h.held && y !in h.held
    ensures RuntimesCounted((h.held - {x})[y := h.held[x]], h.runtimes, h.next)
  {
    var held := (h.held - {x})[y := h.held[x]];
    forall r | r in h.runtimes
      ensures |HoldersOf(held, r)| == |HoldersOf(h.held, r)|
    {
      if r == h.held[x] {
        assert HoldersOf(held, r) == HoldersOf(h.held, r) - {x} + {y};
      } else {
        assert HoldersOf(held, r) == HoldersOf(h.held, r);
      }
    }
  }

  lemma DropCounted(h: Heap, x: Holder)
    requires Good(h) && x in h.held && h.runtimes[h.held[x]].strong > 1
    ensures var k := Decremented(h, x);
      RuntimesCounted(k.held, k.runtimes, k.next) && TunnelsCounted(k.runtimes, k.tunnels, k.next)
  {
    hide HoldersOf, SharersOf;
    HoldersLess(h.held, x);
    SameSharers(h.runtimes, h.held[x], h.runtimes[h.held[x]].strong - 1);
  }

  lemma HoldersLess(held: map<Holder, nat>, x: Holder)
    requires x in held
    ensures forall q :: |HoldersOf(held - {x}, q)| == |HoldersOf(held, q)| - if q == held[x] then 1 else 0
  {
    forall q
      ensures |HoldersOf(held - {x}, q)| == |HoldersOf(held, q)| - if q == held[x] then 1 else 0
    {
      assert HoldersOf(held - {x}, q) == HoldersOf(held, q) - if q == held[x] then {x} else {};
      assert q == held[x] ==> x in HoldersOf(held, q);
    }
  }

  lemma SharersLess(runtimes: map<nat, Runtime>, r: nat)
    requires r in runtimes
    ensures forall t :: |SharersOf(runtimes - {r}, t)| == |SharersOf(runtimes, t)| - if t == runtimes[r].tunnel then 1 else 0
  {
    forall t
      ensures |SharersOf(runtimes - {r}, t)| == |SharersOf(runtimes, t)| - if t == runtimes[r].tunnel then 1 else 0
    {
      assert SharersOf(runtimes - {r}, t) == SharersOf(runtimes, t) - if t == runtimes[r].tunnel then {r} else {};
      assert t == runtimes[r].tunnel ==> r in SharersOf(runtimes, t);
    }
  }

  /** A count of one leaves nobody behind. */
  lemma LastHolder(h: Heap, x: Holder)
    requires Good(h) && x in h.held && h.runtimes[h.held[x]].strong == 1
    ensures forall y | y in h.held && y != x :: h.held[y] != h.held[x]
  {
    hide TunnelsCounted, ForwardsRun;
    var r := h.held[x];
    HoldersLess(h.held, x);
    assert |HoldersOf(h.held - {x}, r)| == 0;
    forall y | y in h.held && y != x
      ensures h.held[y] != r
    {
      assert y !in HoldersOf(h.held - {x}, r);
    }
  }

  lemma LastSharer(h: Heap, r: nat)
    requires Good(h) && r in h.runtimes && h.tunnels[h.runtimes[r].tunnel].strong == 1
    ensures forall q | q in h.runtimes && q != r :: h.runtimes[q].tunnel != h.runtimes[r].tunnel
  {
    hide RuntimesCounted, ForwardsRun;
    var t := h.runtimes[r].tunnel;
    SharersLess(h.runtimes, r);
    assert |SharersOf(h.runtimes - {r}, t)| == 0;
    forall q | q in h.runtimes && q != r
      ensures h.runtimes[q].tunnel != t
    {
      assert q !in SharersOf(h.runtimes - {r}, t);
    }
  }

  /** Removing a runtime gives up its share of a tunnel. */
  lemma ReleaseCounted(h: Heap, x: Holder)
    requires Good(h) && x in h.held && h.runtimes[h.held[x]].strong == 1
    ensures var k := Released(h, x);
      RuntimesCounted(k.held, k.runtimes, k.next) && TunnelsCounted(k.runtimes, k.tunnels, k.next)
  {
    hide HoldersOf, SharersOf;
    HoldersLess(h.held, x);
    SharersLess(h.runtimes, h.held[x]);
  }
}
