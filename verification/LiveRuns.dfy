/** Which envs a daemon serves after a run: exactly those that were brought up and not taken off
    since. And what that makes of refusing PostgreSQL envs at start-up. */
module LiveRuns {
  import opened Common
  import opened Policy
  import opened Config
  import opened SnapshotHeap
  import opened LiveEnvs
  import opened Daemon

  // ---- an import, env by env ----

  /** Some env up to the `i`th goes through the bastion and can open its session. */
  ghost predicate SessionBy(w: World, b: Name, order: seq<Name>, i: nat, luck: Name -> Luck) {
    exists j | 0 <= j <= i < |order| ::
      order[j] in w.disk.envs && w.disk.envs[order[j]].bastion == Some(b) && Opens(w, b, luck(order[j]))
  }

  /** The `i`th env can be built, once those before it have been, and its port bound. */
  ghost predicate UpAt(w: World, order: seq<Name>, i: nat, luck: Name -> Luck)
    requires i < |order|
  {
    var l := luck(order[i]);
    && order[i] in w.disk.envs && w.disk.envs[order[i]].engine != MsSql && l.builds && l.binds
    && match w.disk.envs[order[i]].bastion
       case None => true
       case Some(b) => l.forwards && (Cached(w, b) || SessionBy(w, b, order, i, luck))
  }

  /** So can every one before it: an import goes up to the first failure. */
  ghost predicate UpTo(w: World, order: seq<Name>, i: nat, luck: Name -> Luck) {
    i < |order| && forall j | 0 <= j <= i :: UpAt(w, order, j, luck)
  }

  /** The import reaches the env and brings it up. */
  ghost predicate ImportedUp(w: World, order: seq<Name>, luck: Name -> Luck, n: Name) {
    exists i: nat | i < |order| :: order[i] == n && UpTo(w, order, i, luck)
  }

  lemma AddCached(w: World, n: Name, l: Luck)
    requires Valid(w.disk) && Books(w) && n in w.disk.envs
    ensures forall b :: Cached(AddLive(w, n, l).0, b) <==>
      Cached(w, b) || (w.disk.envs[n].bastion == Some(b) && Opens(w, b, l))
  {
    hide Good, Build, Opens, Drop, Move;
    BuildKeeps(w, n, l);
    BuildExact(w, n, l);
  }

  /** What the first env has opened, later ones find. */
  lemma UpShifted(w: World, v: World, order: seq<Name>, luck: Name -> Luck)
    requires |order| > 0 && order[0] in w.disk.envs && v.disk == w.disk && v.tofu == w.tofu
    requires forall b :: Cached(v, b) <==>
      Cached(w, b) || (w.disk.envs[order[0]].bastion == Some(b) && Opens(w, b, luck(order[0])))
    ensures forall i | 1 <= i < |order| :: UpAt(v, order[1..], i - 1, luck) <==> UpAt(w, order, i, luck)
  {
    hide Opens, Cached;
    var rest := order[1..];
    forall i, b | 1 <= i < |order|
      ensures (Cached(v, b) || SessionBy(v, b, rest, i - 1, luck)) <==> (Cached(w, b) || SessionBy(w, b, order, i, luck))
    {
      SameOpens(w, v, b);
      if SessionBy(v, b, rest, i - 1, luck) {
        var j :| 0 <= j <= i - 1 && rest[j] in v.disk.envs && v.disk.envs[rest[j]].bastion == Some(b) && Opens(v, b, luck(rest[j]));
        assert order[j + 1] == rest[j];
      }
      if SessionBy(w, b, order, i, luck) {
        var j :| 0 <= j <= i && order[j] in w.disk.envs && w.disk.envs[order[j]].bastion == Some(b) && Opens(w, b, luck(order[j]));
        if j > 0 {
          assert rest[j - 1] == order[j];
        }
      }
    }
  }

  lemma UpFirst(w: World, order: seq<Name>, luck: Name -> Luck)
    requires |order| > 0 && order[0] in w.disk.envs
    ensures UpAt(w, order, 0, luck) <==> CanBuild(w, order[0], luck(order[0])) && luck(order[0]).binds
  {
    hide Opens, Cached;
  }

  /** An import serves exactly the envs up to the first that cannot come up. */
  lemma {:induction false} AddAllExact(w: World, order: seq<Name>, luck: Name -> Luck)
    requires Valid(w.disk) && OnDisk(w, order) && NoneLive(w, order) && Served(w, {})
    ensures forall n :: n in AddAll(w, order, luck).0.live <==> n in w.live || ImportedUp(w, order, luck, n)
    decreases |order|
  {
    hide Books, Seen, CacheTrusted, LiveAgrees, LiveTrusted, AddLive, UpAt, Valid;
    if |order| > 0 {
      var n, rest := order[0], order[1..];
      FirstNew(w, order, luck(n));
      AddServes(w, n, luck(n));
      AddExact(w, n, luck(n));
      AddCached(w, n, luck(n));
      UpFirst(w, order, luck);
      var (v, ok) := AddLive(w, n, luck(n));
      if ok {
        UpShifted(w, v, order, luck);
        AddAllExact(v, rest, luck);
        ImportShifted(w, v, order, luck);
      }
    }
  }

  lemma ImportShifted(w: World, v: World, order: seq<Name>, luck: Name -> Luck)
    requires |order| > 0 && UpAt(w, order, 0, luck)
    requires forall i | 1 <= i < |order| :: UpAt(v, order[1..], i - 1, luck) <==> UpAt(w, order, i, luck)
    ensures forall n :: ImportedUp(w, order, luck, n) <==> n == order[0] || ImportedUp(v, order[1..], luck, n)
  {
    hide UpAt;
    var rest := order[1..];
    forall i: nat | 1 <= i < |order|
      ensures UpTo(v, rest, i - 1, luck) <==> UpTo(w, order, i, luck)
    {
      assert forall j | 1 <= j <= i :: UpAt(v, rest, j - 1, luck) <==> UpAt(w, order, j, luck);
      if UpTo(w, order, i, luck) {
        forall j | 0 <= j <= i - 1
          ensures UpAt(v, rest, j, luck)
        {
          assert UpAt(w, order, j + 1, luck);
        }
      }
    }
    assert UpTo(w, order, 0, luck);
    forall n | ImportedUp(v, rest, luck, n)
      ensures ImportedUp(w, order, luck, n)
    {
      var i: nat :| i < |rest| && rest[i] == n && UpTo(v, rest, i, luck);
      assert order[i + 1] == n && UpTo(w, order, i + 1, luck);
    }
    forall n | ImportedUp(w, order, luck, n)
      ensures n == order[0] || ImportedUp(v, rest, luck, n)
    {
      var i: nat :| i < |order| && order[i] == n && UpTo(w, order, i, luck);
      if i > 0 {
        assert rest[i - 1] == n && UpTo(v, rest, i - 1, luck);
      }
    }
  }

  // ---- one event ----

  /** A saved request brings the env up: an add whose backend can be built and port bound, or an
      import that gets as far. */
  ghost predicate ComesUp(w: World, h: Hashes, e: Event, n: Name) {
    Saves(w, h, e) &&
    match e.change
    case AddEnv(args, _) =>
      n == args.name && n in Saved(w, h, e).disk.envs && CanBuild(Saved(w, h, e), n, e.luck(n)) && e.luck(n).binds
    case Import(_) => ImportedUp(Saved(w, h, e), e.order, e.luck, n)
    case _ => false
  }

  /** A saved request takes the env off: its removal, or a re-pin after which it cannot be
      rebuilt. */
  ghost predicate TakesOff(w: World, h: Hashes, e: Event, n: Name) {
    Saves(w, h, e) &&
    match e.change
    case RmEnv(m) => n == m
    case SetFingerprint(b, _) =>
      exists i: nat | i < |e.order| :: e.order[i] == n && !RebuiltAt(Saved(w, h, e), b, e.order, i, e.luck)
    case _ => false
  }

  /** The `i`th env of a re-pin can be rebuilt: some live env up to it opens the session. */
  ghost predicate RebuiltAt(w: World, b: Name, order: seq<Name>, i: nat, luck: Name -> Luck)
    requires i < |order|
  {
    luck(order[i]).forwards && luck(order[i]).builds && OpenedBy(w, b, order, i, luck)
  }

  /** Exactly what one event makes of the envs served. */
  lemma LiveExact(w: World, h: Hashes, e: Event, n: Name)
    requires Inv(w) && Orderly(w, h, e)
    ensures n in Step(w, h, e).0.live <==> ComesUp(w, h, e, n) || (n in w.live && !TakesOff(w, h, e, n))
  {
    hide Inv, Books, Orderly, Step, Saved, Save, CanBuild, ImportedUp, RebuiltAt;
    if !Saves(w, h, e) {
      LiveUnsaved(w, h, e);
    } else {
      match e.change
      case SetFingerprint(_, _) => LiveRepinned(w, h, e, n);
      case RotateCred(_, _) => LiveRotated(w, h, e);
      case AddEnv(_, _) => LiveAdded(w, h, e, n);
      case Import(_) => LiveImported(w, h, e, n);
      case RmEnv(_) => LiveRemoved(w, h, e);
      case _ => LiveKept(w, h, e);
    }
  }

  lemma LiveUnsaved(w: World, h: Hashes, e: Event)
    requires Inv(w) && Orderly(w, h, e) && !Saves(w, h, e)
    ensures Step(w, h, e).0.live.Keys == w.live.Keys
  {
    hide Books, CacheTrusted, LiveAgrees, LiveTrusted, Apply, Bring, Valid, Seen, Open, Close, Persist;
    match e
    case Connect(n) =>
      if n in w.live {
        OpenFields(w, n);
      }
    case Leave(n, i) =>
      if n in w.live && i < |w.live[n]| {
        CloseFields(w, n, i);
      }
    case Ask(_, _, _, _, _) =>
  }

  lemma LiveRepinned(w: World, h: Hashes, e: Event, n: Name)
    requires Inv(w) && Orderly(w, h, e) && Saves(w, h, e) && e.change.SetFingerprint?
    ensures n in Step(w, h, e).0.live <==> n in w.live && !TakesOff(w, h, e, n)
  {
    hide Inv, Books, Step, Save, Persist, RebuiltAt, Served, SessionsKept, UpToDate, Orderly;
    RepinStep(w, h, e);
    var offline := Offline(Step(w, h, e).1);
    PersistFields(w, Save(w, h, e.change, e.saved).value, e.change);
    forall i: nat | i < |e.order| && e.order[i] == n
      ensures n in offline <==> n in w.live && !RebuiltAt(Saved(w, h, e), e.change.name, e.order, i, e.luck)
    {
      RebuiltAnswer(w, h, e, i);
    }
    if n in offline {
      var i: nat :| i < |e.order| && e.order[i] == n;
    }
  }

  lemma RebuiltAnswer(w: World, h: Hashes, e: Event, i: nat)
    requires Inv(w) && Orderly(w, h, e) && Saves(w, h, e) && e.change.SetFingerprint? && i < |e.order|
    ensures e.order[i] in Offline(Step(w, h, e).1) <==>
      e.order[i] in w.live && !RebuiltAt(Saved(w, h, e), e.change.name, e.order, i, e.luck)
  {
    hide Inv, Orderly, Step, Saved, OpenedBy;
    RepinOfflineExact(w, h, e, i);
  }

  lemma LiveRotated(w: World, h: Hashes, e: Event)
    requires Inv(w) && Orderly(w, h, e) && Saves(w, h, e) && e.change.RotateCred?
    ensures Step(w, h, e).0.live == w.live
  {
    hide Inv, Books, Step, Served, SessionsKept, UpToDate;
    var k := RotationStep(w, h, e);
  }

  lemma LiveAdded(w: World, h: Hashes, e: Event, n: Name)
    requires Inv(w) && Orderly(w, h, e) && Saves(w, h, e) && e.change.AddEnv?
    ensures n in Step(w, h, e).0.live <==> ComesUp(w, h, e, n) || n in w.live
  {
    hide Books, CacheTrusted, LiveAgrees, LiveTrusted, Apply, AddLive, Seen, CanBuild;
    var v := Saved(w, h, e);
    SaveKeeps(w, h, e.change);
    SaveMakesReady(w, h, e.change, e.order);
    var m := e.change.args.name;
    AddKeeps(v, m, e.luck(m));
    AddExact(v, m, e.luck(m));
  }

  lemma LiveImported(w: World, h: Hashes, e: Event, n: Name)
    requires Inv(w) && Orderly(w, h, e) && Saves(w, h, e) && e.change.Import?
    ensures n in Step(w, h, e).0.live <==> ComesUp(w, h, e, n) || n in w.live
  {
    hide Books, CacheTrusted, LiveAgrees, LiveTrusted, Apply, AddAll, Seen, ImportedUp;
    SaveKeeps(w, h, e.change);
    SaveMakesReady(w, h, e.change, e.order);
    AddAllExact(Saved(w, h, e), e.order, e.luck);
  }

  lemma LiveRemoved(w: World, h: Hashes, e: Event)
    requires Inv(w) && Orderly(w, h, e) && Saves(w, h, e) && e.change.RmEnv?
    ensures Step(w, h, e).0.live == w.live - {e.change.name}
  {
    hide Books, CacheTrusted, LiveAgrees, LiveTrusted, Apply, RmLive, Seen;
    SaveKeeps(w, h, e.change);
    RmKeeps(Saved(w, h, e), e.change.name);
  }

  lemma LiveKept(w: World, h: Hashes, e: Event)
    requires Inv(w) && Orderly(w, h, e) && Saves(w, h, e)
    requires !e.change.SetFingerprint? && !e.change.RotateCred? && !e.change.AddEnv? && !e.change.Import? && !e.change.RmEnv?
    ensures Step(w, h, e).0.live == w.live
  {
    hide Books, CacheTrusted, LiveAgrees, LiveTrusted, Apply, Seen, Swap, Rewritten;
    SaveKeeps(w, h, e.change);
    SaveMakesReady(w, h, e.change, e.order);
    var v := Saved(w, h, e);
    if (e.change.Grant? || e.change.SetPolicy?) && e.change.name in v.live {
      SwapKeeps(v, e.change.name, Rewritten(v, e.change));
    }
  }

  // ---- connections ----

  /** A connection to a live env is a new session of it, which sees what is published then; to any
      other env it is nothing. */
  lemma ConnectExact(w: World, h: Hashes, n: Name)
    requires Inv(w)
    ensures Orderly(w, h, Connect(n))
    ensures var v := Step(w, h, Connect(n)).0;
      && (n !in w.live ==> v == w)
      && (n in w.live ==>
            && v.live == w.live[n := w.live[n] + [w.nextId]] && w.nextId !in w.live[n]
            && Seen(v.heap, InFlight(w.nextId, n)) == PublishedView(w, n) && PublishedView(v, n) == PublishedView(w, n))
  {
    hide Good, Seen, CacheTrusted, LiveAgrees, LiveTrusted, Open;
    if n in w.live {
      OpenKeeps(w, n);
      OpenFields(w, n);
    }
  }

  /** A session that leaves is gone, and only it. */
  lemma LeaveExact(w: World, h: Hashes, n: Name, i: nat)
    requires Inv(w)
    ensures Orderly(w, h, Leave(n, i))
    ensures var v := Step(w, h, Leave(n, i)).0;
      && (!(n in w.live && i < |w.live[n]|) ==> v == w)
      && (n in w.live && i < |w.live[n]| ==>
            && v.live.Keys == w.live.Keys && (forall m | m in w.live && m != n :: v.live[m] == w.live[m])
            && (forall id :: id in v.live[n] <==> id in w.live[n] && id != w.live[n][i])
            && Seen(v.heap, InFlight(w.live[n][i], n)) == None)
  {
    hide Good, CacheTrusted, LiveAgrees, LiveTrusted, Close;
    if n in w.live && i < |w.live[n]| {
      CloseKeeps(w, n, i);
      CloseFields(w, n, i);
      WithoutOne(w.live[n], i);
    }
  }

  // ---- the answers ----

  /** A request that is not saved is denied if it asks for read-write access unconfirmed, else
      refused; either way nothing changes. It is saved exactly if the change applies, leaves a
      valid configuration, and the disk takes it. */
  lemma UnsavedAnswer(w: World, h: Hashes, e: Event)
    requires Inv(w) && Orderly(w, h, e) && e.Ask?
    ensures var gated := e.change.SetPolicy? && e.change.readWrite && !e.confirmed;
      && (gated ==> Step(w, h, e) == (w, Denied))
      && (!gated && !Saves(w, h, e) ==> Step(w, h, e) == (w, Refused))
      && (Saves(w, h, e) <==> !gated && e.saved && Apply(w.disk, h, e.change).Ok? && Valid(Apply(w.disk, h, e.change).value))
  {
    hide Apply, Bring, Valid, Books;
  }

  /** What a saved request is answered, told by the envs that are live afterwards. */
  lemma SavedAnswer(w: World, h: Hashes, e: Event)
    requires Inv(w) && Orderly(w, h, e) && Saves(w, h, e)
    ensures var (v, answer) := Step(w, h, e);
      match e.change
      case AddEnv(a, _) => answer == if a.name in v.live then Token else TokenButNotLive
      case Import(_) =>
        && (answer == Done <==> forall n | n in e.change.fragment.envs :: n in v.live)
        && (answer != Done ==> exists k: nat :: StopsAtEnv(e.order, v.live.Keys, k) && answer == NotApplied(e.order[k]))
      case SetPolicy(n, _) => answer == if n in w.live then Done else NotApplied(n)
      case Grant(n, _) => answer == if n in w.live then Token else TokenButNotLive
      case SetFingerprint(_, _) => answer == Done || answer.Stopped?
      case RotateCred(_, _) => answer == Done || answer.NotApplied?
      case _ => answer == Done
  {
    hide Inv, Books, Orderly, Step, Saved, Save, Served, SessionsKept, RepinDone, RotateDone, Unreachable;
    match e.change
    case AddEnv(_, _) => AddAnswer(w, h, e);
    case Import(_) => ImportAnswer(w, h, e);
    case SetFingerprint(_, _) => RepinStep(w, h, e);
    case RotateCred(_, _) => var k := RotationStep(w, h, e);
    case _ => PlainAnswer(w, h, e);
  }

  /** The first env of the order that is not among the live ones. */
  ghost predicate StopsAtEnv(order: seq<Name>, live: set<Name>, k: nat) {
    k < |order| && order[k] !in live && forall j | 0 <= j < k :: order[j] in live
  }

  lemma AddAnswer(w: World, h: Hashes, e: Event)
    requires Inv(w) && Orderly(w, h, e) && Saves(w, h, e) && e.change.AddEnv?
    ensures var (v, answer) := Step(w, h, e); answer == if e.change.args.name in v.live then Token else TokenButNotLive
  {
    hide Books, CacheTrusted, LiveAgrees, LiveTrusted, Apply, AddLive, Seen;
    SaveKeeps(w, h, e.change);
    SaveMakesReady(w, h, e.change, e.order);
    var m := e.change.args.name;
    AddKeeps(Saved(w, h, e), m, e.luck(m));
  }

  lemma ImportAnswer(w: World, h: Hashes, e: Event)
    requires Inv(w) && Orderly(w, h, e) && Saves(w, h, e) && e.change.Import?
    ensures var (v, answer) := Step(w, h, e);
      && (answer == Done <==> forall n | n in e.change.fragment.envs :: n in v.live)
      && (answer != Done ==> exists k: nat :: StopsAtEnv(e.order, v.live.Keys, k) && answer == NotApplied(e.order[k]))
  {
    hide Books, CacheTrusted, LiveAgrees, LiveTrusted, Apply, AddAll, Seen, UpToDate;
    SaveKeeps(w, h, e.change);
    SaveMakesReady(w, h, e.change, e.order);
    var x := Saved(w, h, e);
    AddAllKeeps(x, e.order, e.luck);
    var (v, k) := AddAll(x, e.order, e.luck);
    assert forall j | 0 <= j < k :: e.order[j] == e.order[..k][j];
    assert forall n | n in e.change.fragment.envs :: n in e.order;
    assert forall j | 0 <= j < |e.order| :: e.order[j] in e.order;
    if k < |e.order| {
      assert e.order[k] !in e.order[..k];
      assert StopsAtEnv(e.order, v.live.Keys, k);
    }
  }

  lemma PlainAnswer(w: World, h: Hashes, e: Event)
    requires Inv(w) && Orderly(w, h, e) && Saves(w, h, e)
    requires !e.change.SetFingerprint? && !e.change.RotateCred? && !e.change.AddEnv? && !e.change.Import?
    ensures var answer := Step(w, h, e).1;
      match e.change
      case SetPolicy(n, _) => answer == if n in w.live then Done else NotApplied(n)
      case Grant(n, _) => answer == if n in w.live then Token else TokenButNotLive
      case _ => answer == Done
  {
    hide Books, CacheTrusted, LiveAgrees, LiveTrusted, Apply, Seen, Swap, Rewritten, RmLive;
    SaveKeeps(w, h, e.change);
    SaveMakesReady(w, h, e.change, e.order);
  }

  // ---- which envs of an engine are served ----

  ghost predicate Serves(w: World, engine: Engine, n: Name) {
    n in w.live && n in w.disk.envs && w.disk.envs[n].engine == engine
  }

  /** The event saves an env of this engine, or finds it saved, and brings it up. */
  ghost predicate Brings(w: World, h: Hashes, e: Event, engine: Engine, n: Name) {
    && ComesUp(w, h, e, n)
    && n in Saved(w, h, e).disk.envs && Saved(w, h, e).disk.envs[n].engine == engine
  }

  lemma ServesStep(w: World, h: Hashes, e: Event, engine: Engine, n: Name)
    requires Inv(w) && Orderly(w, h, e)
    ensures Serves(Step(w, h, e).0, engine, n) <==>
      Brings(w, h, e, engine, n) || (Serves(w, engine, n) && !TakesOff(w, h, e, n))
  {
    hide Books, CacheTrusted, LiveTrusted, Seen, Orderly, Step, Apply, TakesOff, CanBuild, ImportedUp;
    var v := Step(w, h, e).0;
    LiveExact(w, h, e, n);
    StepDisk(w, h, e);
    StepKeeps(w, h, e);
    assert n in w.live ==> LiveAgrees(w, n);
    assert n in v.live ==> LiveAgrees(v, n);
    if n in w.live && n in v.live && Saves(w, h, e) {
      EnvsStayPut(w.disk, h, e.change, n);
    }
  }

  // ---- every run ----

  /** The state before the `k`th event of a run. */
  ghost function StateAt(w: World, h: Hashes, es: seq<Event>, k: nat): (v: World)
    requires Inv(w) && AllOrderly(w, h, es) && k <= |es|
    ensures Inv(v) && (k < |es| ==> Orderly(v, h, es[k]))
    decreases k
  {
    hide Inv, Orderly, Step;
    if k == 0 then w else
      StepKeeps(w, h, es[0]);
      StateAt(Step(w, h, es[0]).0, h, es[1..], k - 1)
  }

  ghost predicate BroughtAt(w: World, h: Hashes, es: seq<Event>, i: nat, engine: Engine, n: Name)
    requires Inv(w) && AllOrderly(w, h, es) && i < |es|
  {
    Brings(StateAt(w, h, es, i), h, es[i], engine, n)
  }

  /** Some event from the `i`th on takes the env off. */
  ghost predicate OffSince(w: World, h: Hashes, es: seq<Event>, i: nat, n: Name)
    requires Inv(w) && AllOrderly(w, h, es)
  {
    exists j: nat | i <= j < |es| :: TakesOff(StateAt(w, h, es, j), h, es[j], n)
  }

  /** Some event of the run brings the env up, and none after it takes it off. */
  ghost predicate BroughtAndKept(w: World, h: Hashes, es: seq<Event>, engine: Engine, n: Name)
    requires Inv(w) && AllOrderly(w, h, es)
  {
    exists i: nat | i < |es| :: BroughtAt(w, h, es, i, engine, n) && !OffSince(w, h, es, i + 1, n)
  }

  /** Exactly which envs of an engine are served after any run. */
  lemma {:induction false} ServedExact(w: World, h: Hashes, es: seq<Event>, engine: Engine, n: Name)
    requires Inv(w) && AllOrderly(w, h, es)
    ensures Serves(Run(w, h, es), engine, n) <==>
      (Serves(w, engine, n) && !OffSince(w, h, es, 0, n)) || BroughtAndKept(w, h, es, engine, n)
    decreases |es|
  {
    hide Inv, Orderly, Step, Serves, Brings, TakesOff;
    if |es| > 0 {
      StepKeeps(w, h, es[0]);
      var v := Step(w, h, es[0]).0;
      ServesStep(w, h, es[0], engine, n);
      ServedExact(v, h, es[1..], engine, n);
      OffShifted(w, h, es, n);
      BroughtShifted(w, h, es, engine, n);
    }
  }

  lemma OffShifted(w: World, h: Hashes, es: seq<Event>, n: Name)
    requires Inv(w) && AllOrderly(w, h, es) && |es| > 0
    ensures var v := Step(w, h, es[0]).0;
      && Inv(v) && AllOrderly(v, h, es[1..])
      && (forall i: nat :: OffSince(w, h, es, i + 1, n) <==> OffSince(v, h, es[1..], i, n))
      && (OffSince(w, h, es, 0, n) <==> TakesOff(w, h, es[0], n) || OffSince(v, h, es[1..], 0, n))
  {
    hide Inv, Orderly, Step, TakesOff;
    StepKeeps(w, h, es[0]);
    var v := Step(w, h, es[0]).0;
    forall j: nat | j < |es| - 1
      ensures StateAt(w, h, es, j + 1) == StateAt(v, h, es[1..], j) && es[j + 1] == es[1..][j]
    {
    }
    forall i: nat
      ensures OffSince(w, h, es, i + 1, n) <==> OffSince(v, h, es[1..], i, n)
    {
      if OffSince(w, h, es, i + 1, n) {
        var j: nat :| i + 1 <= j < |es| && TakesOff(StateAt(w, h, es, j), h, es[j], n);
        assert TakesOff(StateAt(v, h, es[1..], j - 1), h, es[1..][j - 1], n);
      }
      if OffSince(v, h, es[1..], i, n) {
        var j: nat :| i <= j < |es| - 1 && TakesOff(StateAt(v, h, es[1..], j), h, es[1..][j], n);
        assert TakesOff(StateAt(w, h, es, j + 1), h, es[j + 1], n);
      }
    }
    assert StateAt(w, h, es, 0) == w;
    if OffSince(w, h, es, 0, n) && !TakesOff(w, h, es[0], n) {
      assert OffSince(w, h, es, 1, n);
    }
    assert OffSince(w, h, es, 1, n) ==> OffSince(w, h, es, 0, n);
  }

  lemma BroughtShifted(w: World, h: Hashes, es: seq<Event>, engine: Engine, n: Name)
    requires Inv(w) && AllOrderly(w, h, es) && |es| > 0
    ensures var v := Step(w, h, es[0]).0;
      && Inv(v) && AllOrderly(v, h, es[1..])
      && (BroughtAndKept(w, h, es, engine, n) <==>
            || (Brings(w, h, es[0], engine, n) && !OffSince(v, h, es[1..], 0, n))
            || BroughtAndKept(v, h, es[1..], engine, n))
  {
    hide Inv, Orderly, Step, TakesOff, Brings, OffSince;
    OffShifted(w, h, es, n);
    var v := Step(w, h, es[0]).0;
    assert BroughtAt(w, h, es, 0, engine, n) <==> Brings(w, h, es[0], engine, n);
    assert OffSince(w, h, es, 0 + 1, n) <==> OffSince(v, h, es[1..], 0, n);
    forall i: nat | i < |es| - 1
      ensures BroughtAt(w, h, es, i + 1, engine, n) <==> BroughtAt(v, h, es[1..], i, engine, n)
    {
    }
    if BroughtAndKept(v, h, es[1..], engine, n) {
      var i: nat :| i < |es| - 1 && BroughtAt(v, h, es[1..], i, engine, n) && !OffSince(v, h, es[1..], i + 1, n);
      assert BroughtAt(w, h, es, i + 1, engine, n);
    }
    if BroughtAndKept(w, h, es, engine, n) {
      var i: nat :| i < |es| && BroughtAt(w, h, es, i, engine, n) && !OffSince(w, h, es, i + 1, n);
      if i > 0 {
        assert BroughtAt(v, h, es[1..], i - 1, engine, n);
      }
    }
  }

  // ---- the cleartext refusal holds at start-up only ----

  ghost predicate HasPostgres(c: Config) {
    exists n :: n in c.envs && c.envs[n].engine == Postgres
  }

  /** Where cleartext tokens are refused, a start fails exactly if a PostgreSQL env is on disk or
      it would fail anyway. */
  lemma BootRefusal(c: Config, tofu: bool, idleFlag: Option<nat>, order: seq<Name>, luck: Name -> Luck)
    requires Lists(order, c.envs.Keys)
    ensures Boot(c, tofu, idleFlag, true, order, luck) ==
      if HasPostgres(c) then None else Boot(c, tofu, idleFlag, false, order, luck)
  {
    hide Books, Start;
    BlankReady(c, tofu, idleFlag, order);
    var w := Blank(Overridden(c, idleFlag), tofu, idleFlag);
    ServedBooks(w);
    RefusalExact(w, order, luck);
    assert forall n | n in c.envs :: w.disk.envs[n].engine == c.envs[n].engine && n in order;
  }

  /** The env is one the start passes over, or can be built, once those before it have been, and
      its port bound. */
  ghost predicate StartsAt(w: World, order: seq<Name>, i: nat, luck: Name -> Luck)
    requires i < |order|
  {
    var n, l := order[i], luck(order[i]);
    && n in w.disk.envs
    && (w.disk.envs[n].engine == MsSql ||
        (l.builds && l.binds
         && match w.disk.envs[n].bastion
            case None => true
            case Some(b) => l.forwards && (Cached(w, b) || StartsSession(w, b, order, i, luck))))
  }

  /** Some env up to the `i`th, not passed over, goes through the bastion and can open its
      session. */
  ghost predicate StartsSession(w: World, b: Name, order: seq<Name>, i: nat, luck: Name -> Luck) {
    exists j | 0 <= j <= i < |order| :: Dials(w, b, order[j], luck)
  }

  ghost predicate Dials(w: World, b: Name, n: Name, luck: Name -> Luck) {
    && n in w.disk.envs && w.disk.envs[n].engine != MsSql && w.disk.envs[n].bastion == Some(b)
    && Opens(w, b, luck(n))
  }

  /** What the first env has opened, later ones find. */
  lemma StartShifted(w: World, v: World, order: seq<Name>, luck: Name -> Luck)
    requires |order| > 0 && v.disk == w.disk && v.tofu == w.tofu
    requires forall b :: Cached(v, b) <==> Cached(w, b) || Dials(w, b, order[0], luck)
    ensures forall i: nat | 1 <= i < |order| :: StartsAt(v, order[1..], i - 1, luck) <==> StartsAt(w, order, i, luck)
  {
    hide Opens, Cached;
    var rest := order[1..];
    forall i: nat, b | 1 <= i < |order|
      ensures (Cached(v, b) || StartsSession(v, b, rest, i - 1, luck)) <==> (Cached(w, b) || StartsSession(w, b, order, i, luck))
    {
      SameOpens(w, v, b);
      if StartsSession(v, b, rest, i - 1, luck) {
        var j :| 0 <= j <= i - 1 && Dials(v, b, rest[j], luck);
        assert Dials(w, b, order[j + 1], luck);
      }
      if StartsSession(w, b, order, i, luck) {
        var j :| 0 <= j <= i && Dials(w, b, order[j], luck);
        if j > 0 {
          assert Dials(v, b, rest[j - 1], luck);
        }
      }
    }
  }

  lemma StartFirst(w: World, order: seq<Name>, luck: Name -> Luck)
    requires |order| > 0 && order[0] in w.disk.envs && w.disk.envs[order[0]].engine != MsSql
    ensures StartsAt(w, order, 0, luck) <==> CanBuild(w, order[0], luck(order[0])) && luck(order[0]).binds
  {
    hide Opens, Cached;
    assert forall b :: StartsSession(w, b, order, 0, luck) <==> Dials(w, b, order[0], luck);
  }

  /** A start that refuses nothing succeeds exactly if every env it does not pass over can be
      brought up in its turn. */
  lemma {:induction false} StartExact(w: World, order: seq<Name>, luck: Name -> Luck)
    requires Valid(w.disk) && OnDisk(w, order) && NoneLive(w, order) && Served(w, {})
    ensures Start(w, false, order, luck).Some? <==> forall i: nat | i < |order| :: StartsAt(w, order, i, luck)
    decreases |order|
  {
    hide Books, Seen, CacheTrusted, LiveAgrees, LiveTrusted, AddLive, StartsAt, Valid, Cached, Opens;
    if |order| > 0 {
      var n, rest := order[0], order[1..];
      FirstNew(w, order, luck(n));
      if w.disk.envs[n].engine == MsSql {
        StartShifted(w, w, order, luck);
        StartExact(w, rest, luck);
        PassedOver(w, order, luck);
        AllShifted(w, w, order, luck);
      } else {
        AddServes(w, n, luck(n));
        AddExact(w, n, luck(n));
        AddCached(w, n, luck(n));
        StartFirst(w, order, luck);
        var (v, ok) := AddLive(w, n, luck(n));
        if ok {
          StartShifted(w, v, order, luck);
          StartExact(v, rest, luck);
          AllShifted(w, v, order, luck);
        }
      }
    }
  }

  lemma PassedOver(w: World, order: seq<Name>, luck: Name -> Luck)
    requires |order| > 0 && order[0] in w.disk.envs && w.disk.envs[order[0]].engine == MsSql
    ensures StartsAt(w, order, 0, luck)
  {
  }

  lemma AllShifted(w: World, v: World, order: seq<Name>, luck: Name -> Luck)
    requires |order| > 0 && StartsAt(w, order, 0, luck)
    requires forall i: nat | 1 <= i < |order| :: StartsAt(v, order[1..], i - 1, luck) <==> StartsAt(w, order, i, luck)
    ensures (forall i: nat | i < |order| :: StartsAt(w, order, i, luck)) <==>
      forall i: nat | i < |order| - 1 :: StartsAt(v, order[1..], i, luck)
  {
    hide StartsAt;
    if forall i: nat | i < |order| :: StartsAt(w, order, i, luck) {
      forall i: nat | i < |order| - 1
        ensures StartsAt(v, order[1..], i, luck)
      {
        assert StartsAt(w, order, i + 1, luck);
      }
    }
  }

  /** Exactly when the daemon starts: no PostgreSQL env on disk where these are refused, and every
      env on disk comes up in its turn, but for those whose engine does not exist. */
  lemma BootExact(c: Config, tofu: bool, idleFlag: Option<nat>, refuseCleartext: bool, order: seq<Name>, luck: Name -> Luck)
    requires Valid(c) && Lists(order, c.envs.Keys)
    ensures Boot(c, tofu, idleFlag, refuseCleartext, order, luck).Some? <==>
      && !(refuseCleartext && HasPostgres(c))
      && forall i: nat | i < |order| :: StartsAt(Blank(c, tofu, idleFlag), order, i, luck)
  {
    hide Books, Start, Served, HasPostgres, StartsAt;
    BlankReady(c, tofu, idleFlag, order);
    if refuseCleartext {
      BootRefusal(c, tofu, idleFlag, order, luck);
    }
    var w := Blank(Overridden(c, idleFlag), tofu, idleFlag);
    OverriddenValid(c, idleFlag);
    StartExact(w, order, luck);
    forall i: nat | i < |order|
      ensures StartsAt(w, order, i, luck) <==> StartsAt(Blank(c, tofu, idleFlag), order, i, luck)
    {
      SameStart(c, tofu, idleFlag, order, i, luck);
    }
  }

  lemma OverriddenValid(c: Config, idleFlag: Option<nat>)
    requires Valid(c)
    ensures Valid(Overridden(c, idleFlag))
  {
  }

  lemma SameStart(c: Config, tofu: bool, idleFlag: Option<nat>, order: seq<Name>, i: nat, luck: Name -> Luck)
    requires i < |order|
    ensures StartsAt(Blank(Overridden(c, idleFlag), tofu, idleFlag), order, i, luck) <==>
      StartsAt(Blank(c, tofu, idleFlag), order, i, luck)
  {
    var w, v := Blank(Overridden(c, idleFlag), tofu, idleFlag), Blank(c, tofu, idleFlag);
    assert forall b, n :: Dials(w, b, n, luck) <==> Dials(v, b, n, luck);
    hide Dials;
    assert forall b :: StartsSession(w, b, order, i, luck) <==> StartsSession(v, b, order, i, luck);
  }

  /** After a start that refuses, the PostgreSQL envs served are exactly those a request of the
      run brought up and none has taken off since. */
  lemma RefusalAtStartOnly(c: Config, tofu: bool, idleFlag: Option<nat>, order: seq<Name>, luck: Name -> Luck, h: Hashes, es: seq<Event>)
    requires Valid(c) && Lists(order, c.envs.Keys)
    ensures var r := Boot(c, tofu, idleFlag, true, order, luck);
      r.Some? ==> Inv(r.value) && (AllOrderly(r.value, h, es) ==>
        forall n :: Serves(Run(r.value, h, es), Postgres, n) <==> BroughtAndKept(r.value, h, es, Postgres, n))
  {
    hide Books, Served, Boot, Run, AllOrderly, BroughtAndKept;
    BootServes(c, tofu, idleFlag, true, order, luck);
    BootRefusal(c, tofu, idleFlag, order, luck);
    var r := Boot(c, tofu, idleFlag, true, order, luck);
    if r.Some? && AllOrderly(r.value, h, es) {
      forall n
        ensures Serves(Run(r.value, h, es), Postgres, n) <==> BroughtAndKept(r.value, h, es, Postgres, n)
      {
        ServedExact(r.value, h, es, Postgres, n);
        assert !Serves(r.value, Postgres, n);
      }
    }
  }

  const C0: Config := Config(SCHEMA_VERSION, map[], map["c" := Credential("u", "p")], map[])

  const PG: EnvArgs := EnvArgs("pg", "h", 5432, None, None, "c", ReadOnly, Some(6033), None, Postgres)

  const GOOD: Luck := Luck(Fingerprint("", ""), true, true, true, true)

  /** A refusing start, then one saved request to add a PostgreSQL env: it is served, and with
      what is then on disk no refusing start succeeds. */
  lemma AddedPostgresServed(h: Hashes, luck: Name -> Luck, order: seq<Name>)
    requires luck("pg") == GOOD && Lists(order, {"pg"})
    ensures Lists([], C0.envs.Keys)
    ensures var r := Boot(C0, false, None, true, [], luck);
      var e := Ask(AddEnv(PG, "t"), true, true, [], luck);
      && r.Some? && Inv(r.value) && AllOrderly(r.value, h, [e])
      && var v := Run(r.value, h, [e]);
         && Serves(v, Postgres, "pg") && v.disk.envs.Keys == {"pg"}
         && Boot(v.disk, false, None, true, order, luck).None?
  {
    hide Books, Seen, CacheTrusted, LiveAgrees, LiveTrusted, Step;
    BootServes(C0, false, None, true, [], luck);
    var w := Boot(C0, false, None, true, [], luck).value;
    var e := Ask(AddEnv(PG, "t"), true, true, [], luck);
    AddedSaves(w, h, e, luck);
    ServesStep(w, h, e, Postgres, "pg");
    StepDisk(w, h, e);
    StepKeeps(w, h, e);
    var v := Step(w, h, e).0;
    assert Run(w, h, [e]) == v;
    BootRefusal(v.disk, false, None, order, luck);
  }

  lemma AddedSaves(w: World, h: Hashes, e: Event, luck: Name -> Luck)
    requires w.disk == C0 && luck("pg") == GOOD && e == Ask(AddEnv(PG, "t"), true, true, [], luck)
    ensures Orderly(w, h, e) && Saves(w, h, e) && Brings(w, h, e, Postgres, "pg")
    ensures Apply(w.disk, h, e.change).value.envs.Keys == {"pg"}
  {
  }
}
