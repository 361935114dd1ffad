/** Which policy and which token an env checks after any run: those of the last request that set
    them, which for read-write access was confirmed. */
module Entitlements {
  import opened Common
  import opened Policy
  import opened Config
  import opened Changes
  import opened SnapshotHeap
  import opened LiveEnvs
  import opened Daemon
  import opened LiveRuns

  /** Something an env's entry can say: which policy it has, or how its token is kept. */
  datatype Fact = HasPolicy(policy: Policy) | HasToken(auth: ClientAuth)

  predicate Says(e: Env, x: Fact) {
    match x
    case HasPolicy(p) => e.policy == p
    case HasToken(a) => e.auth == a
  }

  ghost predicate OnDiskSays(w: World, n: Name, x: Fact) {
    n in w.disk.envs && Says(w.disk.envs[n], x)
  }

  // ---- one event ----

  /** A saved request names the env and makes it so: an add or an import of it, a change of its
      policy, a grant of a new token. */
  ghost predicate Sets(w: World, h: Hashes, e: Event, n: Name, x: Fact) {
    Saves(w, h, e) &&
    match e.change
    case AddEnv(a, token) =>
      n == a.name && (match x case HasPolicy(p) => a.policy == p case HasToken(auth) => KeepsToken(auth, a.engine, h, token))
    case Import(f) => n in f.envs && Says(f.envs[n], x)
    case SetPolicy(m, readWrite) => n == m && x == HasPolicy(if readWrite then ReadWrite else ReadOnly)
    case Grant(m, token) =>
      n == m && x.HasToken? && n in w.disk.envs && KeepsToken(x.auth, w.disk.envs[n].engine, h, token)
    case _ => false
  }

  /** A saved request names the env and may make it otherwise. */
  ghost predicate Touches(w: World, h: Hashes, e: Event, n: Name, x: Fact) {
    Saves(w, h, e) &&
    match e.change
    case AddEnv(a, _) => n == a.name
    case Import(f) => n in f.envs
    case RmEnv(m) => n == m
    case SetPolicy(m, _) => n == m && x.HasPolicy?
    case Grant(m, _) => n == m && x.HasToken?
    case _ => false
  }

  /** A kept token is one value. */
  lemma OneKept(a: ClientAuth, b: ClientAuth, engine: Engine, h: Hashes, token: string)
    requires KeepsToken(a, engine, h, token) && KeepsToken(b, engine, h, token)
    ensures a == b
  {
  }

  lemma ChangeSays(w: World, h: Hashes, e: Event, n: Name, x: Fact)
    requires Saves(w, h, e)
    ensures var d := Apply(w.disk, h, e.change).value;
      (n in d.envs && Says(d.envs[n], x)) <==> Sets(w, h, e, n, x) || (OnDiskSays(w, n, x) && !Touches(w, h, e, n, x))
  {
    hide Apply, KeepsToken, TakesPort;
    ChangeStores(w.disk, h, e.change);
    var d := Apply(w.disk, h, e.change).value;
    match e.change
    case AddEnv(a, token) => TokenSays(d.envs[a.name].auth, a.engine, h, token);
    case Grant(m, token) => TokenSays(d.envs[m].auth, w.disk.envs[m].engine, h, token);
    case _ =>
  }

  lemma TokenSays(kept: ClientAuth, engine: Engine, h: Hashes, token: string)
    requires KeepsToken(kept, engine, h, token)
    ensures forall a :: KeepsToken(a, engine, h, token) <==> a == kept
  {
    forall a | KeepsToken(a, engine, h, token)
      ensures a == kept
    {
      OneKept(a, kept, engine, h, token);
    }
  }

  lemma StepSays(w: World, h: Hashes, e: Event, n: Name, x: Fact)
    requires Inv(w) && Orderly(w, h, e)
    ensures OnDiskSays(Step(w, h, e).0, n, x) <==>
      Sets(w, h, e, n, x) || (OnDiskSays(w, n, x) && !Touches(w, h, e, n, x))
  {
    hide Inv, Orderly, Step, Apply, Says, Stores, Sets, Touches;
    StepDisk(w, h, e);
    if Saves(w, h, e) {
      ChangeSays(w, h, e, n, x);
    } else {
      NothingSaved(w, h, e, n, x);
    }
  }

  lemma NothingSaved(w: World, h: Hashes, e: Event, n: Name, x: Fact)
    requires !Saves(w, h, e)
    ensures !Sets(w, h, e, n, x) && !Touches(w, h, e, n, x)
  {
  }

  // ---- every run ----

  ghost predicate TouchedSince(w: World, h: Hashes, es: seq<Event>, i: nat, n: Name, x: Fact)
    requires Inv(w) && AllOrderly(w, h, es)
  {
    exists j: nat | i <= j < |es| :: Touches(StateAt(w, h, es, j), h, es[j], n, x)
  }

  /** The `i`th event made it so and none after it touched it. */
  ghost predicate SetAt(w: World, h: Hashes, es: seq<Event>, i: nat, n: Name, x: Fact)
    requires Inv(w) && AllOrderly(w, h, es)
  {
    i < |es| && Sets(StateAt(w, h, es, i), h, es[i], n, x) && !TouchedSince(w, h, es, i + 1, n, x)
  }

  ghost predicate SetAndKept(w: World, h: Hashes, es: seq<Event>, n: Name, x: Fact)
    requires Inv(w) && AllOrderly(w, h, es)
  {
    exists i: nat :: SetAt(w, h, es, i, n, x)
  }

  /** Exactly what the disk says of an env's policy and token after any run: what it said at
      first if no request touched it, or else what the last request that did has set. */
  lemma {:induction false} SaysExact(w: World, h: Hashes, es: seq<Event>, n: Name, x: Fact)
    requires Inv(w) && AllOrderly(w, h, es)
    ensures OnDiskSays(Run(w, h, es), n, x) <==>
      (OnDiskSays(w, n, x) && !TouchedSince(w, h, es, 0, n, x)) || SetAndKept(w, h, es, n, x)
    decreases |es|
  {
    hide Inv, Orderly, Step, OnDiskSays, Sets, Touches;
    if |es| > 0 {
      StepKeeps(w, h, es[0]);
      StepSays(w, h, es[0], n, x);
      SaysExact(Step(w, h, es[0]).0, h, es[1..], n, x);
      TouchShifted(w, h, es, n, x);
      SetShifted(w, h, es, n, x);
    }
  }

  lemma TouchShifted(w: World, h: Hashes, es: seq<Event>, n: Name, x: Fact)
    requires Inv(w) && AllOrderly(w, h, es) && |es| > 0
    ensures var v := Step(w, h, es[0]).0;
      && Inv(v) && AllOrderly(v, h, es[1..])
      && (forall i: nat :: TouchedSince(w, h, es, i + 1, n, x) <==> TouchedSince(v, h, es[1..], i, n, x))
      && (TouchedSince(w, h, es, 0, n, x) <==> Touches(w, h, es[0], n, x) || TouchedSince(v, h, es[1..], 0, n, x))
  {
    hide Inv, Orderly, Step, Touches;
    StepKeeps(w, h, es[0]);
    var v := Step(w, h, es[0]).0;
    forall i: nat
      ensures TouchedSince(w, h, es, i + 1, n, x) <==> TouchedSince(v, h, es[1..], i, n, x)
    {
      if TouchedSince(w, h, es, i + 1, n, x) {
        var j: nat :| i + 1 <= j < |es| && Touches(StateAt(w, h, es, j), h, es[j], n, x);
        assert Touches(StateAt(v, h, es[1..], j - 1), h, es[1..][j - 1], n, x);
      }
      if TouchedSince(v, h, es[1..], i, n, x) {
        var j: nat :| i <= j < |es| - 1 && Touches(StateAt(v, h, es[1..], j), h, es[1..][j], n, x);
        assert Touches(StateAt(w, h, es, j + 1), h, es[j + 1], n, x);
      }
    }
    assert StateAt(w, h, es, 0) == w;
    if TouchedSince(w, h, es, 0, n, x) && !Touches(w, h, es[0], n, x) {
      assert TouchedSince(w, h, es, 1, n, x);
    }
    assert TouchedSince(w, h, es, 1, n, x) ==> TouchedSince(w, h, es, 0, n, x);
  }

  lemma SetShifted(w: World, h: Hashes, es: seq<Event>, n: Name, x: Fact)
    requires Inv(w) && AllOrderly(w, h, es) && |es| > 0
    ensures var v := Step(w, h, es[0]).0;
      && Inv(v) && AllOrderly(v, h, es[1..])
      && (SetAndKept(w, h, es, n, x) <==>
            || (Sets(w, h, es[0], n, x) && !TouchedSince(v, h, es[1..], 0, n, x))
            || SetAndKept(v, h, es[1..], n, x))
  {
    hide Inv, Orderly, Step, Touches, Sets, TouchedSince;
    TouchShifted(w, h, es, n, x);
    var v := Step(w, h, es[0]).0;
    assert TouchedSince(w, h, es, 0 + 1, n, x) <==> TouchedSince(v, h, es[1..], 0, n, x);
    assert SetAt(w, h, es, 0, n, x) <==> Sets(w, h, es[0], n, x) && !TouchedSince(v, h, es[1..], 0, n, x);
    if SetAndKept(v, h, es[1..], n, x) {
      var i: nat :| SetAt(v, h, es[1..], i, n, x);
      assert SetAt(w, h, es, i + 1, n, x);
    }
    if SetAndKept(w, h, es, n, x) {
      var i: nat :| SetAt(w, h, es, i, n, x);
      if i > 0 {
        assert SetAt(v, h, es[1..], i - 1, n, x);
      }
    }
  }

  // ---- what that means for access ----

  /** The event is a request to make this env read-write, and a confirmed one. */
  ghost predicate ConfirmedReadWrite(e: Event, n: Name) {
    e.Ask? && e.change == SetPolicy(n, true) && e.confirmed
  }

  /** The event adds or imports the env with a policy of its own. */
  ghost predicate BringsPolicy(e: Event, n: Name, p: Policy) {
    e.Ask? && ((e.change.AddEnv? && e.change.args.name == n && e.change.args.policy == p)
               || (e.change.Import? && n in e.change.fragment.envs && e.change.fragment.envs[n].policy == p))
  }

  /** An env that is read-write after a run was so at first, or was brought so by an add or an
      import, or a confirmed request has made it so. */
  lemma ReadWriteConfirmed(w: World, h: Hashes, es: seq<Event>, n: Name)
    requires Inv(w) && AllOrderly(w, h, es) && OnDiskSays(Run(w, h, es), n, HasPolicy(ReadWrite))
    ensures OnDiskSays(w, n, HasPolicy(ReadWrite))
      || exists e :: e in es && (ConfirmedReadWrite(e, n) || BringsPolicy(e, n, ReadWrite))
  {
    hide Inv, Orderly, Run, AllOrderly, StateAt;
    SaysExact(w, h, es, n, HasPolicy(ReadWrite));
    if SetAndKept(w, h, es, n, HasPolicy(ReadWrite)) {
      var i: nat :| SetAt(w, h, es, i, n, HasPolicy(ReadWrite));
      assert es[i] in es && (ConfirmedReadWrite(es[i], n) || BringsPolicy(es[i], n, ReadWrite));
    }
  }

  /** An unconfirmed request for read-write access is denied and changes nothing. */
  lemma UnconfirmedDenied(w: World, h: Hashes, e: Event)
    requires Inv(w) && Orderly(w, h, e) && e.Ask? && e.change.SetPolicy? && e.change.readWrite && !e.confirmed
    ensures Step(w, h, e) == (w, Denied)
  {
  }

  /** New connections to the env are checked by this policy and this token. */
  ghost predicate Checks(w: World, n: Name, x: Fact) {
    var v := PublishedView(w, n);
    v.Some? && match x
               case HasPolicy(p) => v.value.data.policy == p
               case HasToken(a) => v.value.data.auth == a
  }

  /** After any run, a live env checks new connections by what its entry says. */
  lemma LiveChecks(w: World, h: Hashes, es: seq<Event>, n: Name, x: Fact)
    requires Inv(w) && AllOrderly(w, h, es) && n in Run(w, h, es).live
    ensures Checks(Run(w, h, es), n, x) <==> OnDiskSays(Run(w, h, es), n, x)
  {
    hide Good, Seen, CacheTrusted, LiveTrusted, Run, AllOrderly;
    assert LiveAgrees(Run(w, h, es), n);
  }

  /** A saved change of policy, or grant of a token, is at once what a live env checks, and the
      answer says whether it is live. */
  lemma ChangedAtOnce(w: World, h: Hashes, e: Event, n: Name, x: Fact)
    requires Inv(w) && Orderly(w, h, e) && Saves(w, h, e) && (e.change.SetPolicy? || e.change.Grant?) && e.change.name == n
    requires Sets(w, h, e, n, x)
    ensures var (v, answer) := Step(w, h, e);
      && OnDiskSays(v, n, x)
      && (n in v.live <==> n in w.live) && (n in v.live ==> Checks(v, n, x))
      && (e.change.SetPolicy? ==> answer == if n in w.live then Done else NotApplied(n))
      && (e.change.Grant? ==> answer == if n in w.live then Token else TokenButNotLive)
  {
    hide Good, Seen, CacheTrusted, LiveTrusted, Sets, Apply, Step, Valid, Save, Persist;
    StepSays(w, h, e, n, x);
    StepKeeps(w, h, e);
    LiveExact(w, h, e, n);
    var v := Step(w, h, e).0;
    assert n in v.live ==> LiveAgrees(v, n);
    SavedAnswer(w, h, e);
  }
}
