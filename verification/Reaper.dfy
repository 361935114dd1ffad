/** The idle reaper as a timed machine: when a sweep is due, what it closes, and how long a
    connection can stay idle. */
module Reaper {
  import opened Common

  type Name = string

  /** Nanoseconds. */
  type Duration = nat

  const SECOND: Duration := 1_000_000_000
  const FALLBACK: Duration := 60 * SECOND

  /** `should_retain`. */
  predicate ShouldRetain(lastUsed: Duration, timeout: Duration) {
    timeout == 0 || lastUsed < timeout
  }

  function Clamp(x: Duration, lo: Duration, hi: Duration): Duration {
    if x < lo then lo else if hi < x then hi else x
  }

  /** `reaper_interval`. */
  function Interval(minTimeout: Duration): Duration {
    Clamp(minTimeout / 2, SECOND, 60 * SECOND)
  }

  /** Half the timeout, but at least a second and at most a minute. */
  lemma IntervalExact(timeout: Duration)
    ensures timeout <= 2 * SECOND ==> Interval(timeout) == SECOND
    ensures 2 * SECOND <= timeout <= 120 * SECOND ==> timeout - 1 <= 2 * Interval(timeout) <= timeout
    ensures 120 * SECOND <= timeout ==> Interval(timeout) == 60 * SECOND
    ensures FALLBACK == 60 * SECOND && SECOND == 1_000_000_000
  {
  }

  /** A pooled connection: checked out last at `lastOut`, and idle since it came back. */
  datatype Conn = Busy(lastOut: nat) | Idle(lastOut: nat, since: nat)

  datatype Pool = Pool(timeout: Duration, conns: map<nat, Conn>)

  /** `pending` is the time of the first live add the loop has not woken up for yet. */
  datatype State = State(now: nat, deadline: nat, pending: Option<nat>, envs: map<Name, Pool>)

  datatype Event =
    | Pass(time: nat)
    | AddEnv(name: Name, timeout: Duration)
    | Rebuild(name: Name, timeout: Duration)
    | RemoveEnv(name: Name)
    | CheckOut(name: Name, id: nat)
    | CheckIn(name: Name, id: nat)
    | Wake
    | Sweep

  // ---- the cadence ----

  /** The interval of the tightest non-zero timeout, or the fallback when there is none. */
  ghost predicate IsCadence(envs: map<Name, Pool>, r: Duration) {
    if forall n | n in envs :: envs[n].timeout == 0 then r == FALLBACK
    else exists n | n in envs :: envs[n].timeout != 0 && r == Interval(envs[n].timeout) && Tightest(envs, envs[n].timeout)
  }

  ghost predicate Tightest(envs: map<Name, Pool>, timeout: Duration) {
    forall n | n in envs && envs[n].timeout != 0 :: timeout <= envs[n].timeout
  }

  /** `current_reap_interval`. */
  method CurrentInterval(envs: map<Name, Pool>) returns (r: Duration)
    ensures IsCadence(envs, r)
  {
    var least: Option<Duration> := None;
    var rest := envs.Keys;
    while rest != {}
      invariant rest <= envs.Keys
      invariant least.None? ==> forall n | n in envs && n !in rest :: envs[n].timeout == 0
      invariant least.Some? ==> least.value != 0 && exists n | n in envs && n !in rest :: envs[n].timeout == least.value
      invariant least.Some? ==> forall n | n in envs && n !in rest && envs[n].timeout != 0 :: least.value <= envs[n].timeout
      decreases rest
    {
      var n :| n in rest;
      rest := rest - {n};
      var t := envs[n].timeout;
      if t != 0 && (least.None? || t < least.value) {
        least := Some(t);
      }
    }
    r := if least.Some? then Interval(least.value) else FALLBACK;
  }

  lemma {:induction false} CadenceExists(envs: map<Name, Pool>)
    ensures exists r: Duration :: IsCadence(envs, r)
    decreases |envs|
  {
    if forall n | n in envs :: envs[n].timeout == 0 {
      assert IsCadence(envs, FALLBACK);
    } else {
      var n :| n in envs && envs[n].timeout != 0;
      var least := LeastFrom(envs, n);
      assert IsCadence(envs, Interval(envs[least].timeout));
    }
  }

  /** Walk down from one non-zero timeout to a least one. */
  lemma {:induction false} LeastFrom(envs: map<Name, Pool>, n: Name) returns (least: Name)
    requires n in envs && envs[n].timeout != 0
    ensures least in envs && envs[least].timeout != 0 && Tightest(envs, envs[least].timeout)
    decreases envs[n].timeout
  {
    if Tightest(envs, envs[n].timeout) {
      least := n;
    } else {
      var m :| m in envs && envs[m].timeout != 0 && envs[m].timeout < envs[n].timeout;
      least := LeastFrom(envs, m);
    }
  }

  ghost function Cadence(envs: map<Name, Pool>): (r: Duration)
    ensures IsCadence(envs, r)
  {
    CadenceExists(envs);
    var r: Duration :| IsCadence(envs, r);
    r
  }

  /** There is one cadence, and it is at most the interval of any env with a timeout. */
  lemma CadenceCovers(envs: map<Name, Pool>, r: Duration)
    requires IsCadence(envs, r)
    ensures r == Cadence(envs)
    ensures forall n | n in envs && envs[n].timeout != 0 :: r <= Interval(envs[n].timeout)
  {
  }

  // ---- the steps ----

  /** `Pool::retain`: only idle connections are candidates. */
  function Reaped(p: Pool, now: nat): Pool {
    if p.timeout == 0 then p
    else p.(conns := map id | id in p.conns && (p.conns[id].Busy? || Kept(p, id, now)) :: p.conns[id])
  }

  predicate Kept(p: Pool, id: nat, now: nat)
    requires id in p.conns
  {
    ShouldRetain(if p.conns[id].lastOut <= now then now - p.conns[id].lastOut else 0, p.timeout)
  }

  function ReapedAll(envs: map<Name, Pool>, now: nat): map<Name, Pool> {
    map n | n in envs :: Reaped(envs[n], now)
  }

  /** The steps the loop takes in time: once a sweep is due or a wake-up pending, it comes
      within `slack`. */
  predicate Enabled(s: State, slack: Duration, e: Event) {
    match e
    case Pass(d) => s.now + d <= s.deadline + slack && (s.pending.Some? ==> s.now + d <= s.pending.value + slack)
    case AddEnv(n, _) => n !in s.envs
    case Rebuild(n, _) => n in s.envs
    case RemoveEnv(n) => n in s.envs
    case CheckOut(n, id) => n in s.envs && (id in s.envs[n].conns ==> s.envs[n].conns[id].Idle?)
    case CheckIn(n, id) => n in s.envs && id in s.envs[n].conns && s.envs[n].conns[id].Busy?
    case Wake => s.pending.Some?
    case Sweep => s.deadline <= s.now
  }

  function Min(a: nat, b: nat): nat {
    if a < b then a else b
  }

  ghost function Step(s: State, slack: Duration, e: Event): State
    requires Enabled(s, slack, e)
  {
    match e
    case Pass(d) => s.(now := s.now + d)
    case AddEnv(n, timeout) =>
      s.(envs := s.envs[n := Pool(timeout, map[])], pending := if s.pending.Some? then s.pending else Some(s.now))
    case Rebuild(n, timeout) => s.(envs := s.envs[n := Pool(timeout, map[])])
    case RemoveEnv(n) => s.(envs := s.envs - {n})
    case CheckOut(n, id) => PutConn(s, n, id, Busy(s.now))
    case CheckIn(n, id) => PutConn(s, n, id, Idle(s.envs[n].conns[id].lastOut, s.now))
    case Wake => s.(deadline := Min(s.deadline, s.now + Cadence(s.envs)), pending := None)
    case Sweep => s.(envs := ReapedAll(s.envs, s.now), deadline := s.now + Cadence(s.envs))
  }

  function PutConn(s: State, n: Name, id: nat, c: Conn): State
    requires n in s.envs
  {
    s.(envs := s.envs[n := s.envs[n].(conns := s.envs[n].conns[id := c])])
  }

  /** Where a sweep is put: by the interval of the tightest timeout from now, a minute if no env has
      one; a wake-up only brings it closer, and an add leaves it to the wake-up. */
  lemma SweepScheduled(s: State, slack: Duration, e: Event)
    requires Enabled(s, slack, e)
    ensures var after := Step(s, slack, e);
      match e
      case Sweep => after.deadline >= s.now && IsCadence(after.envs, after.deadline - s.now) && after.pending == s.pending
      case Wake => after.pending == None && exists r: Duration ::
        IsCadence(s.envs, r) && after.deadline == if s.now + r < s.deadline then s.now + r else s.deadline
      case AddEnv(_, _) =>
        after.deadline == s.deadline && after.pending == if s.pending.Some? then s.pending else Some(s.now)
      case _ => after.deadline == s.deadline && after.pending == s.pending
  {
    hide IsCadence;
    if e.Sweep? {
      var after := Step(s, slack, e);
      SameTimeouts(s.envs, after.envs, Cadence(s.envs));
    }
  }

  lemma SameTimeouts(a: map<Name, Pool>, b: map<Name, Pool>, r: Duration)
    requires a.Keys == b.Keys && forall n | n in a :: a[n].timeout == b[n].timeout
    requires IsCadence(a, r)
    ensures IsCadence(b, r)
  {
    assert forall n | n in a :: n in b;
    if n :| n in a && a[n].timeout != 0 && r == Interval(a[n].timeout) && Tightest(a, a[n].timeout) {
      assert Tightest(b, b[n].timeout);
    }
  }

  // ---- the invariant ----

  function Max(a: nat, b: nat): nat {
    if a < b then b else a
  }

  /** When a connection can be reaped, if it is not used again: not before it came back (now,
      for one in use), nor before its timeout has passed since it was last checked out. */
  function Due(c: Conn, timeout: Duration, now: nat): nat {
    Max(c.lastOut + timeout, if c.Idle? then c.since else now)
  }

  /** The next sweep comes in time for any connection an env with this timeout makes from now
      on, unless the loop is about to wake up anyway. */
  predicate InReach(s: State, slack: Duration, timeout: Duration) {
    timeout == 0 || s.pending.Some? || s.deadline <= s.now + timeout + Interval(timeout) + slack
  }

  ghost predicate SweepInReach(s: State, slack: Duration) {
    forall n | n in s.envs :: InReach(s, slack, s.envs[n].timeout)
  }

  ghost predicate ConnsInReach(s: State, slack: Duration) {
    forall n, id | n in s.envs && id in s.envs[n].conns :: ConnInReach(s, slack, s.envs[n].conns[id], s.envs[n].timeout)
  }

  predicate ConnInReach(s: State, slack: Duration, c: Conn, timeout: Duration) {
    && c.lastOut <= s.now
    && (c.Idle? ==> c.lastOut <= c.since <= s.now)
    && (timeout == 0
        || s.deadline <= Due(c, timeout, s.now) + Interval(timeout) + slack
        || (s.pending.Some? && s.pending.value <= Due(c, timeout, s.now)))
  }

  ghost predicate Timely(s: State, slack: Duration) {
    && s.now <= s.deadline + slack
    && (s.pending.Some? ==> s.pending.value <= s.now <= s.pending.value + slack)
  }

  ghost predicate Inv(s: State, slack: Duration) {
    Timely(s, slack) && SweepInReach(s, slack) && ConnsInReach(s, slack)
  }

  /** A rebuild gives the env a new pool and maybe a new timeout, and does not wake the loop: it
      is in time if the sweep already due is. */
  predicate Fits(s: State, slack: Duration, e: Event) {
    e.Rebuild? ==> InReach(s, slack, e.timeout)
  }

  /** `reap_loop` before its first turn: no connection has been made yet. */
  ghost function Initial(now: nat, timeouts: map<Name, Duration>): State {
    var envs := map n | n in timeouts :: Pool(timeouts[n], map[]);
    State(now, now + Cadence(envs), None, envs)
  }

  lemma InitialInv(now: nat, timeouts: map<Name, Duration>, slack: Duration)
    ensures Inv(Initial(now, timeouts), slack)
  {
    var s := Initial(now, timeouts);
    CadenceCovers(s.envs, Cadence(s.envs));
  }

  lemma StepKeeps(s: State, slack: Duration, e: Event)
    requires Inv(s, slack) && Enabled(s, slack, e) && Fits(s, slack, e)
    ensures Inv(Step(s, slack, e), slack)
  {
    hide IsCadence, Interval;
    match e
    case Wake => CadenceCovers(s.envs, Cadence(s.envs));
    case Sweep => CadenceCovers(s.envs, Cadence(s.envs));
    case _ =>
  }

  // ---- every run ----

  ghost predicate AllEnabled(s: State, slack: Duration, es: seq<Event>)
    decreases |es|
  {
    |es| > 0 ==> Enabled(s, slack, es[0]) && AllEnabled(Step(s, slack, es[0]), slack, es[1..])
  }

  ghost function Run(s: State, slack: Duration, es: seq<Event>): State
    requires AllEnabled(s, slack, es)
    decreases |es|
  {
    if |es| == 0 then s else Run(Step(s, slack, es[0]), slack, es[1..])
  }

  /** Every rebuild of the run is in time. */
  ghost predicate AllFit(s: State, slack: Duration, es: seq<Event>)
    requires AllEnabled(s, slack, es)
    decreases |es|
  {
    |es| > 0 ==> Fits(s, slack, es[0]) && AllFit(Step(s, slack, es[0]), slack, es[1..])
  }

  lemma {:induction false} RunKeeps(s: State, slack: Duration, es: seq<Event>)
    requires Inv(s, slack) && AllEnabled(s, slack, es) && AllFit(s, slack, es)
    ensures Inv(Run(s, slack, es), slack)
    decreases |es|
  {
    hide Inv, Enabled, Step, Fits;
    if |es| > 0 {
      StepKeeps(s, slack, es[0]);
      RunKeeps(Step(s, slack, es[0]), slack, es[1..]);
    }
  }

  /** Whatever happens between two sweeps, the next one only comes closer: adds and wake-ups
      never put it off. */
  lemma {:induction false} NeverPostponed(s: State, slack: Duration, es: seq<Event>)
    requires AllEnabled(s, slack, es) && forall i | 0 <= i < |es| :: !es[i].Sweep?
    ensures Run(s, slack, es).deadline <= s.deadline
    decreases |es|
  {
    if |es| > 0 {
      NeverPostponed(Step(s, slack, es[0]), slack, es[1..]);
    }
  }

  /** No connection has been idle longer than its timeout and the interval of that timeout, plus
      the delay of one wake-up and one sweep. */
  ghost predicate Bounded(s: State, slack: Duration) {
    forall n, id | n in s.envs && id in s.envs[n].conns && s.envs[n].timeout != 0 && s.envs[n].conns[id].Idle? ::
      s.now <= s.envs[n].conns[id].since + s.envs[n].timeout + Interval(s.envs[n].timeout) + 2 * slack
  }

  lemma InvBounded(s: State, slack: Duration)
    requires Inv(s, slack)
    ensures Bounded(s, slack)
  {
    forall n, id | n in s.envs && id in s.envs[n].conns && s.envs[n].timeout != 0 && s.envs[n].conns[id].Idle?
      ensures s.now <= s.envs[n].conns[id].since + s.envs[n].timeout + Interval(s.envs[n].timeout) + 2 * slack
    {
      assert ConnInReach(s, slack, s.envs[n].conns[id], s.envs[n].timeout);
    }
  }

  /** In every state of every run whose rebuilds are in time, no connection has been idle longer
      than that: its timeout and half of it again, but at least a second and at most a minute. */
  lemma IdleBound(now: nat, timeouts: map<Name, Duration>, slack: Duration, es: seq<Event>, n: Name, id: nat)
    requires AllEnabled(Initial(now, timeouts), slack, es) && AllFit(Initial(now, timeouts), slack, es)
    ensures var s := Run(Initial(now, timeouts), slack, es);
      n in s.envs && s.envs[n].timeout != 0 && id in s.envs[n].conns && s.envs[n].conns[id].Idle? ==>
        var timeout, since := s.envs[n].timeout, s.envs[n].conns[id].since;
        && s.now <= since + timeout + Interval(timeout) + 2 * slack
        && s.now <= since + timeout + 60 * SECOND + 2 * slack
        && s.now <= since + timeout + Max(SECOND, timeout / 2) + 2 * slack
        && (2 * SECOND <= timeout ==> s.now <= since + timeout + timeout / 2 + 2 * slack)
  {
    InitialInv(now, timeouts, slack);
    RunKeeps(Initial(now, timeouts), slack, es);
    InvBounded(Run(Initial(now, timeouts), slack, es), slack);
  }

  /** The run that a late rebuild cannot stand: a connection made at once, given back at once,
      and left until the sweep. */
  function Strand(s: State, slack: Duration, n: Name): seq<Event>
    requires s.now <= s.deadline + slack
  {
    [CheckOut(n, 0), CheckIn(n, 0), Pass(s.deadline + slack - s.now)]
  }

  /** A rebuild keeps the bound in everything that can follow, later rebuilds in time, exactly
      when the sweep already due is in time for the new timeout. */
  lemma RebuildExact(s: State, slack: Duration, n: Name, timeout: Duration)
    requires Inv(s, slack) && n in s.envs
    ensures var after := Step(s, slack, Rebuild(n, timeout));
      InReach(s, slack, timeout) <==>
        forall es | AllEnabled(after, slack, es) && AllFit(after, slack, es) :: Bounded(Run(after, slack, es), slack)
  {
    hide AllEnabled, AllFit, Run, Bounded, Inv;
    var e := Rebuild(n, timeout);
    var after := Step(s, slack, e);
    if InReach(s, slack, timeout) {
      StepKeeps(s, slack, e);
      forall es | AllEnabled(after, slack, es) && AllFit(after, slack, es)
        ensures Bounded(Run(after, slack, es), slack)
      {
        RunKeeps(after, slack, es);
        InvBounded(Run(after, slack, es), slack);
      }
    } else {
      Stranded(s, slack, n, timeout);
    }
  }

  lemma Stranded(s: State, slack: Duration, n: Name, timeout: Duration)
    requires Inv(s, slack) && n in s.envs && !InReach(s, slack, timeout)
    ensures var after := Step(s, slack, Rebuild(n, timeout)); var es := Strand(s, slack, n);
      AllEnabled(after, slack, es) && AllFit(after, slack, es) && !Bounded(Run(after, slack, es), slack)
  {
    hide Interval, Inv;
    TimelyOf(s, slack);
    var es := Strand(s, slack, n);
    var s0 := Step(s, slack, Rebuild(n, timeout));
    var s1 := Step(s0, slack, es[0]);
    var s2 := Step(s1, slack, es[1]);
    var s3 := Step(s2, slack, es[2]);
    assert es[1..] == [es[1], es[2]] && es[1..][1..] == [es[2]] && es[1..][1..][1..] == [];
    assert AllEnabled(s3, slack, []) && AllFit(s3, slack, []) && Run(s3, slack, []) == s3;
    assert AllEnabled(s2, slack, [es[2]]) && AllFit(s2, slack, [es[2]]) && Run(s2, slack, [es[2]]) == s3;
    assert AllEnabled(s1, slack, es[1..]) && AllFit(s1, slack, es[1..]) && Run(s1, slack, es[1..]) == s3;
    assert AllEnabled(s0, slack, es) && AllFit(s0, slack, es) && Run(s0, slack, es) == s3;
    assert s3.envs[n].conns[0] == Idle(s.now, s.now) && s3.envs[n].timeout == timeout;
  }

  lemma TimelyOf(s: State, slack: Duration)
    requires Inv(s, slack)
    ensures Timely(s, slack)
  {
  }

  /** An env started with a timeout of an hour and rebuilt with one of a second, right after a
      sweep was scheduled a minute ahead: the bound breaks. */
  lemma LateRebuild()
    ensures var s := Initial(0, map["e" := 3600 * SECOND]);
      var after := Step(s, 0, Rebuild("e", SECOND));
      exists es | AllEnabled(after, 0, es) && AllFit(after, 0, es) :: !Bounded(Run(after, 0, es), 0)
  {
    var timeouts := map["e" := 3600 * SECOND];
    var s := Initial(0, timeouts);
    InitialInv(0, timeouts, 0);
    assert "e" in s.envs && s.envs["e"].timeout == 3600 * SECOND;
    assert s.deadline == 60 * SECOND by {
      CadenceCovers(s.envs, Cadence(s.envs));
    }
    Stranded(s, 0, "e", SECOND);
  }

  /** A sweep closes a connection exactly when it is idle, its env has a timeout, and that
      much time has passed since it was last checked out; whatever it keeps is unchanged. */
  lemma SweepExact(s: State, slack: Duration, n: Name, id: nat)
    requires Inv(s, slack) && Enabled(s, slack, Sweep) && n in s.envs && id in s.envs[n].conns
    ensures var after := Step(s, slack, Sweep); var c := s.envs[n].conns[id];
      && n in after.envs
      && (id !in after.envs[n].conns <==> c.Idle? && s.envs[n].timeout != 0 && c.lastOut + s.envs[n].timeout <= s.now)
      && (id in after.envs[n].conns ==> after.envs[n].conns[id] == c)
  {
    assert ConnInReach(s, slack, s.envs[n].conns[id], s.envs[n].timeout);
  }

  /** The timing assumption never stops the clock: after the wake-up and the sweep that are
      due, time can pass again. */
  lemma TimeGoesOn(s: State, slack: Duration)
    requires Inv(s, slack)
    ensures var awake := if s.pending.Some? then Step(s, slack, Wake) else s;
      var swept := if awake.deadline <= awake.now then Step(awake, slack, Sweep) else awake;
      swept.now < swept.deadline && Enabled(swept, slack, Pass(swept.deadline - swept.now))
  {
    assert Cadence(s.envs) >= SECOND;
    var awake := if s.pending.Some? then Step(s, slack, Wake) else s;
    assert Cadence(awake.envs) >= SECOND;
  }

  // ---- the loop in place ----

  class ReapLoop {
    var now: nat
    var deadline: nat
    var pending: Option<nat>
    var envs: map<Name, Pool>

    constructor (now: nat, timeouts: map<Name, Duration>)
      ensures Value() == Initial(now, timeouts)
    {
      var pools := map n | n in timeouts :: Pool(timeouts[n], map[]);
      var cadence := CurrentInterval(pools);
      CadenceCovers(pools, cadence);
      this.now, deadline, pending, envs := now, now + cadence, None, pools;
    }

    function Value(): State
      reads this
    {
      State(now, deadline, pending, envs)
    }

    /** A live add has signalled the loop. */
    method Woken(slack: Duration)
      requires Enabled(Value(), slack, Wake)
      modifies `deadline, `pending
      ensures Value() == Step(old(Value()), slack, Wake)
    {
      var cadence := CurrentInterval(envs);
      CadenceCovers(envs, cadence);
      deadline := Min(deadline, now + cadence);
      pending := None;
    }

    /** The deadline has come: reap every env in turn, then schedule the next sweep. */
    method SweepDue(slack: Duration)
      requires Enabled(Value(), slack, Sweep)
      modifies `deadline, `envs
      ensures Value() == Step(old(Value()), slack, Sweep)
    {
      var rest := envs.Keys;
      while rest != {}
        invariant rest <= envs.Keys == old(envs.Keys)
        invariant forall n | n in envs :: envs[n] == if n in rest then old(envs)[n] else Reaped(old(envs)[n], now)
        decreases rest
      {
        var n :| n in rest;
        rest := rest - {n};
        var closing := Expired(envs[n]);
        envs := envs[n := envs[n].(conns := envs[n].conns - closing)];
      }
      assert envs == ReapedAll(old(envs), now);
      var cadence := CurrentInterval(envs);
      CadenceCovers(envs, cadence);
      deadline := now + cadence;
    }

    /** `reap_idle`: the connections `retain` lets go. */
    method Expired(p: Pool) returns (closing: set<nat>)
      ensures p.(conns := p.conns - closing) == Reaped(p, now)
    {
      closing := {};
      if p.timeout != 0 {
        var rest := p.conns.Keys;
        while rest != {}
          invariant rest <= p.conns.Keys && closing !! rest
          invariant forall id | id in p.conns && id !in rest :: id in closing <==> p.conns[id].Idle? && !Kept(p, id, now)
          decreases rest
        {
          var id :| id in rest;
          rest := rest - {id};
          if p.conns[id].Idle? && !Kept(p, id, now) {
            closing := closing + {id};
          }
        }
        assert p.conns - closing == Reaped(p, now).conns;
      } else {
        assert p.conns - closing == p.conns;
      }
    }
  }
}
