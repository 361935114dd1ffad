/** Saving the sealed configuration, file operation by file operation, with a crash or an I/O
    error allowed between any two of them. */
module SealedStore {
  import opened Common
  import opened Config

  /** What a crash would find in a file: a complete sealed blob, one written but not yet
      synced, or part of one. */
  datatype File = Whole(config: Config) | Unsynced(config: Config) | Torn

  datatype Dir = Dir(current: Option<File>, backup: Option<File>, tmp: Option<File>)

  datatype Op = RemoveBackup | Rotate | OpenTmp | WriteTmp | SyncTmp | RenameTmp

  /** One call of `save_config`: how many file operations it gets through, whether removing
      the old backup works, and what a power cut would leave of unsynced data. */
  datatype Attempt = Attempt(config: Config, cut: nat, removes: bool, loses: bool)

  function Sync(f: Option<File>): Option<File> {
    if f.Some? && f.value.Unsynced? then Some(Whole(f.value.config)) else f
  }

  function Do(d: Dir, op: Op, a: Attempt): Dir {
    match op
    case RemoveBackup => if a.removes then d.(backup := None) else d
    case Rotate => d.(backup := d.current, current := None)
    case OpenTmp => d.(tmp := Some(Torn))
    case WriteTmp => d.(tmp := Some(Unsynced(a.config)))
    case SyncTmp => d.(tmp := Sync(d.tmp))
    case RenameTmp => d.(current := d.tmp, tmp := None)
  }

  /** `save_config`, then from index 2 `write_atomic`. */
  const OPS := [RemoveBackup, Rotate, OpenTmp, WriteTmp, SyncTmp, RenameTmp]

  /** Nothing is rotated when there is no current file. */
  function First(d: Dir): nat {
    if d.current.Some? then 0 else 2
  }

  function DoRange(d: Dir, lo: nat, hi: nat, a: Attempt): Dir
    requires hi <= 6
    decreases hi - lo
  {
    if hi <= lo then d else DoRange(Do(d, OPS[lo], a), lo + 1, hi, a)
  }

  /** Unsynced data may or may not survive. */
  function Settle(f: Option<File>, a: Attempt): Option<File> {
    if f.Some? && f.value.Unsynced? then Some(if a.loses then Torn else Whole(f.value.config)) else f
  }

  function Crash(d: Dir, a: Attempt): Dir {
    Dir(Settle(d.current, a), Settle(d.backup, a), Settle(d.tmp, a))
  }

  predicate Completes(d: Dir, a: Attempt) {
    6 <= First(d) + a.cut
  }

  /** `save_config`, cut where the attempt says; an invalid configuration is never written. */
  ghost function Save(d: Dir, a: Attempt): Dir {
    if !Valid(a.config) then d
    else if Completes(d, a) then DoRange(d, First(d), 6, a)
    else Crash(DoRange(d, First(d), First(d) + a.cut, a), a)
  }

  /** `load_config`: the blob must be complete and its contents valid. */
  ghost function Load(d: Dir): Option<Config> {
    if d.current.Some? && d.current.value.Whole? && Valid(d.current.value.config) then Some(d.current.value.config) else None
  }

  // ---- the invariant ----

  ghost predicate Sound(f: Option<File>) {
    f.Some? ==> f.value.Whole? && Valid(f.value.config)
  }

  /** The current file and the backup are each absent or complete, and one of them holds the
      configuration last committed: the current file if there is one. */
  ghost predicate Safe(d: Dir, committed: Option<Config>) {
    && Sound(d.current) && Sound(d.backup)
    && (committed.Some? ==>
          (if d.current.Some? then d.current else d.backup) == Some(Whole(committed.value)))
  }

  /** The configuration last committed after an attempt. */
  ghost function Committed(d: Dir, committed: Option<Config>, a: Attempt): Option<Config> {
    if Valid(a.config) && Completes(d, a) then Some(a.config) else committed
  }

  /** What holds once the operations before the `i`th are done. */
  ghost predicate Mid(d: Dir, i: nat, a: Attempt, committed: Option<Config>) {
    && Safe(d, if i < 6 then committed else Some(a.config))
    && (i < 2 ==> d.current.Some?)
    && (2 <= i < 6 ==> d.current.None?)
    && (i == 4 ==> d.tmp == Some(Unsynced(a.config)))
    && (i == 5 ==> d.tmp == Some(Whole(a.config)))
    && (i == 6 ==> d.current == Some(Whole(a.config)) && d.tmp.None?)
  }

  lemma {:induction false} MidHolds(d: Dir, lo: nat, hi: nat, a: Attempt, committed: Option<Config>)
    requires Valid(a.config) && lo <= hi <= 6 && Mid(d, lo, a, committed)
    ensures Mid(DoRange(d, lo, hi, a), hi, a, committed)
    decreases hi - lo
  {
    hide Valid;
    if lo < hi {
      MidHolds(Do(d, OPS[lo], a), lo + 1, hi, a, committed);
    }
  }

  /** However an attempt ends, the store is safe: a complete current file or none, and the
      last committed configuration in it or in the backup. */
  lemma SaveKeepsSafe(d: Dir, a: Attempt, committed: Option<Config>)
    requires Safe(d, committed)
    ensures Safe(Save(d, a), Committed(d, committed, a))
  {
    hide Valid, DoRange;
    if Valid(a.config) {
      MidHolds(d, First(d), if Completes(d, a) then 6 else First(d) + a.cut, a, committed);
    }
  }

  ghost function SaveAll(d: Dir, attempts: seq<Attempt>): Dir
    decreases |attempts|
  {
    if |attempts| == 0 then d else SaveAll(Save(d, attempts[0]), attempts[1..])
  }

  ghost function CommittedBy(d: Dir, committed: Option<Config>, attempts: seq<Attempt>): Option<Config>
    decreases |attempts|
  {
    if |attempts| == 0 then committed
    else CommittedBy(Save(d, attempts[0]), Committed(d, committed, attempts[0]), attempts[1..])
  }

  /** Any number of attempts, each cut anywhere. */
  lemma {:induction false} CrashSafe(d: Dir, attempts: seq<Attempt>, committed: Option<Config>)
    requires Safe(d, committed)
    ensures Safe(SaveAll(d, attempts), CommittedBy(d, committed, attempts))
    decreases |attempts|
  {
    hide Safe, Save, Committed;
    if |attempts| > 0 {
      SaveKeepsSafe(d, attempts[0], committed);
      CrashSafe(Save(d, attempts[0]), attempts[1..], Committed(d, committed, attempts[0]));
    }
  }

  /** The store loads exactly when there is a current file, and then gives what was committed
      last; when it does not, the backup has it. */
  lemma LoadOrBackup(d: Dir, committed: Config)
    requires Safe(d, Some(committed))
    ensures Load(d) == if d.current.Some? then Some(committed) else None
    ensures Load(d).None? ==> d.backup == Some(Whole(committed)) && Valid(committed)
  {
  }

  /** After one attempt on a store that loads, it fails to load exactly when the attempt got
      past rotating the current file away and not to the last rename. */
  lemma UnloadableWindow(d: Dir, a: Attempt, committed: Config)
    requires Safe(d, Some(committed)) && Load(d).Some? && Valid(a.config)
    ensures Load(Save(d, a)).None? <==> 2 <= a.cut < 6
    ensures Load(Save(d, a)).Some? ==> Load(Save(d, a)).value == if a.cut < 6 then committed else a.config
  {
    hide Valid, DoRange;
    SaveKeepsSafe(d, a, Some(committed));
    MidHolds(d, 0, if a.cut < 6 then a.cut else 6, a, Some(committed));
  }

  /** A save that completes leaves the new configuration current, the one it replaced as the
      backup, and no temporary file. */
  lemma CompleteSave(d: Dir, a: Attempt)
    requires Valid(a.config) && Completes(d, a)
    ensures Save(d, a) == Dir(Some(Whole(a.config)), if d.current.Some? then d.current else d.backup, None)
  {
    hide Valid;
    if d.current.Some? {
      var rotated := Do(Do(d, RemoveBackup, a), Rotate, a);
      RotateFirst(d, 6, a);
      WriteAtomic(rotated, a);
    } else {
      WriteAtomic(d, a);
    }
  }

  /** `write_atomic`, however far it gets. */
  lemma WriteAtomic(d: Dir, a: Attempt)
    ensures DoRange(d, 2, 3, a) == d.(tmp := Some(Torn))
    ensures DoRange(d, 2, 4, a) == d.(tmp := Some(Unsynced(a.config)))
    ensures DoRange(d, 2, 5, a) == d.(tmp := Some(Whole(a.config)))
    ensures DoRange(d, 2, 6, a) == d.(current := Some(Whole(a.config)), tmp := None)
  {
    var started := Do(d, OpenTmp, a);
    var written := Do(started, WriteTmp, a);
    var synced := Do(written, SyncTmp, a);
    assert DoRange(d, 2, 4, a) == DoRange(started, 3, 4, a);
    assert DoRange(d, 2, 5, a) == DoRange(started, 3, 5, a) == DoRange(written, 4, 5, a);
    assert DoRange(d, 2, 6, a) == DoRange(started, 3, 6, a) == DoRange(written, 4, 6, a) == DoRange(synced, 5, 6, a);
  }

  lemma WriteNothing(d: Dir, a: Attempt)
    ensures DoRange(d, 2, 2, a) == d
  {
  }

  /** The two operations that rotate come first. */
  lemma RotateFirst(d: Dir, hi: nat, a: Attempt)
    requires 2 <= hi <= 6
    ensures DoRange(d, 0, hi, a) == DoRange(Do(Do(d, RemoveBackup, a), Rotate, a), 2, hi, a)
  {
    assert DoRange(d, 0, hi, a) == DoRange(Do(d, RemoveBackup, a), 1, hi, a);
  }

  /** What a save cut after `k` file operations leaves, when there was a current file. */
  lemma CutSave(d: Dir, a: Attempt, committed: Option<Config>)
    requires Valid(a.config) && Safe(d, committed) && d.current.Some? && a.cut < 6
    requires d.tmp.Some? ==> !d.tmp.value.Unsynced?
    ensures var backup := if a.removes then None else d.backup;
      Save(d, a) ==
        if a.cut == 0 then d
        else if a.cut == 1 then Dir(d.current, backup, d.tmp)
        else if a.cut == 2 then Dir(None, d.current, d.tmp)
        else if a.cut == 3 then Dir(None, d.current, Some(Torn))
        else if a.cut == 4 then Dir(None, d.current, Some(if a.loses then Torn else Whole(a.config)))
        else Dir(None, d.current, Some(Whole(a.config)))
  {
    hide Valid;
    if 2 <= a.cut {
      RotateFirst(d, a.cut, a);
      WriteAtomic(Do(Do(d, RemoveBackup, a), Rotate, a), a);
      WriteNothing(Do(Do(d, RemoveBackup, a), Rotate, a), a);
    }
  }

  // ---- through `with_config` ----

  /** `with_config` loads first, so it gets no further on a store that does not load. */
  ghost function WithConfig(d: Dir, a: Attempt): Dir {
    if Load(d).None? then d else Save(d, a)
  }

  ghost function WithConfigAll(d: Dir, attempts: seq<Attempt>): Dir
    decreases |attempts|
  {
    if |attempts| == 0 then d else WithConfigAll(WithConfig(d, attempts[0]), attempts[1..])
  }

  /** The attempt is cut between the two renames. */
  predicate CutInWindow(a: Attempt) {
    2 <= a.cut < 6
  }

  /** A daemon whose changes all go through `with_config` loses its store exactly when one of
      them is cut in the window; every later change then finds nothing to load and leaves the
      directory alone, with the last committed configuration in the backup. */
  lemma {:induction false} LostExactlyInWindow(d: Dir, attempts: seq<Attempt>, committed: Config)
    requires Safe(d, Some(committed)) && Load(d).Some?
    requires forall i | 0 <= i < |attempts| :: Valid(attempts[i].config)
    ensures Load(WithConfigAll(d, attempts)).None? <==> exists i | 0 <= i < |attempts| :: CutInWindow(attempts[i])
    decreases |attempts|
  {
    hide Valid, Save;
    if |attempts| > 0 {
      var a, rest := attempts[0], attempts[1..];
      SaveKeepsSafe(d, a, Some(committed));
      UnloadableWindow(d, a, committed);
      var next := Save(d, a);
      assert forall i | 1 <= i < |attempts| :: attempts[i] == rest[i - 1];
      if CutInWindow(a) {
        Stuck(next, rest);
      } else {
        LostExactlyInWindow(next, rest, Committed(d, Some(committed), a).value);
        assert (exists i | 0 <= i < |rest| :: CutInWindow(rest[i])) ==>
          exists i | 0 <= i < |attempts| :: CutInWindow(attempts[i]) by {
          if i :| 0 <= i < |rest| && CutInWindow(rest[i]) {
            assert CutInWindow(attempts[i + 1]);
          }
        }
      }
    }
  }

  lemma {:induction false} Stuck(d: Dir, attempts: seq<Attempt>)
    requires Load(d).None?
    ensures WithConfigAll(d, attempts) == d
    decreases |attempts|
  {
    hide Load, Save;
    if |attempts| > 0 {
      Stuck(d, attempts[1..]);
    }
  }

  // ---- the directory in place ----

  class StateDir {
    var current: Option<File>
    var backup: Option<File>
    var tmp: Option<File>

    constructor (d: Dir)
      ensures Value() == d
    {
      current, backup, tmp := d.current, d.backup, d.tmp;
    }

    function Value(): Dir
      reads this
    {
      Dir(current, backup, tmp)
    }

    /** `save_config` with a fuel of file operations; `done` says it got to the end. */
    method SaveConfig(a: Attempt) returns (done: bool)
      modifies this
      ensures done <==> Valid(a.config) && Completes(old(Value()), a)
      ensures (if done || !Valid(a.config) then Value() else Crash(Value(), a)) == Save(old(Value()), a)
    {
      hide Valid, Crash;
      if Valid(a.config) && current.Some? && 2 <= a.cut {
        RotateFirst(Value(), if a.cut < 6 then a.cut else 6, a);
      }
      var checked := Validate(a.config);
      if checked.Err? {
        return false;
      }
      var fuel := a.cut;
      if current.Some? {
        if fuel == 0 {
          return false;
        }
        if a.removes {
          backup := None;
        }
        if fuel == 1 {
          return false;
        }
        backup, current := current, None;
        fuel := fuel - 2;
      }
      done := WriteNew(a, fuel);
    }

    /** `write_atomic`. */
    method WriteNew(a: Attempt, fuel: nat) returns (done: bool)
      modifies this
      ensures done <==> 4 <= fuel
      ensures Value() == DoRange(old(Value()), 2, if fuel < 4 then 2 + fuel else 6, a)
    {
      hide DoRange;
      WriteAtomic(Value(), a);
      WriteNothing(Value(), a);
      if fuel == 0 {
        return false;
      }
      tmp := Some(Torn);
      if fuel == 1 {
        return false;
      }
      tmp := Some(Unsynced(a.config));
      if fuel == 2 {
        return false;
      }
      tmp := Sync(tmp);
      if fuel == 3 {
        return false;
      }
      current, tmp := tmp, None;
      return true;
    }
  }
}
