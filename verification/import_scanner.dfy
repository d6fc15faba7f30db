/**
 * The PIMS auto-import scanner: a background loop that, while enabled, runs a
 * scan cycle per interval under a Redis lock taken with set-if-absent and a
 * 30-minute expiry, and released whatever the scan does.
 *
 * The lock key is its expiry instant in seconds (None when absent); the clock,
 * the stop event and the remote catalogue are parameters of each tick.
 * Walking the dataset and importing the files found (`iter_importable_files`,
 * `process_import_batch`) are not part of this model: a cycle that reaches
 * them reports the storage and the project map it would hand over.
 */
module ImportScanner {
  import opened Wrappers
  import opened PimsCatalog

  /** The lock's time to live, in seconds. */
  const LOCK_TTL: int := 1800

  /** The lock key: its expiry instant when set. */
  type Lock = Option<int>

  /** The key is present at `now`: set and not yet expired. */
  predicate Held(lock: Lock, now: int) {
    lock.Some? && now < lock.value
  }

  /** `acquire_lock`: `SET key locked EX 1800 NX` succeeds iff the key is
      absent, and then sets it to expire 1800 s from now. */
  function AcquireLock(lock: Lock, now: int): (r: (bool, Lock))
    ensures r.0 <==> !Held(lock, now)
    ensures r.0 ==> r.1 == Some(now + LOCK_TTL) && Held(r.1, now)
    ensures !r.0 ==> r.1 == lock
  {
    if Held(lock, now) then (false, lock) else (true, Some(now + LOCK_TTL))
  }

  /** A second acquire fails until the first is released or expires. */
  lemma SecondAcquireFails(lock: Lock, now: int, later: int)
    requires AcquireLock(lock, now).0
    requires now <= later < now + LOCK_TTL
    ensures !AcquireLock(AcquireLock(lock, now).1, later).0
    ensures AcquireLock(None, later).0
    ensures AcquireLock(AcquireLock(lock, now).1, now + LOCK_TTL).0
  {
  }

  // ---------------------------------------------------------------- one scan

  /** What one scan sees of the remote catalogue: whether the dataset root
      exists, whether a user is logged in before and after setting the keys,
      the storages' ids, the projects, and whether the batch import raises. */
  datatype ScanEnv = ScanEnv(rootExists: bool, loggedIn: bool, loggedInWithKeys: bool,
                             storages: seq<int>, projects: seq<Project>, batchRaises: bool)

  datatype ScanOutcome =
    | RootMissing
    | AuthFailed
    | NoStorage
    | Scanned(storageId: int, projectsByName: map<string, Project>)
    | ScanRaised

  /** `{project.name: project for project in collection}`: the last project
      with a given name wins. */
  function ProjectsByName(projects: seq<Project>): (m: map<string, Project>)
    ensures forall name :: name in m <==> exists i :: 0 <= i < |projects| && projects[i].name == name
    ensures forall name :: name in m ==> m[name] in projects && m[name].name == name
  {
    if projects == [] then map[]
    else
      var m := ProjectsByName(projects[1..]);
      assert forall i :: 1 <= i < |projects| ==> projects[i] == projects[1..][i - 1];
      if projects[0].name in m then m else m[projects[0].name := projects[0]]
  }

  /** Of several projects with the same name, the map keeps the last. */
  lemma {:induction false} LastProjectWins(projects: seq<Project>, i: int)
    requires 0 <= i < |projects|
    requires forall j :: i < j < |projects| ==> projects[j].name != projects[i].name
    ensures ProjectsByName(projects)[projects[i].name] == projects[i]
  {
    if i > 0 {
      forall j | i - 1 < j < |projects[1..]|
        ensures projects[1..][j].name != projects[1..][i - 1].name
      {
        assert projects[1..][j] == projects[j + 1];
      }
      LastProjectWins(projects[1..], i - 1);
    } else {
      forall k | 0 <= k < |projects[1..]|
        ensures projects[1..][k].name != projects[0].name
      {
        assert projects[1..][k] == projects[k + 1];
      }
    }
  }

  /** `_do_scan`: the root, the login (retried with the keys), the first
      storage, in that order; then the batch over the project map. */
  function DoScan(env: ScanEnv): (r: ScanOutcome)
    ensures !env.rootExists ==> r == RootMissing
    ensures env.rootExists && !env.loggedIn && !env.loggedInWithKeys ==> r == AuthFailed
    ensures r.Scanned? ==> (env.rootExists && (env.loggedIn || env.loggedInWithKeys)
      && |env.storages| > 0 && r.storageId == env.storages[0] && !env.batchRaises)
    ensures r == NoStorage <==> env.rootExists && (env.loggedIn || env.loggedInWithKeys) && env.storages == []
  {
    if !env.rootExists then RootMissing
    else if !env.loggedIn && !env.loggedInWithKeys then AuthFailed
    else if env.storages == [] then NoStorage
    else if env.batchRaises then ScanRaised
    else Scanned(env.storages[0], ProjectsByName(env.projects))
  }

  /** The outcome of `scan_cycle`: skipped when the lock is taken, otherwise
      the scan's outcome, and the lock afterwards. */
  datatype Cycle = Cycle(acquired: bool, outcome: Option<ScanOutcome>, lock: Lock)

  /** `scan_cycle`: a failed acquire returns without scanning; otherwise the
      scan runs and the `finally` deletes the key, even when the scan raises. */
  function ScanCycle(lock: Lock, now: int, env: ScanEnv): (r: Cycle)
    ensures r.acquired <==> !Held(lock, now)
    ensures !r.acquired ==> r.outcome.None? && r.lock == lock
    ensures r.acquired ==> r.outcome == Some(DoScan(env)) && r.lock.None?
  {
    var (ok, held) := AcquireLock(lock, now);
    if !ok then Cycle(false, None, held)
    else Cycle(true, Some(DoScan(env)), None)
  }

  // ---------------------------------------------------------------- the loop

  /** One turn of the loop: whether the stop event is already set when the
      condition is checked, the clock and catalogue of the cycle, and whether
      the stop event is set during the wait that follows. */
  datatype Tick = Tick(stopBefore: bool, now: int, env: ScanEnv, stopDuringWait: bool)

  /** The cycles run and the lock after a sequence of turns, and whether the
      loop ended (the turns may run out first). */
  datatype Trace = Trace(cycles: seq<Cycle>, lock: Lock, stopped: bool)

  /** `run`: while the stop event is not set, a cycle when enabled (an
      exception is logged and the loop goes on), then the wait, which ends
      the loop when the event is set during it. */
  function RunLoop(ticks: seq<Tick>, enabled: bool, lock: Lock): (r: Trace)
    ensures !enabled ==> r.cycles == [] && r.lock == lock
    ensures |r.cycles| <= |ticks|
  {
    if ticks == [] then Trace([], lock, false)
    else if ticks[0].stopBefore then Trace([], lock, true)
    else
      var cycles := if enabled then [ScanCycle(lock, ticks[0].now, ticks[0].env)] else [];
      var after := if enabled then ScanCycle(lock, ticks[0].now, ticks[0].env).lock else lock;
      if ticks[0].stopDuringWait then Trace(cycles, after, true)
      else
        var rest := RunLoop(ticks[1..], enabled, after);
        Trace(cycles + rest.cycles, rest.lock, rest.stopped)
  }

  /** The number of turns the loop takes before the stop event ends it. */
  function TurnsBeforeStop(ticks: seq<Tick>): (n: nat)
    ensures n <= |ticks|
  {
    if ticks == [] || ticks[0].stopBefore then 0
    else if ticks[0].stopDuringWait then 1
    else 1 + TurnsBeforeStop(ticks[1..])
  }

  /** When enabled, every turn before the stop runs one cycle, whatever the
      earlier cycles did: a raising scan does not end the loop. */
  lemma {:induction false} OneCyclePerTurn(ticks: seq<Tick>, lock: Lock)
    ensures |RunLoop(ticks, true, lock).cycles| == TurnsBeforeStop(ticks)
    ensures RunLoop(ticks, true, lock).stopped <==> (TurnsBeforeStop(ticks) < |ticks|
      || (ticks != [] && ticks[|ticks| - 1].stopDuringWait))
  {
    if ticks != [] && !ticks[0].stopBefore && !ticks[0].stopDuringWait {
      var after := ScanCycle(lock, ticks[0].now, ticks[0].env).lock;
      OneCyclePerTurn(ticks[1..], after);
      if ticks[1..] != [] {
        assert ticks[1..][|ticks[1..]| - 1] == ticks[|ticks| - 1];
      }
    }
  }

  /** Run alone (the lock free at the start), the scanner acquires the lock on
      every turn and leaves it free: the `finally` never leaks it. */
  lemma {:induction false} LockFreeAfterLoop(ticks: seq<Tick>, enabled: bool)
    ensures RunLoop(ticks, enabled, None).lock.None?
    ensures forall i :: 0 <= i < |RunLoop(ticks, enabled, None).cycles| ==>
      RunLoop(ticks, enabled, None).cycles[i].acquired
  {
    if ticks != [] && !ticks[0].stopBefore && !ticks[0].stopDuringWait {
      LockFreeAfterLoop(ticks[1..], enabled);
      var r := RunLoop(ticks, enabled, None);
      var rest := RunLoop(ticks[1..], enabled, None);
      var first := if enabled then [ScanCycle(None, ticks[0].now, ticks[0].env)] else [];
      assert r.cycles == first + rest.cycles;
      assert forall i :: 0 <= i < |first| ==> first[i].acquired;
    }
  }
}
