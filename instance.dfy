/** Single-instance toggling (main.go:136-146, tools.go:21-72): the lock
    file lives in the first temp directory the environment names, holds
    the owner's PID in decimal, and a second start that cannot take the
    lock signals the owner and exits. The environment, the file system and
    the outcome of `flock` are inputs here. */
module Instance {
  import opened Wrappers
  import opened GoStrconv

  /** `os.Getenv`: an unset variable reads as the empty string. */
  function Getenv(env: map<string, string>, key: string): (r: string)
    ensures key !in env ==> r == ""
    ensures r != "" ==> key in env && env[key] == r
  {
    if key in env then env[key] else ""
  }

  /** The variables `tempDir` consults, highest priority first. */
  const TempVars: seq<string> := ["TMPDIR", "TEMP", "TMP", "XDG_RUNTIME_DIR"]

  const DefaultTempDir: string := "/tmp"

  /** Reference definition: the value of the first variable of `vars`
      that is set to a non-empty value, else `fallback`. */
  function FirstSet(env: map<string, string>, vars: seq<string>, fallback: string): string {
    if vars == [] then fallback
    else if Getenv(env, vars[0]) != "" then Getenv(env, vars[0])
    else FirstSet(env, vars[1..], fallback)
  }

  /** `FirstSet` honours the priority order: a variable wins exactly when
      it is set and every earlier one is empty. */
  lemma {:induction false} FirstSetPriority(env: map<string, string>, vars: seq<string>, fallback: string, k: nat)
    requires k < |vars| && Getenv(env, vars[k]) != ""
    requires forall j :: 0 <= j < k ==> Getenv(env, vars[j]) == ""
    ensures FirstSet(env, vars, fallback) == Getenv(env, vars[k])
  {
    if k > 0 {
      assert Getenv(env, vars[0]) == "";
      FirstSetPriority(env, vars[1..], fallback, k - 1);
    }
  }

  /** With every variable of `vars` empty the fallback is taken. */
  lemma {:induction false} FirstSetFallback(env: map<string, string>, vars: seq<string>, fallback: string)
    requires forall j :: 0 <= j < |vars| ==> Getenv(env, vars[j]) == ""
    ensures FirstSet(env, vars, fallback) == fallback
  {
    if vars != [] {
      assert Getenv(env, vars[0]) == "";
      FirstSetFallback(env, vars[1..], fallback);
    }
  }

  /** `tempDir`: TMPDIR, then TEMP, then TMP, then XDG_RUNTIME_DIR, then
      `/tmp`; the result is never empty. */
  function TempDir(env: map<string, string>): (r: string)
    ensures r == FirstSet(env, TempVars, DefaultTempDir)
    ensures r != ""
  {
    if Getenv(env, "TMPDIR") != "" then Getenv(env, "TMPDIR")
    else if Getenv(env, "TEMP") != "" then Getenv(env, "TEMP")
    else if Getenv(env, "TMP") != "" then
      FirstSetPriority(env, TempVars, DefaultTempDir, 2);
      Getenv(env, "TMP")
    else if Getenv(env, "XDG_RUNTIME_DIR") != "" then
      FirstSetPriority(env, TempVars, DefaultTempDir, 3);
      Getenv(env, "XDG_RUNTIME_DIR")
    else
      assert forall j :: 0 <= j < |TempVars| ==> Getenv(env, TempVars[j]) == "";
      FirstSetFallback(env, TempVars, DefaultTempDir);
      DefaultTempDir
  }

  /** Variables outside `TempVars` never influence the choice. */
  lemma TempDirIgnoresOthers(env: map<string, string>, key: string, value: string)
    requires key !in TempVars
    ensures TempDir(env[key := value]) == TempDir(env)
  {
    forall k | 0 <= k < |TempVars|
      ensures Getenv(env[key := value], TempVars[k]) == Getenv(env, TempVars[k])
    {
      assert TempVars[k] != key;
    }
  }

  /** How far `createLockFile` got: the open, the non-blocking exclusive
      `flock`, the truncation or the write failed, or all succeeded. */
  datatype LockStep = OpenFailed | FlockFailed | TruncateFailed | WriteFailed | Locked

  /** What `createLockFile` returns (success) and what the file holds
      afterwards. A failed write is taken to write nothing. */
  datatype LockResult = LockResult(ok: bool, contents: string)

  function CreateLockFile(step: LockStep, pid: int, previous: string): (r: LockResult)
    ensures r.ok <==> step == Locked
    ensures r.ok ==> r.contents == Itoa(pid)
    ensures step in {OpenFailed, FlockFailed, TruncateFailed} ==> r.contents == previous
  {
    match step
    case OpenFailed => LockResult(false, previous)
    case FlockFailed => LockResult(false, previous)
    case TruncateFailed => LockResult(false, previous)
    case WriteFailed => LockResult(false, "")
    case Locked => LockResult(true, Itoa(pid))
  }

  /** `getLockFilePid`: `None` when reading the file failed (`read` is
      `None`) or its text is not an `int`. */
  function GetLockFilePid(read: Option<string>): (r: Option<int>)
    ensures read.None? ==> r.None?
    ensures r.Some? ==> MinInt <= r.value <= MaxInt
  {
    if read.None? then None else Atoi(read.value)
  }

  /** A successful lock leaves exactly the writer's PID in the file,
      without a newline and whatever the file held before, and reading it
      back gives that PID. */
  lemma LockFileRoundTrip(pid: int, previous: string)
    requires MinInt <= pid <= MaxInt
    ensures var r := CreateLockFile(Locked, pid, previous);
      r.ok && '\n' !in r.contents && GetLockFilePid(Some(r.contents)) == Some(pid)
  {
    AtoiItoa(pid);
  }

  /** What `main` does after trying the lock: go on starting up, or exit
      with status 0 after optionally sending SIGTERM to a PID. */
  datatype Startup = Proceed | Exit(status: int, sigterm: Option<int>)

  /** The toggle decision. `read` is what reading the lock file gave. */
  function Toggle(lock: LockResult, read: Option<string>): (r: Startup)
    ensures lock.ok <==> r == Proceed
    ensures !lock.ok ==> r.status == 0
    ensures !lock.ok ==> (r.sigterm.Some? <==> GetLockFilePid(read).Some?)
    ensures !lock.ok && r.sigterm.Some? ==> Some(r.sigterm.value) == GetLockFilePid(read)
  {
    if lock.ok then Proceed
    else
      var pid := GetLockFilePid(read);
      if pid.Some? then Exit(0, Some(pid.value)) else Exit(0, None)
  }

  /** Starting the popup twice: the first start takes the lock and writes
      its PID; the second finds the lock held, reads the same file, sends
      SIGTERM to the first and exits with status 0. */
  lemma SecondStartStopsFirst(first: int, second: int, previous: string)
    requires 0 < first <= MaxInt
    ensures var file := CreateLockFile(Locked, first, previous).contents;
      var attempt := CreateLockFile(FlockFailed, second, file);
      Toggle(attempt, Some(attempt.contents)) == Exit(0, Some(first))
  {
    LockFileRoundTrip(first, previous);
  }

  /** A stale or unreadable lock file does not start a second instance:
      exit 0 without a signal. */
  lemma UnreadableLockExits(lock: LockResult)
    requires !lock.ok
    ensures Toggle(lock, None) == Exit(0, None)
    ensures Toggle(lock, Some("")) == Exit(0, None)
  {
  }
}
