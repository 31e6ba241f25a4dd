/** What every plugin inherits from the `Middleware` base class:
    `shouldRebuild`, which asks the staleness cache about each accepted
    file, and `run`, which executes the plugin on each accepted file in
    turn and records the file's modification time after it. */
module Middleware {
  import opened Wrappers
  import Paths
  import opened Cache
  import opened Plugins

  /** `shouldRebuild(srcDir, files)`: `files.some(f => hasChanged(join(srcDir, f)))`,
      stopping at the first changed file or the first missing one. */
  function ShouldRebuild(table: Table, disk: Disk, srcDir: Paths.Path, files: seq<Paths.Path>): Result<bool, Failure>
  {
    if |files| == 0 then Ok(false)
    else match Changed(table, disk, Paths.Join(srcDir, files[0]))
      case Err(e) => Err(StatFailed(e.path))
      case Ok(true) => Ok(true)
      case Ok(false) => ShouldRebuild(table, disk, srcDir, files[1..])
  }

  /** The source paths of the given files. */
  function Sources(srcDir: Paths.Path, files: seq<Paths.Path>): set<Paths.Path>
  {
    set k | 0 <= k < |files| :: Paths.Join(srcDir, files[k])
  }

  /** Every accepted file exists and its recorded mtime is current. */
  predicate AllSynced(table: Table, disk: Disk, srcDir: Paths.Path, files: seq<Paths.Path>)
  {
    forall k :: 0 <= k < |files| ==> Synced(table, disk, Paths.Join(srcDir, files[k]))
  }

  /** A plugin is skipped exactly when all its files are in sync; when it
      is not skipped, the first file out of sync decides between a
      rebuild (the file changed) and a failure (the file is missing). */
  lemma {:induction false} ShouldRebuildIsSync(table: Table, disk: Disk, srcDir: Paths.Path, files: seq<Paths.Path>)
    ensures ShouldRebuild(table, disk, srcDir, files) == Ok(false) <==> AllSynced(table, disk, srcDir, files)
    ensures ShouldRebuild(table, disk, srcDir, files).Err? ==>
      exists k :: 0 <= k < |files| && Paths.Join(srcDir, files[k]) !in disk
  {
    if |files| > 0 {
      ShouldRebuildIsSync(table, disk, srcDir, files[1..]);
      if ShouldRebuild(table, disk, srcDir, files[1..]).Err? {
        var k :| 0 <= k < |files[1..]| && Paths.Join(srcDir, files[1..][k]) !in disk;
        assert Paths.Join(srcDir, files[k + 1]) !in disk;
      }
      if AllSynced(table, disk, srcDir, files[1..]) && Synced(table, disk, Paths.Join(srcDir, files[0])) {
        forall k | 0 <= k < |files| ensures Synced(table, disk, Paths.Join(srcDir, files[k])) {
          if k > 0 { assert files[k] == files[1..][k - 1]; }
        }
      }
      if AllSynced(table, disk, srcDir, files) {
        forall k | 0 <= k < |files[1..]| ensures Synced(table, disk, Paths.Join(srcDir, files[1..][k])) {
          assert files[1..][k] == files[k + 1];
        }
      }
    }
  }

  /** The end of `run`: the table, the actions taken, how many files were
      executed and recorded, and the failure that stopped it, if any. */
  datatype RunResult = RunResult(table: Table, actions: seq<Action>, recorded: nat, error: Option<Failure>)

  /** A plugin's `execute(srcFile, destDir, destFile)`, as the base
      class's `run` calls it: whichever subclass the plugin is. */
  type Executor = (Paths.Path, Paths.Path, Paths.Path) -> Execution

  /** The dispatch of `this.execute` to the plugin's own class. */
  function Dispatch(p: Plugin, outcome: Paths.Path -> Outcome): Executor
  {
    (src, destDir, destFile) => Execute(p, src, destDir, destFile, outcome(src))
  }

  /** The outside world of one copy: the current modification times, and
      the `execute` of each plugin. */
  datatype World = World(disk: Disk, execute: Plugin -> Executor)

  /** The world in which every plugin executes as its class defines,
      meeting the given outcome for each source file. */
  function Live(disk: Disk, outcome: Paths.Path -> Outcome): World
  {
    World(disk, p => Dispatch(p, outcome))
  }

  /** One iteration's `execute(join(srcDir, f), dirname(destFile), destFile)`
      with `destFile = join(targetDir, f)`. */
  function Step(execute: Executor, srcDir: Paths.Path, targetDir: Paths.Path, f: Paths.Path): Execution
  {
    var dest := Paths.Join(targetDir, f);
    execute(Paths.Join(srcDir, f), Paths.Dirname(dest), dest)
  }

  /** `run(srcDir, targetDir, files)`: for each file, execute the plugin on
      `join(srcDir, f)` with destination `join(targetDir, f)` in that
      file's directory, then `updateMtime` the source; the first failure
      ends the loop. */
  function RunSpec(execute: Executor, table: Table, disk: Disk, srcDir: Paths.Path, targetDir: Paths.Path, files: seq<Paths.Path>): RunResult
    decreases |files|
  {
    if |files| == 0 then RunResult(table, [], 0, None)
    else
      var src := Paths.Join(srcDir, files[0]);
      var e := Step(execute, srcDir, targetDir, files[0]);
      if e.error.Some? then RunResult(table, e.actions, 0, e.error)
      else match Upserted(table, disk, src)
        case Err(err) => RunResult(table, e.actions, 0, Some(StatFailed(err.path)))
        case Ok(t) =>
          var rest := RunSpec(execute, t, disk, srcDir, targetDir, files[1..]);
          RunResult(rest.table, e.actions + rest.actions, rest.recorded + 1, rest.error)
  }

  /** One step of `run`, for the loop of `Run`. */
  lemma RunSpecStep(execute: Executor, table: Table, disk: Disk, srcDir: Paths.Path, targetDir: Paths.Path, files: seq<Paths.Path>, i: nat)
    requires i < |files|
    ensures var src := Paths.Join(srcDir, files[i]);
      var e := Step(execute, srcDir, targetDir, files[i]);
      var r := RunSpec(execute, table, disk, srcDir, targetDir, files[i..]);
      && (e.error.Some? ==> r == RunResult(table, e.actions, 0, e.error))
      && (e.error.None? && src !in disk ==> r == RunResult(table, e.actions, 0, Some(StatFailed(src))))
      && (e.error.None? && src in disk ==>
           var rest := RunSpec(execute, table[src := disk[src]], disk, srcDir, targetDir, files[i + 1..]);
           r == RunResult(rest.table, e.actions + rest.actions, rest.recorded + 1, rest.error))
  {
    assert files[i..][0] == files[i] && files[i..][1..] == files[i + 1..];
  }

  /** `run` executes a prefix of the files and records exactly those: it
      records them all when nothing fails, each recorded file is then in
      sync, and no other row of the table changes. */
  lemma {:induction false} RunRecords(execute: Executor, table: Table, disk: Disk, srcDir: Paths.Path, targetDir: Paths.Path, files: seq<Paths.Path>)
    ensures var r := RunSpec(execute, table, disk, srcDir, targetDir, files);
      && r.recorded <= |files|
      && (r.error.None? ==> r.recorded == |files|)
      && AllSynced(r.table, disk, srcDir, files[..r.recorded])
      && r.table.Keys == table.Keys + Sources(srcDir, files[..r.recorded])
      && forall q :: q in table && q !in Sources(srcDir, files[..r.recorded]) ==> r.table[q] == table[q]
    decreases |files|
  {
    var r := RunSpec(execute, table, disk, srcDir, targetDir, files);
    if |files| > 0 {
      var src := Paths.Join(srcDir, files[0]);
      var e := Step(execute, srcDir, targetDir, files[0]);
      if e.error.None? && Upserted(table, disk, src).Ok? {
        var t := Upserted(table, disk, src).value;
        var tail := files[1..];
        RunRecords(execute, t, disk, srcDir, targetDir, tail);
        var rest := RunSpec(execute, t, disk, srcDir, targetDir, tail);
        assert r.table == rest.table && r.recorded == rest.recorded + 1;
        RunKeeps(execute, t, disk, srcDir, targetDir, tail, src);
        AllSyncedCons(r.table, disk, srcDir, files, r.recorded);
        SourcesCons(srcDir, files, r.recorded);
        var done := Sources(srcDir, files[..r.recorded]);
        assert done == {src} + Sources(srcDir, tail[..rest.recorded]);
        assert r.table.Keys == table.Keys + done by {
          assert t.Keys == table.Keys + {src};
        }
        forall q | q in table && q !in done
          ensures r.table[q] == table[q]
        {
          assert q != src && t[q] == table[q];
        }
      } else {
        assert r.table == table && r.recorded == 0;
        assert Sources(srcDir, files[..0]) == {};
      }
    } else {
      assert Sources(srcDir, files[..0]) == {};
    }
  }

  /** The sources of a non-empty prefix: its first file's, then the rest's. */
  lemma SourcesCons(srcDir: Paths.Path, files: seq<Paths.Path>, n: nat)
    requires 0 < n <= |files|
    ensures Sources(srcDir, files[..n]) == {Paths.Join(srcDir, files[0])} + Sources(srcDir, files[1..][..n - 1])
  {
    var head, tail := files[..n], files[1..][..n - 1];
    forall x | x in Sources(srcDir, head)
      ensures x in {Paths.Join(srcDir, files[0])} + Sources(srcDir, tail)
    {
      var k :| 0 <= k < n && x == Paths.Join(srcDir, head[k]);
      if k > 0 { assert head[k] == tail[k - 1]; }
    }
    forall x | x in {Paths.Join(srcDir, files[0])} + Sources(srcDir, tail)
      ensures x in Sources(srcDir, head)
    {
      if x != Paths.Join(srcDir, files[0]) {
        var k :| 0 <= k < n - 1 && x == Paths.Join(srcDir, tail[k]);
        assert tail[k] == head[k + 1];
      } else {
        assert head[0] == files[0];
      }
    }
  }

  /** A prefix is in sync when its first file and the rest are. */
  lemma AllSyncedCons(table: Table, disk: Disk, srcDir: Paths.Path, files: seq<Paths.Path>, n: nat)
    requires 0 < n <= |files|
    requires Synced(table, disk, Paths.Join(srcDir, files[0]))
    requires AllSynced(table, disk, srcDir, files[1..][..n - 1])
    ensures AllSynced(table, disk, srcDir, files[..n])
  {
    forall k | 0 <= k < n ensures Synced(table, disk, Paths.Join(srcDir, files[..n][k])) {
      if k > 0 { assert files[..n][k] == files[1..][..n - 1][k - 1]; }
    }
  }

  /** A row that is in sync stays in sync through `run`: later records
      only write the files' current modification times. */
  lemma {:induction false} RunKeeps(execute: Executor, table: Table, disk: Disk, srcDir: Paths.Path, targetDir: Paths.Path, files: seq<Paths.Path>, q: Paths.Path)
    requires Synced(table, disk, q)
    ensures Synced(RunSpec(execute, table, disk, srcDir, targetDir, files).table, disk, q)
    decreases |files|
  {
    if |files| > 0 {
      var src := Paths.Join(srcDir, files[0]);
      var e := Step(execute, srcDir, targetDir, files[0]);
      if e.error.None? && Upserted(table, disk, src).Ok? {
        RunKeeps(execute, Upserted(table, disk, src).value, disk, srcDir, targetDir, files[1..], q);
      }
    }
  }

  /** After a `run` in which nothing failed, `shouldRebuild` on the same
      files and an unchanged disk says no: a rebuilt plugin is skipped on
      the next copy. */
  lemma RunThenSkip(execute: Executor, table: Table, disk: Disk, srcDir: Paths.Path, targetDir: Paths.Path, files: seq<Paths.Path>)
    requires RunSpec(execute, table, disk, srcDir, targetDir, files).error.None?
    ensures ShouldRebuild(RunSpec(execute, table, disk, srcDir, targetDir, files).table, disk, srcDir, files) == Ok(false)
  {
    var r := RunSpec(execute, table, disk, srcDir, targetDir, files);
    RunRecords(execute, table, disk, srcDir, targetDir, files);
    assert files[..r.recorded] == files;
    ShouldRebuildIsSync(r.table, disk, srcDir, files);
  }

  /** `Remaining` only logs the files it is given (its copy comes after
      an early return), so running it copies nothing; it still records
      every file, and fails only on a file that has disappeared. */
  lemma {:induction false} RemainingRecordsOnly(outcome: Paths.Path -> Outcome, table: Table, disk: Disk,
                                                srcDir: Paths.Path, targetDir: Paths.Path, files: seq<Paths.Path>)
    ensures var r := RunSpec(Dispatch(Remaining, outcome), table, disk, srcDir, targetDir, files);
      && r.actions == []
      && (r.error.None? <==> forall k :: 0 <= k < |files| ==> Paths.Join(srcDir, files[k]) in disk)
    decreases |files|
  {
    var src := if |files| > 0 then Paths.Join(srcDir, files[0]) else "";
    if |files| > 0 && src in disk {
      RemainingRecordsOnly(outcome, table[src := disk[src]], disk, srcDir, targetDir, files[1..]);
      if forall k :: 1 <= k < |files| ==> Paths.Join(srcDir, files[k]) in disk {
        forall k | 0 <= k < |files[1..]| ensures Paths.Join(srcDir, files[1..][k]) in disk {
          assert files[1..][k] == files[k + 1];
        }
      }
    }
  }

  /** `Middleware.run`, updating the staleness cache in place; it stops
      at the first failure, as the thrown error would. */
  method Run(execute: Executor, cache: StalenessCache, disk: Disk, srcDir: Paths.Path, targetDir: Paths.Path, files: seq<Paths.Path>)
      returns (actions: seq<Action>, error: Option<Failure>)
    modifies cache
    ensures var spec := RunSpec(execute, old(cache.rows), disk, srcDir, targetDir, files);
      cache.rows == spec.table && actions == spec.actions && error == spec.error
  {
    ghost var whole := RunSpec(execute, cache.rows, disk, srcDir, targetDir, files);
    ghost var done := 0;
    actions := [];
    var i := 0;
    while i < |files|
      invariant 0 <= i <= |files|
      invariant var rest := RunSpec(execute, cache.rows, disk, srcDir, targetDir, files[i..]);
        whole == RunResult(rest.table, actions + rest.actions, done + rest.recorded, rest.error)
    {
      ghost var rows := cache.rows;
      RunSpecStep(execute, rows, disk, srcDir, targetDir, files, i);
      var src := Paths.Join(srcDir, files[i]);
      var e := Step(execute, srcDir, targetDir, files[i]);
      if e.error.Some? {
        assert whole == RunResult(rows, actions + e.actions, done, e.error);
        return actions + e.actions, e.error;
      }
      var recorded := cache.UpdateMtime(disk, src);
      if recorded.Err? {
        assert cache.rows == rows && src !in disk;
        assert whole == RunResult(rows, actions + e.actions, done, Some(StatFailed(src)));
        return actions + e.actions, Some(StatFailed(recorded.error.path));
      }
      ghost var next := RunSpec(execute, cache.rows, disk, srcDir, targetDir, files[i + 1..]);
      assert actions + (e.actions + next.actions) == (actions + e.actions) + next.actions;
      actions := actions + e.actions;
      done := done + 1;
      i := i + 1;
    }
    error := None;
  }
}
