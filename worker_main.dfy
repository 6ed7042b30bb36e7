/**
 * The top level of deploy-background.php: the argument check, the joined
 * lookup, the directory creation and the run on that one directory of the
 * disk.
 */
module WorkerMain {
  import opened Wrappers
  import opened Php
  import opened Records
  import opened Workspaces
  import opened Store
  import opened Worker
  import opened WorkerScript

  /** DeployApp on the named directory of the disk; the other directories are untouched. */
  method DeployInDir(db: Database, disk: Disk, id: int, d: Deployment, a: Application, o: Outcomes, now: int)
    requires disk.Valid() && a.directory in disk.dirs
    modifies db, disk.dirs[a.directory]
    ensures disk.dirs == old(disk.dirs)
    ensures db.Snapshot() == Deploy(old(db.Snapshot()), old(disk.dirs[a.directory].entries), id, d, a, o, now).0
    ensures disk.dirs[a.directory].entries == Deploy(old(db.Snapshot()), old(disk.dirs[a.directory].entries), id, d, a, o, now).1
    ensures disk.Contents() == old(disk.Contents())[a.directory := disk.dirs[a.directory].entries]
  {
    var dir := disk.dirs[a.directory];
    DeployApp(db, dir, id, d, a, o, now);
    disk.OnlyOneChanged(a.directory);
  }

  /** `mkdir` when needed, then the try block in that directory. */
  method DeployRow(db: Database, disk: Disk, id: int, d: Deployment, a: Application, o: Outcomes, now: int)
    requires disk.Valid()
    modifies db, disk, disk.dirs.Values
    ensures disk.Valid()
    ensures db.Snapshot() == Deploy(old(db.Snapshot()), StartDir(old(disk.Contents()), a.directory), id, d, a, o, now).0
    ensures disk.Contents()
      == old(disk.Contents())[a.directory := Deploy(old(db.Snapshot()), StartDir(old(disk.Contents()), a.directory), id, d, a, o, now).1]
  {
    ghost var c0 := disk.Contents();
    var dir := disk.MakeDir(a.directory);
    ghost var w0 := dir.entries;
    DeployInDir(db, disk, id, d, a, o, now);
    ghost var w1 := dir.entries;
    assert disk.Contents() == c0[a.directory := w0][a.directory := w1];
    UpdateTwice(c0, a.directory, w0, w1);
  }

  lemma UpdateTwice<K, V>(m: map<K, V>, k: K, v1: V, v2: V)
    ensures m[k := v1][k := v2] == m[k := v2]
  {
  }

  /** The run of a joined row, as WorkerRun describes it: the `running` write, then the try block. */
  method RunFound(db: Database, disk: Disk, arg: string, dbUp: bool, o: Outcomes, now: int,
                  id: int, d: Deployment, a: Application)
    requires disk.Valid()
    requires RequestId(arg) == Some(id) && dbUp && o.writes.lookup.None? && JoinRow(db.Snapshot(), id) == Some((d, a))
    modifies db, disk, disk.dirs.Values
    ensures disk.Valid()
    ensures State(db.Snapshot(), disk.Contents()) == WorkerRun(State(old(db.Snapshot()), old(disk.Contents())), arg, dbUp, o, now)
  {
    if o.writes.running.Some? {
      RunStartFails(db, disk, arg, dbUp, o, now, id);
    } else {
      RunStarted(db, disk, arg, dbUp, o, now, id, d, a);
    }
  }

  /** A raising `running` write: only the catch block, with no log file yet. */
  method RunStartFails(db: Database, disk: Disk, arg: string, dbUp: bool, o: Outcomes, now: int, id: int)
    requires RequestId(arg) == Some(id) && dbUp && o.writes.lookup.None? && JoinRow(db.Snapshot(), id).Some?
    requires o.writes.running.Some?
    modifies db
    ensures State(db.Snapshot(), disk.Contents()) == WorkerRun(State(old(db.Snapshot()), old(disk.Contents())), arg, dbUp, o, now)
  {
    ghost var s0 := State(db.Snapshot(), disk.Contents());
    CatchWrite(db, id, "", o.writes.running.value, o, now);
    WorkerRunStartFails(s0, arg, dbUp, o, now, id);
  }

  /** The `running` write, then the try block in the application's directory. */
  method RunStarted(db: Database, disk: Disk, arg: string, dbUp: bool, o: Outcomes, now: int,
                    id: int, d: Deployment, a: Application)
    requires disk.Valid()
    requires RequestId(arg) == Some(id) && dbUp && o.writes.lookup.None? && JoinRow(db.Snapshot(), id) == Some((d, a))
    requires o.writes.running.None?
    modifies db, disk, disk.dirs.Values
    ensures disk.Valid()
    ensures State(db.Snapshot(), disk.Contents()) == WorkerRun(State(old(db.Snapshot()), old(disk.Contents())), arg, dbUp, o, now)
  {
    ghost var s0 := State(db.Snapshot(), disk.Contents());
    db.UpdateDeploymentStatus(id, Running, "Starting deployment...\n", now);
    assert db.Snapshot() == Started(s0.tables, id, now);
    assert disk.Contents() == s0.disk;
    DeployRow(db, disk, id, d, a, o, now);
    WorkerRunFound(s0, arg, dbUp, o, now, id, d, a);
    ghost var r := Deploy(Started(s0.tables, id, now), StartDir(s0.disk, a.directory), id, d, a, o, now);
    assert db.Snapshot() == r.0 && disk.Contents() == s0.disk[a.directory := r.1];
  }

  /** A lookup that raises, or a deployment id without a joined row: only the catch block. */
  method RunMissing(db: Database, disk: Disk, arg: string, dbUp: bool, o: Outcomes, now: int, id: int)
    requires RequestId(arg) == Some(id) && dbUp && (o.writes.lookup.Some? || JoinRow(db.Snapshot(), id).None?)
    modifies db
    ensures State(db.Snapshot(), disk.Contents()) == WorkerRun(State(old(db.Snapshot()), old(disk.Contents())), arg, dbUp, o, now)
  {
    ghost var s0 := State(db.Snapshot(), disk.Contents());
    var message := if o.writes.lookup.Some? then o.writes.lookup.value else "Deployment not found";
    CatchWrite(db, id, "", message, o, now);
    WorkerRunMissing(s0, arg, dbUp, o, now, id);
  }

  /** The whole script, proved to do what WorkerRun describes. */
  method RunWorker(db: Database, disk: Disk, arg: string, dbUp: bool, o: Outcomes, now: int)
    requires disk.Valid()
    modifies db, disk, disk.dirs.Values
    ensures disk.Valid()
    ensures State(db.Snapshot(), disk.Contents()) == WorkerRun(State(old(db.Snapshot()), old(disk.Contents())), arg, dbUp, o, now)
  {
    ghost var s0 := State(db.Snapshot(), disk.Contents());
    var deploymentId := RequestId(arg);
    if deploymentId.None? || !dbUp {
      WorkerRunIdle(s0, arg, dbUp, o, now);
      return;
    }
    var id := deploymentId.value;
    if o.writes.lookup.Some? {
      RunMissing(db, disk, arg, dbUp, o, now, id);
      return;
    }
    var row := JoinRow(db.Snapshot(), id);
    if row.None? {
      RunMissing(db, disk, arg, dbUp, o, now, id);
    } else {
      RunFound(db, disk, arg, dbUp, o, now, id, row.value.0, row.value.1);
    }
  }
}
