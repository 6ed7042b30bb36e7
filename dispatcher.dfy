/**
 * The deploy endpoint, admin/ajax/deploy-app.php: it checks the session and
 * the application id, refuses while a deployment of the application is
 * `running`, inserts a `pending` deployment row, creates the application
 * directory and launches the background worker with the new row's id.
 */
module Dispatcher {
  import opened Wrappers
  import opened Text
  import opened Php
  import opened Records
  import opened Workspaces
  import opened Store
  import opened Worker

  /** The log text the new deployment row starts with. */
  const InitialLog := "Deployment initiated...\n"

  /** The interpreters tried, in order. */
  const PhpPaths: seq<string> := ["/usr/local/bin/php", "/usr/bin/php", "php"]

  const WorkerScriptPath := "/app/code/admin/ajax/../../scripts/deploy-background.php"

  /** The JSON the endpoint answers with. */
  datatype Response =
    | Started(deploymentId: int, appName: string)
    | Rejected(message: string)

  /**
   * The endpoint's effect on the tables and its answer. `user` is
   * `$_SESSION['user_id']`, `dbUp` whether getDbConnection succeeds, `raw`
   * the posted `app_id`, `now` the CURRENT_TIMESTAMP of the insert.
   */
  function Dispatch(t: Tables, user: Option<int>, dbUp: bool, raw: string, now: int): (r: (Tables, Response))
    ensures r.1.Started? <==>
      && user.Some? && dbUp && RequestId(raw).Some?
      && FindApp(t.applications, RequestId(raw).value).Some?
      && !HasRunning(t.deployments, RequestId(raw).value)
    ensures r.1.Rejected? ==> r.0 == t
    ensures r.1.Started? ==>
      && r.1.deploymentId == t.nextDeploymentId
      && r.0 == t.(
           deployments := t.deployments + [Deployment(r.1.deploymentId, RequestId(raw).value, Pending, InitialLog, now, None)],
           nextDeploymentId := t.nextDeploymentId + 1,
           activity := t.activity + [Activity(user, "deployment_started", "Started deployment for: " + r.1.appName)])
  {
    if user.None? then (t, Rejected("Unauthorized"))
    else if !dbUp then (t, Rejected("Database connection failed"))
    else match RequestId(raw)
      case None => (t, Rejected("Invalid application ID"))
      case Some(appId) =>
        match FindApp(t.applications, appId)
        case None => (t, Rejected("Application not found"))
        case Some(app) =>
          if HasRunning(t.deployments, appId) then
            (t, Rejected("A deployment is already running for this application"))
          else
            var id := t.nextDeploymentId;
            var t1 := t.(deployments := t.deployments + [Deployment(id, appId, Pending, InitialLog, now, None)],
                         nextDeploymentId := id + 1);
            (t1.(activity := t1.activity + [Activity(user, "deployment_started", "Started deployment for: " + app.name)]),
             Started(id, app.name))
  }

  /** The shell command that starts the worker in the background. */
  function LaunchCommand(phpBinary: string, id: nat, directory: string): string
  {
    phpBinary + " " + WorkerScriptPath + " " + NatToString(id)
    + " >> /app/code/apps/" + directory + "/deployment.log 2>&1 &"
  }

  // ---------------------------------------------------------------- properties

  /**
   * The id handed to the worker reads back as the new row's id, and the
   * worker's joined lookup finds that pending row and its application.
   */
  lemma DispatchedRowReachesWorker(t: Tables, user: Option<int>, raw: string, now: int)
    requires TablesValid(t)
    requires Dispatch(t, user, true, raw, now).1.Started?
    ensures var r := Dispatch(t, user, true, raw, now);
      var id := r.1.deploymentId;
      && id > 0
      && RequestId(NatToString(id)) == Some(id)
      && JoinRow(r.0, id).Some?
      && JoinRow(r.0, id).value.0 == Deployment(id, RequestId(raw).value, Pending, InitialLog, now, None)
      && JoinRow(r.0, id).value.1 == FindApp(t.applications, RequestId(raw).value).value
  {
    var r := Dispatch(t, user, true, raw, now);
    var id := r.1.deploymentId;
    var appId := RequestId(raw).value;
    RenderedIdAccepted(id);
    FreshDeploymentId(t);
    FindDeploymentAtEnd(t.deployments, Deployment(id, appId, Pending, InitialLog, now, None));
  }

  /** A lookup by an id no earlier row has finds the appended row. */
  lemma {:induction false} FindDeploymentAtEnd(deps: seq<Deployment>, d: Deployment)
    requires forall e | e in deps :: e.id != d.id
    ensures FindDeployment(deps + [d], d.id) == Some(d)
    decreases |deps|
  {
    if |deps| > 0 {
      assert (deps + [d])[1..] == deps[1..] + [d];
      FindDeploymentAtEnd(deps[1..], d);
    }
  }

  /**
   * Only a `running` row blocks a request: with a `pending` deployment
   * already queued, a second request for the same application is accepted
   * as well, and two pending rows for it then exist.
   */
  lemma PendingDoesNotBlock(t: Tables, user: Option<int>, raw: string, now: int, later: int)
    requires Dispatch(t, user, true, raw, now).1.Started?
    ensures var t1 := Dispatch(t, user, true, raw, now).0;
      var r2 := Dispatch(t1, user, true, raw, later);
      && r2.1.Started?
      && |r2.0.deployments| == |t.deployments| + 2
      && r2.0.deployments[|t.deployments|].status == Pending
      && r2.0.deployments[|t.deployments| + 1].status == Pending
      && r2.0.deployments[|t.deployments|].appId == r2.0.deployments[|t.deployments| + 1].appId
  {
    var appId := RequestId(raw).value;
    var t1 := Dispatch(t, user, true, raw, now).0;
    assert t1.applications == t.applications;
    assert !HasRunning(t1.deployments, appId) by {
      forall d | d in t1.deployments && d.appId == appId ensures d.status != Running {
        if d !in t.deployments {
          assert d == t1.deployments[|t1.deployments| - 1];
        }
      }
    }
  }

  /** A running deployment of the application refuses the request and nothing is written. */
  lemma RunningBlocks(t: Tables, user: Option<int>, raw: string, now: int, d: Deployment)
    requires RequestId(raw).Some? && d in t.deployments && d.appId == RequestId(raw).value && d.status == Running
    ensures Dispatch(t, user, true, raw, now) == (t, Dispatch(t, user, true, raw, now).1)
    ensures Dispatch(t, user, true, raw, now).1.Rejected?
  {
  }

  // ---------------------------------------------------------------- the script

  /**
   * The `foreach` over the candidate interpreters: the first path that
   * exists, and `php` when none does.
   */
  method FindPhpBinary(fileExists: string -> bool) returns (phpBinary: string)
    ensures exists k | 0 <= k < |PhpPaths| :: FirstExisting(k, phpBinary, fileExists)
  {
    phpBinary := "php";
    var i := 0;
    while i < |PhpPaths|
      invariant 0 <= i <= |PhpPaths|
      invariant phpBinary == "php"
      invariant forall k | 0 <= k < i :: !fileExists(PhpPaths[k])
    {
      if fileExists(PhpPaths[i]) {
        phpBinary := PhpPaths[i];
        assert FirstExisting(i, phpBinary, fileExists);
        return;
      }
      i := i + 1;
    }
    assert FirstExisting(|PhpPaths| - 1, phpBinary, fileExists);
  }

  /**
   * The k-th candidate is the chosen one: it exists and none before it
   * does, or none exists at all and k is the last one, `php`.
   */
  predicate FirstExisting(k: int, phpBinary: string, fileExists: string -> bool)
    requires 0 <= k < |PhpPaths|
  {
    && PhpPaths[k] == phpBinary
    && (forall j | 0 <= j < k :: !fileExists(PhpPaths[j]))
    && (fileExists(phpBinary) || k == |PhpPaths| - 1)
  }

  /** The checks and the insert, on the tables. */
  method RecordRequest(db: Database, user: Option<int>, dbUp: bool, raw: string, now: int)
    returns (resp: Response, directory: string)
    requires db.Valid()
    modifies db
    ensures db.Valid()
    ensures (db.Snapshot(), resp) == Dispatch(old(db.Snapshot()), user, dbUp, raw, now)
    ensures resp.Started? ==>
      directory == FindApp(old(db.applications), RequestId(raw).value).value.directory
  {
    directory := "";
    if user.None? {
      return Rejected("Unauthorized"), directory;
    }
    if !dbUp {
      return Rejected("Database connection failed"), directory;
    }
    var appId := RequestId(raw);
    if appId.None? {
      return Rejected("Invalid application ID"), directory;
    }
    var app := FindApp(db.applications, appId.value);
    if app.None? {
      return Rejected("Application not found"), directory;
    }
    if HasRunning(db.deployments, appId.value) {
      return Rejected("A deployment is already running for this application"), directory;
    }
    var id := db.InsertDeployment(appId.value, InitialLog, now);
    db.LogActivity(user, "deployment_started", "Started deployment for: " + app.value.name);
    resp, directory := Started(id, app.value.name), app.value.directory;
  }

  /**
   * The endpoint. `fileExists` answers the interpreter probes and
   * `launchCode` is the return code of `exec`, which is only logged: the
   * answer does not depend on it. Returns the command run, if any.
   */
  method DeployAppEndpoint(db: Database, disk: Disk, user: Option<int>, dbUp: bool, raw: string, now: int,
                           fileExists: string -> bool, launchCode: int)
    returns (resp: Response, command: Option<string>)
    requires db.Valid() && disk.Valid()
    modifies db, disk
    ensures db.Valid() && disk.Valid()
    ensures (db.Snapshot(), resp) == Dispatch(old(db.Snapshot()), user, dbUp, raw, now)
    ensures resp.Rejected? ==> disk.Contents() == old(disk.Contents()) && command.None?
    ensures resp.Started? ==>
      var dir := FindApp(old(db.applications), RequestId(raw).value).value.directory;
      && disk.Contents() == old(disk.Contents())[dir := StartDir(old(disk.Contents()), dir)]
      && command.Some?
      && exists k | 0 <= k < |PhpPaths| ::
           FirstExisting(k, PhpPaths[k], fileExists) && command.value == LaunchCommand(PhpPaths[k], resp.deploymentId, dir)
  {
    var directory;
    resp, directory := RecordRequest(db, user, dbUp, raw, now);
    command := None;
    if resp.Started? {
      command := LaunchWorker(disk, directory, resp.deploymentId, fileExists);
    }
  }

  /** The `mkdir` of the application directory and the worker command line. */
  method LaunchWorker(disk: Disk, directory: string, deploymentId: nat, fileExists: string -> bool)
    returns (command: Option<string>)
    requires disk.Valid()
    modifies disk
    ensures disk.Valid()
    ensures disk.Contents() == old(disk.Contents())[directory := StartDir(old(disk.Contents()), directory)]
    ensures command.Some?
    ensures exists k | 0 <= k < |PhpPaths| ::
      FirstExisting(k, PhpPaths[k], fileExists) && command.value == LaunchCommand(PhpPaths[k], deploymentId, directory)
  {
    var _ := disk.MakeDir(directory);
    var phpBinary := FindPhpBinary(fileExists);
    command := Some(LaunchCommand(phpBinary, deploymentId, directory));
  }
}
