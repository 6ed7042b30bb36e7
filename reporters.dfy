/**
 * The two read-only endpoints the admin page polls while a deployment runs:
 * admin/ajax/deployment-status.php (status, live file log and a progress
 * figure) and admin/ajax/view-deployment-logs.php (the latest deployment of
 * an application with its database log and file log combined).
 */
module Reporters {
  import opened Wrappers
  import opened Text
  import opened Php
  import opened Records
  import opened Workspaces
  import opened Store

  // ---------------------------------------------------------------- deployment-status.php

  /** The progress bar figure for a status; unknown statuses show 0. */
  function Progress(s: Status): (p: int)
    ensures p == 0 || p == 50 || p == 100
    ensures p == 100 <==> s == Completed
    ensures p == 50 <==> s == Running
  {
    match s
    case Pending => 0
    case Running => 50
    case Completed => 100
    case Failed => 0
    case Other(_) => 0
  }

  /**
   * The JSON of deployment-status.php. A failure carries `status` "failed"
   * whatever the cause, also for a deployment that does not exist.
   */
  datatype StatusResponse =
    | StatusOk(deployment: Deployment, status: string, log: string, progress: int, appName: Option<string>)
    | StatusError(message: string, status: string)

  /** The `deployment.log` of an application directory, "" when there is none. */
  function DirLog(disk: map<string, Workspace>, directory: string): string
  {
    if directory in disk then LogText(disk[directory]) else ""
  }

  /**
   * deployment-status.php for the `id` query parameter `raw`. The LEFT JOIN
   * keeps a deployment whose application is gone; its directory is then
   * empty and no application log is read.
   */
  function DeploymentStatus(t: Tables, disk: map<string, Workspace>, dbUp: bool, raw: string): (r: StatusResponse)
    ensures r.StatusError? ==> r.status == "failed"
    ensures r.StatusOk? <==>
      dbUp && RequestId(raw).Some? && FindDeployment(t.deployments, RequestId(raw).value).Some?
    ensures r.StatusOk? ==>
      var d := FindDeployment(t.deployments, RequestId(raw).value).value;
      var app := FindApp(t.applications, d.appId);
      && r.deployment == d
      && r.status == StatusName(d.status)
      && r.progress == Progress(d.status)
      && r.appName == (if app.Some? then Some(app.value.name) else None)
      && r.log == (if app.Some? then DirLog(disk, app.value.directory) else DirLog(disk, ""))
  {
    if !dbUp then StatusError("Database connection failed", "failed")
    else match RequestId(raw)
      case None => StatusError("Invalid deployment ID", "failed")
      case Some(id) =>
        match FindDeployment(t.deployments, id)
        case None => StatusError("Deployment not found", "failed")
        case Some(d) =>
          var app := FindApp(t.applications, d.appId);
          var directory := if app.Some? then app.value.directory else "";
          StatusOk(d, StatusName(d.status), DirLog(disk, directory), Progress(d.status),
                   if app.Some? then Some(app.value.name) else None)
  }

  /**
   * The status report shows the file log only: a deployment whose row holds
   * a log but whose directory has no `deployment.log` reports an empty log.
   */
  lemma StatusIgnoresDbLog(t: Tables, disk: map<string, Workspace>, raw: string)
    requires RequestId(raw).Some?
    requires FindDeployment(t.deployments, RequestId(raw).value).Some?
    requires forall dir | dir in disk :: LogName !in disk[dir]
    ensures DeploymentStatus(t, disk, true, raw).StatusOk?
    ensures DeploymentStatus(t, disk, true, raw).log == ""
  {
  }

  /** Changing only the rows' log column does not change the reported log. */
  lemma StatusLogIndependentOfRowLog(t: Tables, disk: map<string, Workspace>, raw: string, id: int, newLog: string)
    requires RequestId(raw) == Some(id)
    requires FindDeployment(t.deployments, id).Some?
    ensures var d := FindDeployment(t.deployments, id).value;
      var t2 := t.(deployments := SetStatus(t.deployments, id, d.status, newLog, 0));
      && DeploymentStatus(t2, disk, true, raw).StatusOk?
      && DeploymentStatus(t2, disk, true, raw).log == DeploymentStatus(t, disk, true, raw).log
  {
    var d := FindDeployment(t.deployments, id).value;
    var deps2 := SetStatus(t.deployments, id, d.status, newLog, 0);
    FindAfterSetStatus(t.deployments, id, d.status, newLog, 0);
  }

  /** A lookup after a status write finds the same row with the new columns. */
  lemma {:induction false} FindAfterSetStatus(deps: seq<Deployment>, id: int, st: Status, log: string, now: int)
    requires FindDeployment(deps, id).Some?
    ensures FindDeployment(SetStatus(deps, id, st, log, now), id) == Some(WithStatus(FindDeployment(deps, id).value, st, log, now))
    decreases |deps|
  {
    var r := SetStatus(deps, id, st, log, now);
    if deps[0].id != id {
      assert r[1..] == SetStatus(deps[1..], id, st, log, now);
      FindAfterSetStatus(deps[1..], id, st, log, now);
    }
  }

  // ---------------------------------------------------------------- view-deployment-logs.php

  /**
   * `ORDER BY started_at DESC LIMIT 1` over the application's rows: a row
   * with the latest start time (among equal start times, the earliest row).
   */
  function Latest(deps: seq<Deployment>, appId: int): (r: Option<Deployment>)
    ensures r.None? <==> forall d | d in deps :: d.appId != appId
    ensures r.Some? ==> r.value in deps && r.value.appId == appId
    ensures r.Some? ==> forall d | d in deps && d.appId == appId :: d.startedAt <= r.value.startedAt
    decreases |deps|
  {
    if |deps| == 0 then None
    else
      var rest := Latest(deps[1..], appId);
      assert forall d | d in deps :: d == deps[0] || d in deps[1..];
      if deps[0].appId != appId then rest
      else if rest.None? || rest.value.startedAt <= deps[0].startedAt then Some(deps[0])
      else rest
  }

  const LiveLogHeader := "\n\n--- Live Deployment Log ---\n"
  const NoLogs := "No deployment logs available for this application."
  const NoDeploymentLog := "No deployment logs available."

  /**
   * The combined log: the row's log, then the live file log when it is
   * non-empty and differs from it; an empty result becomes a fixed text.
   */
  function CombineLogs(dbLog: string, fileLog: string): (r: string)
    ensures !Empty(r)
    ensures !Empty(dbLog) ==> StartsWith(r, dbLog)
    ensures !Empty(fileLog) ==> EndsWith(r, fileLog)
    ensures Empty(fileLog) ==> r == (if Empty(dbLog) then NoLogs else dbLog)
  {
    var combined := if !Empty(fileLog) && fileLog != dbLog then dbLog + LiveLogHeader + fileLog else dbLog;
    if Empty(combined) then NoLogs else combined
  }

  /** The header separates the two logs exactly when they differ. */
  lemma CombineLogsHeader(dbLog: string, fileLog: string)
    requires !Empty(fileLog)
    ensures CombineLogs(dbLog, fileLog) == (if fileLog == dbLog then dbLog else dbLog + LiveLogHeader + fileLog)
  {
  }

  datatype LogsResponse =
    | LogsFound(deployment: Deployment, log: string, appName: string)
    | NoDeployment(message: string, log: string)
    | LogsError(message: string)

  /** view-deployment-logs.php for the session user and the posted `app_id`. */
  function ViewLogs(t: Tables, disk: map<string, Workspace>, user: Option<int>, dbUp: bool, raw: string): (r: LogsResponse)
    ensures r.LogsError? <==>
      user.None? || !dbUp || RequestId(raw).None? || FindApp(t.applications, RequestId(raw).value).None?
    ensures r.NoDeployment? ==> r.log == NoDeploymentLog
    ensures !r.LogsError? ==>
      var appId := RequestId(raw).value;
      && (r.NoDeployment? <==> forall d | d in t.deployments :: d.appId != appId)
      && (r.LogsFound? ==>
            && r.deployment == Latest(t.deployments, appId).value
            && r.log == CombineLogs(r.deployment.log,
                                    DirLog(disk, FindApp(t.applications, appId).value.directory)))
  {
    if user.None? then LogsError("Unauthorized")
    else if !dbUp then LogsError("Database connection failed")
    else match RequestId(raw)
      case None => LogsError("Invalid application ID")
      case Some(appId) =>
        match FindApp(t.applications, appId)
        case None => LogsError("Application not found")
        case Some(app) =>
          match Latest(t.deployments, appId)
          case None => NoDeployment("No deployment found for this application", NoDeploymentLog)
          case Some(d) => LogsFound(d, CombineLogs(d.log, DirLog(disk, app.directory)), app.name)
  }

  /** Of two deployments of the application, the later-started one is reported. */
  lemma ViewLogsShowsLatest(t: Tables, disk: map<string, Workspace>, user: int, raw: string, d1: Deployment, d2: Deployment)
    requires RequestId(raw).Some? && FindApp(t.applications, RequestId(raw).value).Some?
    requires d1 in t.deployments && d2 in t.deployments
    requires d1.appId == RequestId(raw).value && d2.appId == RequestId(raw).value
    requires d1.startedAt < d2.startedAt
    ensures ViewLogs(t, disk, Some(user), true, raw).LogsFound?
    ensures ViewLogs(t, disk, Some(user), true, raw).deployment != d1
  {
  }
}
