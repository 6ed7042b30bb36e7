/**
 * The background deployment worker, `deploy-background.php <deployment id>`:
 * one sequential run over a deployment row and its application directory.
 * The shell commands are represented by what they print and, for the clone,
 * by the tree it fetches; the two date stamps are inputs as well.
 */
module Worker {
  import opened Wrappers
  import opened Text
  import opened Php
  import opened Records
  import opened Workspaces
  import opened EnvInjector
  import opened Store

  /**
   * The statements of one run that raise, each with its PDOException
   * message: the joined lookup, the `running` write, the `deployed` UPDATE,
   * the `completed` write and the `failed` write of the catch block.
   */
  datatype WriteFaults = WriteFaults(
    lookup: Option<string>, running: Option<string>, deployed: Option<string>,
    completed: Option<string>, failure: Option<string>)

  /** What the commands of one run print and produce, and which statements raise. */
  datatype Outcomes = Outcomes(
    startedAt: string, cleanOutput: string, fetched: Option<Workspace>, cloneOutput: string,
    moveOutput: string, permOutput: string, composerOutput: string, npmOutput: string,
    finishedAt: string, envError: Option<string>, writes: WriteFaults)

  /** No statement of the run raises. */
  predicate NoWriteFaults(o: Outcomes)
  {
    o.writes == WriteFaults(None, None, None, None, None)
  }

  /** The database and the application directories together. */
  datatype State = State(tables: Tables, disk: map<string, Workspace>)

  /** The row text the catch block stores: the log so far, then the error. */
  function FailureLog(logSoFar: string, message: string): string
  {
    logSoFar + "\nERROR: Deployment failed: " + message + "\n"
  }

  /**
   * `SELECT d.*, a.name, … FROM deployments d JOIN applications a ON
   * d.application_id = a.id WHERE d.id = ?`: no row when the deployment
   * or its application is missing.
   */
  function JoinRow(t: Tables, id: int): (r: Option<(Deployment, Application)>)
    ensures r.Some? ==> r.value.0 in t.deployments && r.value.0.id == id
                        && r.value.1 in t.applications && r.value.1.id == r.value.0.appId
    ensures FindDeployment(t.deployments, id).None? ==> r.None?
  {
    match FindDeployment(t.deployments, id)
    case None => None
    case Some(d) =>
      match FindApp(t.applications, d.appId)
      case None => None
      case Some(a) => Some((d, a))
  }

  /** Step 1: the log is opened and every non-log entry removed. */
  function CleanStage(ws: Workspace, o: Outcomes): Workspace
  {
    var w1 := Append(Append(ws, "Deployment started at " + o.startedAt + "\n"), "Cleaning existing files...\n");
    Append(Clean(w1), "Clean output: " + o.cleanOutput + "\n")
  }

  /** Step 2: the clone into `temp`. */
  function FetchStage(ws: Workspace, o: Outcomes, repository: string, branch: string): Workspace
  {
    var w1 := Append(Append(ws, "Cloning repository: " + repository + "\n"), "Branch: " + branch + "\n");
    Append(CloneInto(w1, o.fetched), "Clone output: " + o.cloneOutput + "\n")
  }

  /** Steps 1 and 2. */
  function CloneStage(ws: Workspace, o: Outcomes, repository: string, branch: string): Workspace
  {
    FetchStage(CleanStage(ws, o), o, repository, branch)
  }

  /** Steps 3 and 4: the clone replaces the directory's entries, `temp` goes. */
  function MoveStage(ws: Workspace, o: Outcomes): Workspace
    requires HasClone(ws)
  {
    var w0 := Append(ws, "Moving files to application directory...\n");
    assert w0[CloneDir] == ws[CloneDir];
    var w1 := Append(Promote(w0), "Move output: " + o.moveOutput + "\n");
    Append(Append(w1, "Setting file permissions...\n"), "Permissions output: " + o.permOutput + "\n")
  }

  /** Steps 5 and 6: an installer runs only when its manifest exists; its output is only logged. */
  function Installers(ws: Workspace, o: Outcomes): Workspace
  {
    var w1 :=
      if "composer.json" in ws then
        Append(Append(ws, "Found composer.json, installing dependencies...\n"), "Composer output: " + o.composerOutput + "\n")
      else ws;
    if "package.json" in w1 then
      Append(Append(w1, "Found package.json, installing npm dependencies...\n"), "NPM output: " + o.npmOutput + "\n")
    else w1
  }

  /** Steps 5 to 7 and the announcement of step 8. */
  function PrepareStage(ws: Workspace, o: Outcomes): Workspace
  {
    Append(EnsureHtaccess(Installers(ws, o)), "Setting up custom environment variables...\n")
  }

  /** Steps 3 to 7, after the clone produced `temp`. */
  function InstallStage(ws: Workspace, o: Outcomes): Workspace
    requires HasClone(ws)
  {
    PrepareStage(MoveStage(ws, o), o)
  }

  /** The result of `SELECT var_key, var_value FROM custom_env_vars ORDER BY var_key`. */
  function EnvRows(t: Tables, o: Outcomes): EnvQuery
  {
    if o.envError.Some? then QueryError(o.envError.value) else Rows(OrderByKey(t.envVars))
  }

  /** Step 8, after InstallStage: the environment files. */
  function EnvStage(ws: Workspace, t: Tables, o: Outcomes, a: Application): Workspace
  {
    Inject(ws, EnvRows(t, o), a.name, a.id, a.directory)
  }

  /** The completion line, written after the `deployed` UPDATE. */
  function CompletionLine(ws: Workspace, o: Outcomes): Workspace
  {
    Append(ws, "Deployment completed successfully at " + o.finishedAt + "\n")
  }

  /**
   * The catch block: the deployment is marked `failed` with the log so far
   * and the error line, unless that write raises too, which ends the script
   * with the row as it was.
   */
  function CatchBlock(t: Tables, id: int, logSoFar: string, message: string, o: Outcomes, now: int): Tables
  {
    if o.writes.failure.Some? then t
    else t.(deployments := SetStatus(t.deployments, id, Failed, FailureLog(logSoFar, message), now))
  }

  /** The `running` write of the try block. */
  function Started(t: Tables, id: int, now: int): Tables
  {
    t.(deployments := SetStatus(t.deployments, id, Running, "Starting deployment...\n", now))
  }

  /**
   * Steps 3 to 9 and the completed write, after a successful clone. A
   * raising `deployed` UPDATE reaches the catch block before the completion
   * line; a raising `completed` write reaches it after the application was
   * marked deployed and the completion line logged.
   */
  function Complete(t: Tables, ws: Workspace, id: int, d: Deployment, a: Application, o: Outcomes, now: int): (Tables, Workspace)
    requires HasClone(ws)
  {
    var ws2 := EnvStage(InstallStage(ws, o), t, o, a);
    match o.writes.deployed
    case Some(m) => (CatchBlock(t, id, LogText(ws2), m, o, now), ws2)
    case None =>
      var t2 := t.(applications := SetDeployed(t.applications, d.appId, true));
      var ws3 := CompletionLine(ws2, o);
      match o.writes.completed
      case Some(m) => (CatchBlock(t2, id, LogText(ws3), m, o, now), ws3)
      case None => (t2.(deployments := SetStatus(t2.deployments, id, Completed, LogText(ws3), now)), ws3)
  }

  /**
   * The try block after the `running` write, on the tables and the
   * application's directory, for the joined row (d, a).
   */
  function Deploy(t: Tables, ws: Workspace, id: int, d: Deployment, a: Application, o: Outcomes, now: int): (Tables, Workspace)
  {
    var ws1 := CloneStage(ws, o, a.repository, a.branch);
    if HasClone(ws1) then Complete(t, ws1, id, d, a, o, now)
    else (CatchBlock(t, id, LogText(ws1), "Failed to clone repository", o, now), ws1)
  }

  /**
   * One run of the worker. `arg` is `$argv[1]`, `dbUp` whether
   * getDbConnection succeeds, `now` the time of the status writes. An
   * empty argument exits at once; an argument PostgreSQL cannot read as an
   * integer makes the lookup throw and the failure write in the catch throw
   * again, so neither changes anything. Until the `running` write succeeded
   * `$logFile` is unset, so the catch block stores only the error line and
   * no directory is made.
   */
  function WorkerRun(s: State, arg: string, dbUp: bool, o: Outcomes, now: int): State
  {
    match RequestId(arg)
    case None => s
    case Some(id) =>
      if !dbUp then s
      else if o.writes.lookup.Some? then s.(tables := CatchBlock(s.tables, id, "", o.writes.lookup.value, o, now))
      else match JoinRow(s.tables, id)
        case None => s.(tables := CatchBlock(s.tables, id, "", "Deployment not found", o, now))
        case Some(row) =>
          if o.writes.running.Some? then s.(tables := CatchBlock(s.tables, id, "", o.writes.running.value, o, now))
          else
            var r := Deploy(Started(s.tables, id, now), StartDir(s.disk, row.1.directory), id, row.0, row.1, o, now);
            State(r.0, s.disk[row.1.directory := r.1])
  }

  // ---------------------------------------------------------------- properties

  /** The clone step fails exactly when no tree was fetched, whatever git printed. */
  lemma CloneStageOutcome(ws: Workspace, o: Outcomes, repository: string, branch: string)
    ensures HasClone(CloneStage(ws, o, repository, branch)) <==> o.fetched.Some?
  {
    assert CloneDir != LogName;
    assert !IsLogName(CloneDir);
  }

  /** The log of the previous deployments is kept and only appended to before the clone. */
  lemma CloneStageKeepsLog(ws: Workspace, o: Outcomes, repository: string, branch: string)
    requires !(LogName in ws && ws[LogName].Dir?)
    ensures LogText(ws) <= LogText(CloneStage(ws, o, repository, branch))
  {
    var w1 := Append(Append(ws, "Deployment started at " + o.startedAt + "\n"), "Cleaning existing files...\n");
    CleanKeepsLog(w1);
    assert LogName != CloneDir;
  }

  /** The deployments after the catch block, when the `running` write had succeeded. */
  function CaughtAfterStart(deps: seq<Deployment>, id: int, logSoFar: string, message: string, o: Outcomes, now: int): seq<Deployment>
  {
    if o.writes.failure.Some? then SetStatus(deps, id, Running, "Starting deployment...\n", now)
    else SetStatus(deps, id, Failed, FailureLog(logSoFar, message), now)
  }

  /** The catch block after the `running` write, seen from the tables before it. */
  lemma CatchAfterStart(t: Tables, id: int, logSoFar: string, message: string, o: Outcomes, now: int)
    ensures CatchBlock(Started(t, id, now), id, logSoFar, message, o, now)
      == t.(deployments := CaughtAfterStart(t.deployments, id, logSoFar, message, o, now))
  {
    if o.writes.failure.None? {
      SetStatusTwice(t.deployments, id, Running, "Starting deployment...\n", Failed, FailureLog(logSoFar, message), now);
    }
  }

  /**
   * A failed clone ends the deployment `failed`, its log being the log file
   * followed by the error line, and never marks the application deployed;
   * when the failure write raises as well the row stays `running`.
   */
  lemma WorkerCloneFailure(s: State, arg: string, o: Outcomes, now: int, id: int, d: Deployment, a: Application)
    requires RequestId(arg) == Some(id) && JoinRow(s.tables, id) == Some((d, a)) && o.fetched.None?
    requires o.writes.lookup.None? && o.writes.running.None?
    ensures var r := WorkerRun(s, arg, true, o, now);
      && r.tables.applications == s.tables.applications
      && a.directory in r.disk
      && r.tables.deployments == CaughtAfterStart(s.tables.deployments, id, LogText(r.disk[a.directory]), "Failed to clone repository", o, now)
  {
    var ws1 := CloneStage(StartDir(s.disk, a.directory), o, a.repository, a.branch);
    CloneStageOutcome(StartDir(s.disk, a.directory), o, a.repository, a.branch);
    CatchAfterStart(s.tables, id, LogText(ws1), "Failed to clone repository", o, now);
  }

  /**
   * A fetched tree ends the deployment `completed` with the log file as its
   * log and the application marked deployed, unless a write raises: the
   * installers and the environment step never fail it.
   */
  lemma WorkerCloneSuccess(s: State, arg: string, o: Outcomes, now: int, id: int, d: Deployment, a: Application)
    requires RequestId(arg) == Some(id) && JoinRow(s.tables, id) == Some((d, a)) && o.fetched.Some?
    requires o.writes.lookup.None? && o.writes.running.None? && o.writes.deployed.None? && o.writes.completed.None?
    ensures var r := WorkerRun(s, arg, true, o, now);
      && r.tables.applications == SetDeployed(s.tables.applications, a.id, true)
      && a.directory in r.disk
      && r.tables.deployments == SetStatus(s.tables.deployments, id, Completed, LogText(r.disk[a.directory]), now)
  {
    var ws1 := CloneStage(StartDir(s.disk, a.directory), o, a.repository, a.branch);
    CloneStageOutcome(StartDir(s.disk, a.directory), o, a.repository, a.branch);
    var t1 := Started(s.tables, id, now);
    var r := Complete(t1, ws1, id, d, a, o, now);
    SetStatusTwice(s.tables.deployments, id, Running, "Starting deployment...\n", Completed, LogText(r.1), now);
  }

  /**
   * A raising `deployed` UPDATE ends the deployment `failed` with the log
   * file, which lacks the completion line, and leaves the application
   * undeployed.
   */
  lemma WorkerDeployedWriteFails(s: State, arg: string, o: Outcomes, now: int, id: int, d: Deployment, a: Application)
    requires RequestId(arg) == Some(id) && JoinRow(s.tables, id) == Some((d, a)) && o.fetched.Some?
    requires o.writes.lookup.None? && o.writes.running.None? && o.writes.deployed.Some?
    ensures var r := WorkerRun(s, arg, true, o, now);
      && r.tables.applications == s.tables.applications
      && a.directory in r.disk
      && r.tables.deployments == CaughtAfterStart(s.tables.deployments, id, LogText(r.disk[a.directory]), o.writes.deployed.value, o, now)
  {
    var ws1 := CloneStage(StartDir(s.disk, a.directory), o, a.repository, a.branch);
    CloneStageOutcome(StartDir(s.disk, a.directory), o, a.repository, a.branch);
    var t1 := Started(s.tables, id, now);
    var ws2 := EnvStage(InstallStage(ws1, o), t1, o, a);
    CatchAfterStart(s.tables, id, LogText(ws2), o.writes.deployed.value, o, now);
  }

  /**
   * A raising `completed` write comes after the application was marked
   * deployed and the completion line was logged: the application stays
   * deployed while its deployment ends `failed` (or stays `running`).
   */
  lemma WorkerCompletedWriteFails(s: State, arg: string, o: Outcomes, now: int, id: int, d: Deployment, a: Application)
    requires RequestId(arg) == Some(id) && JoinRow(s.tables, id) == Some((d, a)) && o.fetched.Some?
    requires o.writes.lookup.None? && o.writes.running.None? && o.writes.deployed.None? && o.writes.completed.Some?
    ensures var r := WorkerRun(s, arg, true, o, now);
      && r.tables.applications == SetDeployed(s.tables.applications, a.id, true)
      && a.directory in r.disk
      && r.tables.deployments == CaughtAfterStart(s.tables.deployments, id, LogText(r.disk[a.directory]), o.writes.completed.value, o, now)
  {
    var ws1 := CloneStage(StartDir(s.disk, a.directory), o, a.repository, a.branch);
    CloneStageOutcome(StartDir(s.disk, a.directory), o, a.repository, a.branch);
    var t1 := Started(s.tables, id, now);
    var t2 := t1.(applications := SetDeployed(t1.applications, d.appId, true));
    var ws3 := CompletionLine(EnvStage(InstallStage(ws1, o), t1, o, a), o);
    CatchAfterStart(s.tables.(applications := SetDeployed(s.tables.applications, d.appId, true)), id, LogText(ws3),
                    o.writes.completed.value, o, now);
  }

  /**
   * A raising lookup or `running` write reaches the catch block before
   * `$logFile` is set: no directory is made, and the deployment is marked
   * `failed` with only the error line, unless that write raises too.
   */
  lemma WorkerEarlyFault(s: State, arg: string, o: Outcomes, now: int, id: int, m: string)
    requires RequestId(arg) == Some(id)
    requires o.writes.lookup == Some(m) || (o.writes.lookup.None? && JoinRow(s.tables, id).Some? && o.writes.running == Some(m))
    ensures var r := WorkerRun(s, arg, true, o, now);
      && r.disk == s.disk && r.tables.applications == s.tables.applications
      && r.tables.deployments == if o.writes.failure.Some? then s.tables.deployments
                                 else SetStatus(s.tables.deployments, id, Failed, FailureLog("", m), now)
  {
  }

  /**
   * A deployment id without a joined row is marked `failed` (when the row
   * exists) with only the error line, unless that write raises; no
   * directory is touched.
   */
  lemma WorkerNotFound(s: State, arg: string, o: Outcomes, now: int, id: int)
    requires RequestId(arg) == Some(id) && o.writes.lookup.None? && JoinRow(s.tables, id).None?
    ensures var r := WorkerRun(s, arg, true, o, now);
      && r.disk == s.disk && r.tables.applications == s.tables.applications
      && r.tables.deployments == if o.writes.failure.Some? then s.tables.deployments
                                 else SetStatus(s.tables.deployments, id, Failed, FailureLog("", "Deployment not found"), now)
  {
  }

  /**
   * As written, `updateDeploymentStatus` sets `deployments.updated_at`, a
   * column public/config/database.php does not create: the `running`
   * write and the failure write both raise, and every run changes nothing,
   * so a deployment stays `pending` for good.
   */
  lemma StatusWritesFailAsWritten(s: State, arg: string, dbUp: bool, o: Outcomes, now: int)
    requires o.writes.running.Some? && o.writes.failure.Some?
    ensures WorkerRun(s, arg, dbUp, o, now) == s
  {
  }

  /** `applications.deployed` changes only on the success path. */
  lemma DeployedOnlyOnSuccess(s: State, arg: string, dbUp: bool, o: Outcomes, now: int)
    requires WorkerRun(s, arg, dbUp, o, now).tables.applications != s.tables.applications
    ensures RequestId(arg).Some? && dbUp && JoinRow(s.tables, RequestId(arg).value).Some? && o.fetched.Some?
    ensures o.writes.lookup.None? && o.writes.running.None? && o.writes.deployed.None?
  {
    var id := RequestId(arg).value;
    if o.writes.lookup.None? && JoinRow(s.tables, id).Some? && o.writes.running.None? {
      var row := JoinRow(s.tables, id).value;
      if o.fetched.None? {
        WorkerCloneFailure(s, arg, o, now, id, row.0, row.1);
      } else if o.writes.deployed.Some? {
        WorkerDeployedWriteFails(s, arg, o, now, id, row.0, row.1);
      }
    }
  }

  /** Without a usable argument or a connection nothing changes. */
  lemma WorkerRunIdle(s: State, arg: string, dbUp: bool, o: Outcomes, now: int)
    requires RequestId(arg).None? || !dbUp
    ensures WorkerRun(s, arg, dbUp, o, now) == s
  {
  }

  /** A lookup that raises, or finds no joined row, only reaches the catch block. */
  lemma WorkerRunMissing(s: State, arg: string, dbUp: bool, o: Outcomes, now: int, id: int)
    requires RequestId(arg) == Some(id) && dbUp && (o.writes.lookup.Some? || JoinRow(s.tables, id).None?)
    ensures WorkerRun(s, arg, dbUp, o, now)
      == s.(tables := CatchBlock(s.tables, id, "", o.writes.lookup.GetOr("Deployment not found"), o, now))
  {
  }

  /** A raising `running` write only reaches the catch block, with no log file yet. */
  lemma WorkerRunStartFails(s: State, arg: string, dbUp: bool, o: Outcomes, now: int, id: int)
    requires RequestId(arg) == Some(id) && dbUp && o.writes.lookup.None? && JoinRow(s.tables, id).Some?
    requires o.writes.running.Some?
    ensures WorkerRun(s, arg, dbUp, o, now) == s.(tables := CatchBlock(s.tables, id, "", o.writes.running.value, o, now))
  {
  }

  /** The run once the joined row was found and the `running` write succeeded: Deploy on the application's directory. */
  lemma WorkerRunFound(s: State, arg: string, dbUp: bool, o: Outcomes, now: int, id: int, d: Deployment, a: Application)
    requires RequestId(arg) == Some(id) && dbUp && o.writes.lookup.None? && JoinRow(s.tables, id) == Some((d, a))
    requires o.writes.running.None?
    ensures var r := Deploy(Started(s.tables, id, now), StartDir(s.disk, a.directory), id, d, a, o, now);
      WorkerRun(s, arg, dbUp, o, now) == State(r.0, s.disk[a.directory := r.1])
  {
  }

  /** The running write is overwritten by the final one. */
  lemma SetStatusTwice(deps: seq<Deployment>, id: int, s1: Status, l1: string, s2: Status, l2: string, now: int)
    ensures SetStatus(SetStatus(deps, id, s1, l1, now), id, s2, l2, now) == SetStatus(deps, id, s2, l2, now)
  {
    var once := SetStatus(deps, id, s1, l1, now);
    var lhs := SetStatus(once, id, s2, l2, now);
    var rhs := SetStatus(deps, id, s2, l2, now);
    forall i | 0 <= i < |deps| ensures lhs[i] == rhs[i] {
      if deps[i].id == id {
        assert lhs[i] == WithStatus(once[i], s2, l2, now) && rhs[i] == WithStatus(deps[i], s2, l2, now);
      }
    }
  }
}
