/**
 * The rows of the application's tables (`applications`, `deployments`,
 * `custom_env_vars`, `embeddings`, `activity_log`, `admin_users`) and the
 * row-level statements the endpoints and the worker issue against them.
 */
module Records {
  import opened Wrappers

  /** The `deployments.status` column; any other text is kept verbatim. */
  datatype Status = Pending | Running | Completed | Failed | Other(name: string)

  function StatusName(s: Status): string
  {
    match s
    case Pending => "pending"
    case Running => "running"
    case Completed => "completed"
    case Failed => "failed"
    case Other(n) => n
  }

  /** Reading the column back: the inverse of StatusName. */
  function ParseStatus(name: string): (s: Status)
    ensures StatusName(s) == name
  {
    if name == "pending" then Pending
    else if name == "running" then Running
    else if name == "completed" then Completed
    else if name == "failed" then Failed
    else Other(name)
  }

  predicate IsTerminal(s: Status)
  {
    s == Completed || s == Failed
  }

  datatype Application = Application(
    id: int, name: string, description: string, repository: string,
    branch: string, directory: string, deployed: bool)

  /** `completedAt` is None for SQL NULL; times are seconds. */
  datatype Deployment = Deployment(
    id: int, appId: int, status: Status, log: string,
    startedAt: int, completedAt: Option<int>)

  datatype EnvVar = EnvVar(id: int, key: string, value: string, description: string, sensitive: bool)

  datatype Embedding = Embedding(id: int, appId: int, content: string, createdAt: int)

  /** An `activity_log` row; the address and user agent are not modelled. */
  datatype Activity = Activity(userId: Option<int>, action: string, description: string)

  datatype AdminUser = AdminUser(id: int, username: string, email: string, active: bool)

  // ---------------------------------------------------------------- lookups

  /** `SELECT * FROM applications WHERE id = ?`. */
  function FindApp(apps: seq<Application>, id: int): (r: Option<Application>)
    ensures r.Some? ==> r.value in apps && r.value.id == id
    ensures r.None? <==> forall a | a in apps :: a.id != id
    decreases |apps|
  {
    if |apps| == 0 then None
    else if apps[0].id == id then Some(apps[0])
    else FindApp(apps[1..], id)
  }

  /** `SELECT * FROM deployments WHERE id = ?`. */
  function FindDeployment(deps: seq<Deployment>, id: int): (r: Option<Deployment>)
    ensures r.Some? ==> r.value in deps && r.value.id == id
    ensures r.None? <==> forall d | d in deps :: d.id != id
    decreases |deps|
  {
    if |deps| == 0 then None
    else if deps[0].id == id then Some(deps[0])
    else FindDeployment(deps[1..], id)
  }

  /** `SELECT id FROM deployments WHERE application_id = ? AND status = 'running'` finds a row. */
  predicate HasRunning(deps: seq<Deployment>, appId: int)
  {
    exists d | d in deps :: d.appId == appId && d.status == Running
  }

  /** Some application already uses the value in the given column. */
  predicate DirectoryTaken(apps: seq<Application>, dir: string, except: Option<int>)
  {
    exists a | a in apps :: a.directory == dir && Some(a.id) != except
  }

  predicate RepositoryTaken(apps: seq<Application>, repo: string, except: Option<int>)
  {
    exists a | a in apps :: a.repository == repo && Some(a.id) != except
  }

  // ---------------------------------------------------------------- updates

  /** The row `updateDeploymentStatus` writes over d. */
  function WithStatus(d: Deployment, st: Status, log: string, now: int): Deployment
  {
    d.(status := st, log := log, completedAt := if IsTerminal(st) then Some(now) else None)
  }

  /**
   * `UPDATE deployments SET status, log, completed_at WHERE id = ?`:
   * every row with that id is rewritten, whatever its current status, and
   * completed_at becomes the current time exactly for the two terminal
   * statuses and NULL otherwise.
   */
  function SetStatus(deps: seq<Deployment>, id: int, st: Status, log: string, now: int): (r: seq<Deployment>)
    ensures |r| == |deps|
    ensures forall i | 0 <= i < |deps| ::
      (deps[i].id == id ==>
         && r[i].id == id && r[i].appId == deps[i].appId && r[i].status == st
         && r[i].log == log && r[i].startedAt == deps[i].startedAt
         && (r[i].completedAt == Some(now) <==> IsTerminal(st))
         && (r[i].completedAt == None <==> !IsTerminal(st)))
      && (deps[i].id != id ==> r[i] == deps[i])
  {
    seq(|deps|, i requires 0 <= i < |deps| => if deps[i].id == id then WithStatus(deps[i], st, log, now) else deps[i])
  }

  /** An UPDATE on an id that has no row changes nothing. */
  lemma SetStatusAbsent(deps: seq<Deployment>, id: int, st: Status, log: string, now: int)
    requires forall d | d in deps :: d.id != id
    ensures SetStatus(deps, id, st, log, now) == deps
  {
    var r := SetStatus(deps, id, st, log, now);
    assert forall i | 0 <= i < |deps| :: deps[i] in deps;
  }

  /**
   * The status write does not look at the current status: a completed
   * deployment can be put back to running, which clears completed_at.
   */
  lemma SetStatusIgnoresCurrent(deps: seq<Deployment>, i: int, log: string, now: int)
    requires 0 <= i < |deps|
    ensures SetStatus(deps, deps[i].id, Running, log, now)[i].status == Running
    ensures SetStatus(deps, deps[i].id, Running, log, now)[i].completedAt == None
  {
  }

  /** `UPDATE applications SET deployed = ? WHERE id = ?`. */
  function SetDeployed(apps: seq<Application>, id: int, deployed: bool): (r: seq<Application>)
    ensures |r| == |apps|
    ensures forall i | 0 <= i < |apps| ::
      r[i] == (if apps[i].id == id then apps[i].(deployed := deployed) else apps[i])
  {
    seq(|apps|, i requires 0 <= i < |apps| => if apps[i].id == id then apps[i].(deployed := deployed) else apps[i])
  }

  /**
   * `UPDATE applications SET name, description, repository, branch,
   * directory WHERE id = ?`; `deployed` is kept.
   */
  function UpdateFields(apps: seq<Application>, id: int, name: string, description: string,
                        repository: string, branch: string, directory: string): (r: seq<Application>)
    ensures |r| == |apps|
    ensures forall i | 0 <= i < |apps| && apps[i].id != id :: r[i] == apps[i]
    ensures forall i | 0 <= i < |apps| && apps[i].id == id ::
      r[i] == Application(id, name, description, repository, branch, directory, apps[i].deployed)
  {
    seq(|apps|, i requires 0 <= i < |apps| =>
      if apps[i].id == id then apps[i].(name := name, description := description, repository := repository,
                                        branch := branch, directory := directory)
      else apps[i])
  }

  /** `DELETE FROM applications WHERE id = ?`, keeping the order of the rest. */
  function DeleteApp(apps: seq<Application>, id: int): (r: seq<Application>)
    ensures forall a :: a in r <==> a in apps && a.id != id
    ensures |r| <= |apps|
    decreases |apps|
  {
    if |apps| == 0 then []
    else if apps[0].id == id then DeleteApp(apps[1..], id)
    else [apps[0]] + DeleteApp(apps[1..], id)
  }

  /** `DELETE FROM deployments WHERE application_id = ?`. */
  function DeleteDeploymentsOf(deps: seq<Deployment>, appId: int): (r: seq<Deployment>)
    ensures forall d :: d in r <==> d in deps && d.appId != appId
    ensures |r| <= |deps|
    decreases |deps|
  {
    if |deps| == 0 then []
    else if deps[0].appId == appId then DeleteDeploymentsOf(deps[1..], appId)
    else [deps[0]] + DeleteDeploymentsOf(deps[1..], appId)
  }

  /** `DELETE FROM embeddings WHERE application_id = ?`. */
  function DeleteEmbeddingsOf(es: seq<Embedding>, appId: int): (r: seq<Embedding>)
    ensures forall e :: e in r <==> e in es && e.appId != appId
    ensures |r| <= |es|
    decreases |es|
  {
    if |es| == 0 then []
    else if es[0].appId == appId then DeleteEmbeddingsOf(es[1..], appId)
    else [es[0]] + DeleteEmbeddingsOf(es[1..], appId)
  }

  /** `SELECT … FROM embeddings WHERE application_id = ?` (or every row). */
  function EmbeddingsOf(es: seq<Embedding>, appId: Option<int>): (r: seq<Embedding>)
    ensures forall e :: e in r <==> e in es && (appId.None? || e.appId == appId.value)
    ensures |r| <= |es|
    decreases |es|
  {
    if |es| == 0 then []
    else if appId.None? || es[0].appId == appId.value then [es[0]] + EmbeddingsOf(es[1..], appId)
    else EmbeddingsOf(es[1..], appId)
  }
}
