/**
 * The state the PHP code reaches through PDO and the file system: the
 * PostgreSQL tables as a `Database` object whose statements are methods, and
 * the application directories under /app/code/apps as a `Disk` object.
 */
module Store {
  import opened Wrappers
  import opened Records
  import opened Workspaces

  /** Every table at one instant, with the next value of each id sequence. */
  datatype Tables = Tables(
    applications: seq<Application>, deployments: seq<Deployment>, envVars: seq<EnvVar>,
    embeddings: seq<Embedding>, admins: seq<AdminUser>, activity: seq<Activity>,
    settings: map<string, string>,
    nextAppId: int, nextDeploymentId: int, nextEnvVarId: int, nextAdminId: int)

  /** Ids handed out by a sequence are positive and below its next value. */
  predicate IdsBelow(ids: seq<int>, next: int)
  {
    forall i | 0 <= i < |ids| :: 0 < ids[i] < next
  }

  function AppIds(apps: seq<Application>): seq<int>
  {
    seq(|apps|, i requires 0 <= i < |apps| => apps[i].id)
  }

  function DeploymentIds(deps: seq<Deployment>): seq<int>
  {
    seq(|deps|, i requires 0 <= i < |deps| => deps[i].id)
  }

  function EnvVarIds(vs: seq<EnvVar>): seq<int>
  {
    seq(|vs|, i requires 0 <= i < |vs| => vs[i].id)
  }

  function AdminIds(us: seq<AdminUser>): seq<int>
  {
    seq(|us|, i requires 0 <= i < |us| => us[i].id)
  }

  /** The id sequences are ahead of every row (SERIAL columns). */
  predicate TablesValid(t: Tables)
  {
    && 0 < t.nextAppId && 0 < t.nextDeploymentId && 0 < t.nextEnvVarId && 0 < t.nextAdminId
    && IdsBelow(AppIds(t.applications), t.nextAppId)
    && IdsBelow(DeploymentIds(t.deployments), t.nextDeploymentId)
    && IdsBelow(EnvVarIds(t.envVars), t.nextEnvVarId)
    && IdsBelow(AdminIds(t.admins), t.nextAdminId)
  }

  /** A fresh deployment id is not used by any row. */
  lemma FreshDeploymentId(t: Tables)
    requires TablesValid(t)
    ensures forall d | d in t.deployments :: d.id != t.nextDeploymentId
  {
    forall d | d in t.deployments ensures d.id != t.nextDeploymentId {
      var k :| 0 <= k < |t.deployments| && t.deployments[k] == d;
      assert DeploymentIds(t.deployments)[k] == d.id;
    }
  }

  /** A fresh application id is not used by any row. */
  lemma FreshAppId(t: Tables)
    requires TablesValid(t)
    ensures forall a | a in t.applications :: a.id != t.nextAppId
  {
    forall a | a in t.applications ensures a.id != t.nextAppId {
      var k :| 0 <= k < |t.applications| && t.applications[k] == a;
      assert AppIds(t.applications)[k] == a.id;
    }
  }

  class Database {
    var applications: seq<Application>
    var deployments: seq<Deployment>
    var envVars: seq<EnvVar>
    var embeddings: seq<Embedding>
    var admins: seq<AdminUser>
    var activity: seq<Activity>
    var settings: map<string, string>
    var nextAppId: int
    var nextDeploymentId: int
    var nextEnvVarId: int
    var nextAdminId: int

    function Snapshot(): Tables
      reads this
    {
      Tables(applications, deployments, envVars, embeddings, admins, activity, settings,
             nextAppId, nextDeploymentId, nextEnvVarId, nextAdminId)
    }

    predicate Valid()
      reads this
    {
      TablesValid(Snapshot())
    }

    constructor (t: Tables)
      ensures Snapshot() == t
    {
      applications, deployments, envVars, embeddings := t.applications, t.deployments, t.envVars, t.embeddings;
      admins, activity, settings := t.admins, t.activity, t.settings;
      nextAppId, nextDeploymentId, nextEnvVarId, nextAdminId := t.nextAppId, t.nextDeploymentId, t.nextEnvVarId, t.nextAdminId;
    }

    /** `updateDeploymentStatus`. */
    method UpdateDeploymentStatus(id: int, st: Status, log: string, now: int)
      modifies this
      ensures Snapshot() == old(Snapshot()).(deployments := SetStatus(old(deployments), id, st, log, now))
      ensures Valid() == old(Valid())
    {
      deployments := SetStatus(deployments, id, st, log, now);
      assert DeploymentIds(deployments) == DeploymentIds(old(deployments));
    }

    /** `UPDATE applications SET deployed = ? WHERE id = ?`. */
    method SetApplicationDeployed(id: int, deployed: bool)
      modifies this
      ensures Snapshot() == old(Snapshot()).(applications := SetDeployed(old(applications), id, deployed))
      ensures Valid() == old(Valid())
    {
      applications := SetDeployed(applications, id, deployed);
      assert AppIds(applications) == AppIds(old(applications));
    }

    /** `INSERT INTO deployments (…) VALUES (…, 'pending', …) RETURNING id`. */
    method InsertDeployment(appId: int, log: string, now: int) returns (id: int)
      requires Valid()
      modifies this
      ensures Valid()
      ensures id == old(nextDeploymentId) && forall d | d in old(deployments) :: d.id != id
      ensures Snapshot() == old(Snapshot()).(
        deployments := old(deployments) + [Deployment(id, appId, Pending, log, now, None)],
        nextDeploymentId := id + 1)
    {
      id := nextDeploymentId;
      assert forall d | d in deployments :: d.id != id by {
        forall d | d in deployments ensures d.id != id {
          var k :| 0 <= k < |deployments| && deployments[k] == d;
          assert DeploymentIds(deployments)[k] == d.id;
        }
      }
      deployments := deployments + [Deployment(id, appId, Pending, log, now, None)];
      nextDeploymentId := id + 1;
      assert DeploymentIds(deployments) == DeploymentIds(old(deployments)) + [id];
    }

    /** `INSERT INTO applications (…) RETURNING id`; new rows start undeployed. */
    method InsertApplication(name: string, description: string, repository: string, branch: string, directory: string)
      returns (id: int)
      requires Valid()
      modifies this
      ensures Valid()
      ensures id == old(nextAppId) && forall a | a in old(applications) :: a.id != id
      ensures Snapshot() == old(Snapshot()).(
        applications := old(applications) + [Application(id, name, description, repository, branch, directory, false)],
        nextAppId := id + 1)
    {
      id := nextAppId;
      assert forall a | a in applications :: a.id != id by {
        forall a | a in applications ensures a.id != id {
          var k :| 0 <= k < |applications| && applications[k] == a;
          assert AppIds(applications)[k] == a.id;
        }
      }
      applications := applications + [Application(id, name, description, repository, branch, directory, false)];
      nextAppId := id + 1;
      assert AppIds(applications) == AppIds(old(applications)) + [id];
    }

    /** The UPDATE of update-app.php. */
    method UpdateApplication(id: int, name: string, description: string, repository: string, branch: string, directory: string)
      modifies this
      ensures Snapshot() == old(Snapshot()).(applications := UpdateFields(old(applications), id, name, description, repository, branch, directory))
      ensures Valid() == old(Valid())
    {
      applications := UpdateFields(applications, id, name, description, repository, branch, directory);
      assert AppIds(applications) == AppIds(old(applications));
    }

    /** `logActivity`. */
    method LogActivity(userId: Option<int>, action: string, description: string)
      modifies this
      ensures Snapshot() == old(Snapshot()).(activity := old(activity) + [Activity(userId, action, description)])
      ensures Valid() == old(Valid())
    {
      activity := activity + [Activity(userId, action, description)];
    }

    method DeleteEmbeddings(appId: int)
      modifies this
      ensures Snapshot() == old(Snapshot()).(embeddings := DeleteEmbeddingsOf(old(embeddings), appId))
      ensures Valid() == old(Valid())
    {
      embeddings := DeleteEmbeddingsOf(embeddings, appId);
    }

    method DeleteDeployments(appId: int)
      requires Valid()
      modifies this
      ensures Snapshot() == old(Snapshot()).(deployments := DeleteDeploymentsOf(old(deployments), appId))
      ensures Valid()
    {
      var kept := DeleteDeploymentsOf(deployments, appId);
      forall i | 0 <= i < |kept| ensures 0 < DeploymentIds(kept)[i] < nextDeploymentId {
        assert kept[i] in kept;
        var k :| 0 <= k < |deployments| && deployments[k] == kept[i];
        assert DeploymentIds(deployments)[k] == kept[i].id;
      }
      deployments := kept;
    }

    /**
     * `DELETE FROM applications WHERE id = ?`: the ON DELETE CASCADE of
     * `deployments` and `embeddings` removes the rows that refer to it.
     */
    method DeleteApplication(id: int)
      requires Valid()
      modifies this
      ensures Snapshot() == old(Snapshot()).(applications := DeleteApp(old(applications), id),
                                             deployments := DeleteDeploymentsOf(old(deployments), id),
                                             embeddings := DeleteEmbeddingsOf(old(embeddings), id))
      ensures Valid()
    {
      DeleteDeployments(id);
      DeleteEmbeddings(id);
      var kept := DeleteApp(applications, id);
      forall i | 0 <= i < |kept| ensures 0 < AppIds(kept)[i] < nextAppId {
        assert kept[i] in kept;
        var k :| 0 <= k < |applications| && applications[k] == kept[i];
        assert AppIds(applications)[k] == kept[i].id;
      }
      applications := kept;
    }

    /** `$db->rollback()`: every table returns to the state saved at BEGIN. */
    method Restore(t: Tables)
      modifies this
      ensures Snapshot() == t
    {
      applications, deployments, envVars, embeddings := t.applications, t.deployments, t.envVars, t.embeddings;
      admins, activity, settings := t.admins, t.activity, t.settings;
      nextAppId, nextDeploymentId, nextEnvVarId, nextAdminId := t.nextAppId, t.nextDeploymentId, t.nextEnvVarId, t.nextAdminId;
    }

    /** `UPDATE settings SET value = ? WHERE key = ?`: a missing key matches no row. */
    method UpdateSetting(key: string, value: string)
      modifies this
      ensures Snapshot() == old(Snapshot()).(settings := if key in old(settings) then old(settings)[key := value] else old(settings))
      ensures Valid() == old(Valid())
    {
      if key in settings {
        settings := settings[key := value];
      }
    }

    /** The row an added variable gets. */
    method InsertEnvVar(key: string, value: string, description: string, sensitive: bool) returns (id: int)
      requires Valid()
      modifies this
      ensures Valid()
      ensures id == old(nextEnvVarId)
      ensures Snapshot() == old(Snapshot()).(
        envVars := old(envVars) + [EnvVar(id, key, value, description, sensitive)],
        nextEnvVarId := id + 1)
    {
      id := nextEnvVarId;
      envVars := envVars + [EnvVar(id, key, value, description, sensitive)];
      nextEnvVarId := id + 1;
      assert EnvVarIds(envVars) == EnvVarIds(old(envVars)) + [id];
    }

    method ReplaceEnvVar(id: int, key: string, value: string, description: string, sensitive: bool)
      modifies this
      ensures Snapshot() == old(Snapshot()).(envVars := SetEnvVar(old(envVars), id, key, value, description, sensitive))
      ensures Valid() == old(Valid())
    {
      envVars := SetEnvVar(envVars, id, key, value, description, sensitive);
      assert EnvVarIds(envVars) == EnvVarIds(old(envVars));
    }

    method RemoveEnvVar(id: int)
      requires Valid()
      modifies this
      ensures Snapshot() == old(Snapshot()).(envVars := DeleteEnvVar(old(envVars), id))
      ensures Valid()
    {
      var kept := DeleteEnvVar(envVars, id);
      forall i | 0 <= i < |kept| ensures 0 < EnvVarIds(kept)[i] < nextEnvVarId {
        assert kept[i] in kept;
        var k :| 0 <= k < |envVars| && envVars[k] == kept[i];
        assert EnvVarIds(envVars)[k] == kept[i].id;
      }
      envVars := kept;
    }

    /** `INSERT INTO admin_users (…, active) VALUES (…, true)`. */
    method InsertAdmin(username: string, email: string) returns (id: int)
      requires Valid()
      modifies this
      ensures Valid()
      ensures id == old(nextAdminId)
      ensures Snapshot() == old(Snapshot()).(
        admins := old(admins) + [AdminUser(id, username, email, true)],
        nextAdminId := id + 1)
    {
      id := nextAdminId;
      admins := admins + [AdminUser(id, username, email, true)];
      nextAdminId := id + 1;
      assert AdminIds(admins) == AdminIds(old(admins)) + [id];
    }
  }

  /** `UPDATE custom_env_vars SET … WHERE id = ?`. */
  function SetEnvVar(vs: seq<EnvVar>, id: int, key: string, value: string, description: string, sensitive: bool): (r: seq<EnvVar>)
    ensures |r| == |vs|
    ensures forall i | 0 <= i < |vs| ::
      r[i] == (if vs[i].id == id then EnvVar(id, key, value, description, sensitive) else vs[i])
  {
    seq(|vs|, i requires 0 <= i < |vs| => if vs[i].id == id then EnvVar(id, key, value, description, sensitive) else vs[i])
  }

  /** `DELETE FROM custom_env_vars WHERE id = ?`. */
  function DeleteEnvVar(vs: seq<EnvVar>, id: int): (r: seq<EnvVar>)
    ensures forall v :: v in r <==> v in vs && v.id != id
    decreases |vs|
  {
    if |vs| == 0 then []
    else if vs[0].id == id then DeleteEnvVar(vs[1..], id)
    else [vs[0]] + DeleteEnvVar(vs[1..], id)
  }

  /** One application directory, `/app/code/apps/<name>`, changed in place. */
  class AppDir {
    var entries: Workspace

    constructor ()
      ensures entries == map[]
    {
      entries := map[];
    }

    /** `appendLog`. */
    method AppendLog(msg: string)
      modifies this
      ensures entries == Append(old(entries), msg)
    {
      entries := Append(entries, msg);
    }

    /** `file_put_contents`. */
    method Write(name: string, text: string)
      modifies this
      ensures entries == WriteFile(old(entries), name, text)
    {
      entries := WriteFile(entries, name, text);
    }

    /** `find <dir> -mindepth 1 -not -name '*.log' -delete`. */
    method RunClean()
      modifies this
      ensures entries == Clean(old(entries))
    {
      entries := Clean(entries);
    }

    /** `git clone --depth 1 --branch <branch> <repository> temp`, by what it fetched. */
    method RunClone(fetched: Option<Workspace>)
      modifies this
      ensures entries == CloneInto(old(entries), fetched)
    {
      entries := CloneInto(entries, fetched);
    }

    /** `cd temp && cp -r . ../ && cd .. && rm -rf temp`. */
    method RunMove()
      requires HasClone(entries)
      modifies this
      ensures entries == Promote(old(entries))
    {
      entries := Promote(entries);
    }
  }

  /** The directory `is_dir`/`mkdir` find or create: empty when it is new. */
  function StartDir(contents: map<string, Workspace>, name: string): Workspace
  {
    if name in contents then contents[name] else map[]
  }

  /** `/app/code/apps`: one distinct directory object per name. */
  class Disk {
    var dirs: map<string, AppDir>

    ghost predicate Valid()
      reads this
    {
      forall a, b | a in dirs && b in dirs && a != b :: dirs[a] != dirs[b]
    }

    function Contents(): map<string, Workspace>
      reads this, dirs.Values
    {
      map n | n in dirs :: dirs[n].entries
    }

    constructor ()
      ensures Valid() && dirs == map[]
    {
      dirs := map[];
    }

    /** `if (!is_dir($dir)) mkdir($dir, 0755, true)`, returning the directory. */
    method MakeDir(name: string) returns (d: AppDir)
      requires Valid()
      modifies this
      ensures Valid() && name in dirs && d == dirs[name]
      ensures name in old(dirs) ==> dirs == old(dirs)
      ensures name !in old(dirs) ==> fresh(d) && dirs == old(dirs)[name := d]
      ensures d.entries == StartDir(old(Contents()), name)
      ensures Contents() == old(Contents())[name := d.entries]
    {
      if name in dirs {
        d := dirs[name];
      } else {
        d := new AppDir();
        dirs := dirs[name := d];
      }
    }

    /** Changing one directory object changes only that entry of the contents. */
    twostate lemma OnlyOneChanged(name: string)
      requires Valid() && name in dirs && unchanged(this)
      requires forall n | n in dirs && n != name :: unchanged(dirs[n])
      ensures Contents() == old(Contents())[name := dirs[name].entries]
    {
    }

    /** `rename($oldPath, $newPath)`. */
    method Rename(from: string, to: string)
      requires Valid() && from in dirs && from != to
      modifies this
      ensures Valid()
      ensures Contents() == old(Contents())[to := old(Contents())[from]] - {from}
    {
      dirs := dirs[to := dirs[from]] - {from};
    }

    /** `rm -rf $dir`. */
    method Remove(name: string)
      requires Valid()
      modifies this
      ensures Valid()
      ensures Contents() == old(Contents()) - {name}
    {
      dirs := dirs - {name};
    }
  }
}
