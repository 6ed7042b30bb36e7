/**
 * deploy-background.php as the script runs it: each step a method on the
 * database object and the application directory object, each proved to
 * leave them as the corresponding function of the Worker module says.
 */
module WorkerScript {
  import opened Wrappers
  import opened Text
  import opened Php
  import opened Records
  import opened Workspaces
  import opened EnvInjector
  import opened Store
  import opened Worker


  /** Step 1 on the directory. */
  method CleanSteps(dir: AppDir, o: Outcomes)
    modifies dir
    ensures dir.entries == CleanStage(old(dir.entries), o)
  {
    dir.AppendLog("Deployment started at " + o.startedAt + "\n");
    dir.AppendLog("Cleaning existing files...\n");
    dir.RunClean();
    dir.AppendLog("Clean output: " + o.cleanOutput + "\n");
  }

  /** Step 2 on the directory. */
  method FetchSteps(dir: AppDir, o: Outcomes, repository: string, branch: string)
    modifies dir
    ensures dir.entries == FetchStage(old(dir.entries), o, repository, branch)
  {
    dir.AppendLog("Cloning repository: " + repository + "\n");
    dir.AppendLog("Branch: " + branch + "\n");
    dir.RunClone(o.fetched);
    dir.AppendLog("Clone output: " + o.cloneOutput + "\n");
  }

  /** Steps 3 and 4 on the directory. */
  method MoveSteps(dir: AppDir, o: Outcomes)
    requires HasClone(dir.entries)
    modifies dir
    ensures dir.entries == MoveStage(old(dir.entries), o)
  {
    dir.AppendLog("Moving files to application directory...\n");
    assert dir.entries[CloneDir] == old(dir.entries)[CloneDir];
    dir.RunMove();
    dir.AppendLog("Move output: " + o.moveOutput + "\n");
    dir.AppendLog("Setting file permissions...\n");
    dir.AppendLog("Permissions output: " + o.permOutput + "\n");
  }

  /** Steps 5 and 6 on the directory. */
  method InstallerSteps(dir: AppDir, o: Outcomes)
    modifies dir
    ensures dir.entries == Installers(old(dir.entries), o)
  {
    if "composer.json" in dir.entries {
      dir.AppendLog("Found composer.json, installing dependencies...\n");
      dir.AppendLog("Composer output: " + o.composerOutput + "\n");
    }
    if "package.json" in dir.entries {
      dir.AppendLog("Found package.json, installing npm dependencies...\n");
      dir.AppendLog("NPM output: " + o.npmOutput + "\n");
    }
  }

  /** Step 7 on the directory. */
  method HtaccessStep(dir: AppDir)
    modifies dir
    ensures dir.entries == EnsureHtaccess(old(dir.entries))
  {
    if HtaccessName !in dir.entries {
      dir.AppendLog("Creating default .htaccess file...\n");
      dir.Write(HtaccessName, DefaultHtaccess);
    }
  }

  method PrepareSteps(dir: AppDir, o: Outcomes)
    modifies dir
    ensures dir.entries == PrepareStage(old(dir.entries), o)
  {
    InstallerSteps(dir, o);
    HtaccessStep(dir);
    dir.AppendLog("Setting up custom environment variables...\n");
  }

  /** Steps 3 to 7 on the directory. */
  method InstallSteps(dir: AppDir, o: Outcomes)
    requires HasClone(dir.entries)
    modifies dir
    ensures dir.entries == InstallStage(old(dir.entries), o)
  {
    MoveSteps(dir, o);
    PrepareSteps(dir, o);
  }

  /**
   * `createCustomEnvFile`: the env file is accumulated by BuildEnvFile, the
   * index file is rewritten in place. `name` is the directory's name.
   */
  method CreateCustomEnvFile(dir: AppDir, q: EnvQuery, appName: string, appId: int, name: string)
    modifies dir
    ensures dir.entries == Inject(old(dir.entries), q, appName, appId, name)
  {
    if q.QueryError? {
      dir.AppendLog("Error creating custom environment file: " + q.message + "\n");
    } else {
      InjectRowsSteps(dir, q.vars, appName, appId, name);
    }
  }

  method InjectRowsSteps(dir: AppDir, vars: seq<EnvVar>, appName: string, appId: int, name: string)
    modifies dir
    ensures dir.entries == InjectRows(old(dir.entries), vars, appName, appId, name)
  {
    if |vars| == 0 {
      dir.AppendLog("No custom environment variables defined.\n");
      return;
    }
    WriteBootstrapFiles(dir, vars, appName, appId, name);
    UpdateIndexFile(dir);
  }

  /** The two generated files, each followed by its log line. */
  method WriteBootstrapFiles(dir: AppDir, vars: seq<EnvVar>, appName: string, appId: int, name: string)
    modifies dir
    ensures dir.entries == WriteBootstrap(old(dir.entries), vars, appName, appId, name)
  {
    var envContent := BuildEnvFile(vars);
    dir.Write(EnvFileName, envContent);
    dir.AppendLog("Created custom environment file with " + NatToString(|vars|) + " variables.\n");
    var includeContent := AutoIncludeText(appName, appId, name);
    dir.Write(IncludeFileName, includeContent);
    dir.AppendLog("Created auto-include file for easy integration.\n");
  }

  /** The rewrite of `index.php`, in place. */
  method UpdateIndexFile(dir: AppDir)
    modifies dir
    ensures dir.entries == UpdateIndex(old(dir.entries))
  {
    if IndexFileName in dir.entries {
      var indexContent := ReadFile(dir.entries, IndexFileName);
      if !Contains(indexContent, IncludeFileName) {
        if StartsWith(indexContent, "<?php") {
          indexContent := ReplaceAll(indexContent, "<?php", IncludeHead);
        } else {
          indexContent := IncludeHead + "\n?>" + indexContent;
        }
        dir.Write(IndexFileName, indexContent);
        dir.AppendLog("Updated index.php to auto-load custom environment variables.\n");
      } else {
        dir.AppendLog("index.php already includes auto-include.php.\n");
      }
    }
  }

  /** The catch block: the failure write, which may raise in its turn. */
  method CatchWrite(db: Database, id: int, logSoFar: string, message: string, o: Outcomes, now: int)
    modifies db
    ensures db.Snapshot() == CatchBlock(old(db.Snapshot()), id, logSoFar, message, o, now)
  {
    if o.writes.failure.None? {
      db.UpdateDeploymentStatus(id, Failed, FailureLog(logSoFar, message), now);
    }
  }

  /** Steps 3 to 9 and the completed write, after a successful clone. */
  method CompleteDeployment(db: Database, dir: AppDir, id: int, d: Deployment, a: Application, o: Outcomes, now: int)
    requires HasClone(dir.entries)
    modifies db, dir
    ensures (db.Snapshot(), dir.entries) == Complete(old(db.Snapshot()), old(dir.entries), id, d, a, o, now)
  {
    var t0 := db.Snapshot();
    BuildSteps(dir, t0, o, a);
    assert db.Snapshot() == t0;
    var ws2 := dir.entries;
    if o.writes.deployed.Some? {
      CatchWrite(db, id, LogText(ws2), o.writes.deployed.value, o, now);
      assert dir.entries == ws2;
      return;
    }
    db.SetApplicationDeployed(d.appId, true);
    dir.AppendLog("Deployment completed successfully at " + o.finishedAt + "\n");
    var ws3 := dir.entries;
    if o.writes.completed.Some? {
      CatchWrite(db, id, LogText(ws3), o.writes.completed.value, o, now);
    } else {
      db.UpdateDeploymentStatus(id, Completed, LogText(ws3), now);
    }
    assert dir.entries == ws3;
  }

  /** Steps 3 to 8, on the directory. */
  method BuildSteps(dir: AppDir, t: Tables, o: Outcomes, a: Application)
    requires HasClone(dir.entries)
    modifies dir
    ensures dir.entries == EnvStage(InstallStage(old(dir.entries), o), t, o, a)
  {
    InstallSteps(dir, o);
    CreateCustomEnvFile(dir, EnvRows(t, o), a.name, a.id, a.directory);
  }

  /** The try block after the `running` write. */
  method DeployApp(db: Database, dir: AppDir, id: int, d: Deployment, a: Application, o: Outcomes, now: int)
    modifies db, dir
    ensures db.Snapshot() == Deploy(old(db.Snapshot()), old(dir.entries), id, d, a, o, now).0
    ensures dir.entries == Deploy(old(db.Snapshot()), old(dir.entries), id, d, a, o, now).1
  {
    CleanSteps(dir, o);
    FetchSteps(dir, o, a.repository, a.branch);
    if !HasClone(dir.entries) {
      var ws1 := dir.entries;
      CatchWrite(db, id, LogText(ws1), "Failed to clone repository", o, now);
      assert dir.entries == ws1;
      return;
    }
    CompleteDeployment(db, dir, id, d, a, o, now);
  }
}
