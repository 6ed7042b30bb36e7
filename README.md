# EDUC AI Chatbot Cloudron: deployment pipeline and admin panel, modelled in Dafny

The admin panel of this Cloudron package registers applications by Git
repository and deploys them into `/app/code/apps/<directory>`. The parts
modelled here are:

- **Registration.** `create-app.php`, `update-app.php` and
  `delete-app.php` check the form inline: `filter_var` for the repository
  URL, a pattern for the directory, and a directory name derived from the
  application name when none is given. They do not check the branch.
  They then write the `applications`, `deployments`, `embeddings` and
  `activity_log` tables, and rename or remove the application directory.
- **Validators.** The helpers of `public/config/config.php` are modelled
  on their own: the Git URL patterns, the branch check, the directory
  name generator, the CSRF token, the rate limit and `timeAgo`.
- **Deployment.** `deploy-app.php` refuses a second deployment while one is
  `running`, inserts a `pending` row and launches the worker. The worker,
  `scripts/deploy-background.php`, then steps through the deployment:
  - it marks the row `running` and creates the directory;
  - it cleans everything except the `*.log` files, clones into `temp` and
    promotes the clone;
  - it runs composer and npm when their manifests exist and writes a default
    `.htaccess`;
  - it generates `custom-env.php` and `auto-include.php` from the
    `custom_env_vars` table and makes `index.php` include the latter;
  - it records `completed` or `failed`, together with the accumulated log.
- **Status and logs.** `deployment-status.php` and
  `view-deployment-logs.php` report the latest deployment's progress and
  its combined log.
- **Settings.** `admin/templates/settings.php` adds, updates and deletes
  custom variables and saves the settings form.
- **Admin entry point.** `admin/index.php` does the action routing, the
  first-admin setup, the rate-limited login and the logout.
- **Database tools.** These are the allow-listed SQL console
  (`execute-query.php`), the table inspector (`get-table-structure.php`) and
  the embeddings browser (`get-embeddings.php`).
- **Talk bot.** `connetor.php` loads `.env` and answers mentions with a
  completion from the LLM API.

The state the source changes in place is modelled as classes:

- the database tables (`Store.Database`, whose snapshot is `Records.Tables`);
- the application directories (`Store.Disk` and `Store.AppDir`, whose
  contents are a `Workspaces.Workspace`);
- the PHP session (`Config.Session`);
- the process environment (`Connector.Environment`).

The worker and the endpoints are methods over these classes. Each method is
proved against a function on the old state. The properties of those
functions are proved as lemmas. Pure checks and parsers are functions, and
lemmas relate them to reference definitions.

Some calls into code outside the model are parameters of the model:

- the shell commands and their exit codes;
- `filter_var`, `md5`, `random_bytes` and `password_verify`;
- the HMAC check, `curl` and `json_decode`;
- the database's answers where the model does not hold the table itself;
- the failure of a statement for a reason outside the model (a lost
  connection), where the code has a catch block for it.

The current time is also a parameter.

The model keeps these behaviours as the code has them:

- **Dispatcher.** `deploy-app.php` refuses a deployment only while another
  one is `running`. A `pending` one does not block, so two pending rows can
  coexist (`Dispatcher.PendingDoesNotBlock`).
- **Missing `index.php`.** When an application has no `index.php`, the
  worker writes no landing page. The include step then leaves the
  workspace as it is.
- **Query console.** The SQL console's allow-list accepts any statement
  that starts with `WITH`, and that includes a data-modifying CTE
  (`QueryConsole.AnyCteBodyAllowed`). Nor does the deny-list name DELETE,
  INSERT, UPDATE or `setval`. The statement runs in autocommit, so the
  tables it leaves are an input of the request, and what it writes is kept
  (`QueryConsole.LoggedIffRan`, `QueryConsole.WritesKept`). When it moves a
  sequence behind the ids in use, the database is no longer valid
  (`QueryConsole.RunQuery`).
- **Setup page.** The setup action stays reachable for a visitor without a
  session after an admin exists (`AdminRouter.AnotherAdminWithoutLogin`).
  A failing count query also sends every request to setup.
- **No session check.** `get-embeddings.php` and
  `get-table-structure.php` do not check the session, and they are
  modelled that way.

## Model

| member | source | states |
|---|---|---|
| Text.Lower | admin/ajax/create-app.php:55 | strtolower maps each character by ASCII lower-casing and keeps the length |
| Text.TrimLeft | public/config/config.php:45 | the result is a suffix of the input, every dropped character is in the trim set and the first kept one is not |
| Text.TrimRight | public/config/config.php:45 | the result is a prefix of the input, every dropped character is in the trim set and the last kept one is not |
| Text.ReplaceAllAbsent | scripts/deploy-background.php:229-230 | str_replace with a pattern that does not occur returns the text unchanged |
| Text.NatToStringRoundTrip | admin/ajax/deploy-app.php:91 | reading back the decimal rendering of an id gives the id |
| Php.RequestId | admin/ajax/delete-app.php:36-38 | an id is accepted exactly when it is neither "" nor "0" and is numeric, and then it denotes its numeric value |
| Php.RenderedIdAccepted | admin/ajax/deploy-app.php:36-38 | the decimal rendering of any positive id passes the id check and denotes that id |
| Php.ReadDecimal | admin/templates/settings.php:88 | the numeric prefix read has an integer part and a fraction part made of digits only, and at least one digit between them |
| Php.IntCastOfRendering | admin/templates/settings.php:88 | `(int)` of the decimal rendering of any number below 2^63 gives that number |
| Php.IntCastSaturates | admin/templates/settings.php:88 | digits whose value passes PHP_INT_MAX but is still finite as a double cast to PHP_INT_MAX |
| Php.IntCastNegative | admin/templates/settings.php:88 | a minus sign before digits negates their value, down to -2^63 |
| Php.IntCastSkipsSpace | admin/templates/settings.php:88 | leading whitespace does not change the cast |
| Php.IntCastTruncatesFraction | admin/templates/settings.php:103 | `(int)"D.F"` is D: the fraction is cut off, not rounded |
| Php.IntCastScalesExponent | admin/templates/settings.php:103 | `(int)"DeK"` is D followed by K zeros while that is below 2^63 |
| Php.IntCastNoNumber | admin/templates/settings.php:88 | text starting with no whitespace, sign, dot or digit casts to 0 |
| Php.HtmlEscape | public/config/config.php:45 | htmlspecialchars with ENT_QUOTES leaves no `<`, `>`, `"` or `'` in its output |
| Php.HtmlRoundTrip | public/config/config.php:45 | decoding the escaped text gives the original text back |
| Php.HtmlEscapePlain | public/config/config.php:45 | text without markup characters is not changed by escaping |
| Php.AddSlashesStaysQuoted | scripts/deploy-background.php:183-187 | an addslashes-escaped value inside a single-quoted literal never ends it early: the literal closes at the quote after the value |
| Php.ReadBackIdentity | scripts/deploy-background.php:183-187 | the generated literal evaluates to the original value exactly when the value holds no `"` and no NUL |
| Php.DoubleQuoteNotPreserved | scripts/deploy-background.php:183-187 | for any value `a"b` whose two sides hold no `"` and no NUL, the generated literal reads back as `a\"b`: the double quote gains a backslash |
| Records.ParseStatus | scripts/deploy-background.php:143-152 | the status read back from the column renders as the same text, so every stored status string survives |
| Records.FindApp | admin/ajax/delete-app.php:41-47 | a found row is in the table with the id; nothing is found exactly when no row has the id |
| Records.FindDeployment | admin/ajax/deployment-status.php:25-39 | a found row is in the table with the id; nothing is found exactly when no row has the id |
| Records.SetStatus | scripts/deploy-background.php:143-152 | every row with the id gets the status and log, keeps its application and start time, and has completed_at set exactly for a terminal status; other rows are unchanged |
| Records.SetStatusAbsent | scripts/deploy-background.php:143-152 | an UPDATE of an id without a row changes nothing |
| Records.SetStatusIgnoresCurrent | scripts/deploy-background.php:143-152 | the UPDATE does not check the current status: in any table, a row of any status, completed included, can be put back to running, which clears completed_at |
| Records.UpdateFields | admin/ajax/update-app.php:97-102 | rows with the id get the five posted columns and keep their `deployed` flag; other rows are unchanged |
| Records.DeleteApp | admin/ajax/delete-app.php:72-73 | the rows left are exactly those without the id |
| Records.DeleteDeploymentsOf | admin/ajax/delete-app.php:68-69 | the rows left are exactly the deployments of other applications |
| Records.DeleteEmbeddingsOf | admin/ajax/delete-app.php:62-65 | the rows left are exactly the embeddings of other applications |
| Records.EmbeddingsOf | admin/ajax/get-embeddings.php:44-53 | the selected rows are exactly the embeddings of the application filter, or all rows without a filter |
| Text.Upper | admin/templates/settings.php:23 | strtoupper maps each character by ASCII upper-casing and keeps the length |
| Text.NatToString | admin/ajax/deploy-app.php:91 | the rendering of a number is a non-empty string of decimal digits |
| Store.FreshDeploymentId | admin/ajax/deploy-app.php:57-64 | the SERIAL value handed to a new deployment is used by no row |
| Store.FreshAppId | admin/ajax/create-app.php:79-86 | the SERIAL value handed to a new application is used by no row |
| Store.Database.UpdateDeploymentStatus | scripts/deploy-background.php:143-152 | the deployments table becomes SetStatus of the old one and nothing else changes |
| Store.Database.SetApplicationDeployed | scripts/deploy-background.php:117-119 | the applications table becomes SetDeployed of the old one and nothing else changes |
| Store.Database.InsertDeployment | admin/ajax/deploy-app.php:57-64 | one pending row is appended with a fresh id, which is returned; the sequence advances |
| Store.Database.InsertApplication | admin/ajax/create-app.php:79-86 | one undeployed row is appended with a fresh id, which is returned; the sequence advances |
| Store.Database.UpdateApplication | admin/ajax/update-app.php:97-102 | the applications table becomes UpdateFields of the old one and nothing else changes |
| Store.Database.LogActivity | public/config/config.php:86-102 | one activity row is appended and nothing else changes |
| Store.Database.DeleteEmbeddings | admin/ajax/delete-app.php:63-64 | the embeddings of the application are removed and nothing else changes |
| Store.Database.DeleteDeployments | admin/ajax/delete-app.php:68-69 | the deployments of the application are removed and nothing else changes |
| Store.Database.DeleteApplication | admin/ajax/delete-app.php:72-73 | the application row is removed, the ON DELETE CASCADE of public/config/database.php removes its deployments and embeddings, and nothing else changes |
| Store.Database.Restore | admin/ajax/delete-app.php:95-97 | a rollback returns every table to the state saved at BEGIN |
| Store.Database.UpdateSetting | admin/templates/settings.php:82-83 | a setting with the key gets the value; a missing key matches no row and nothing changes |
| Store.Database.InsertEnvVar | admin/templates/settings.php:23 | one variable row is appended with a fresh id |
| Store.Database.ReplaceEnvVar | admin/templates/settings.php:46 | the row with the id gets the posted columns and nothing else changes |
| Store.Database.RemoveEnvVar | admin/templates/settings.php:68 | the row with the id is removed and nothing else changes |
| Store.Database.InsertAdmin | admin/index.php:106-110 | one active admin row is appended with a fresh id |
| Store.DeleteEnvVar | admin/templates/settings.php:68 | the rows left are exactly those without the id |
| Store.AppDir.AppendLog | scripts/deploy-background.php:154-156 | the directory becomes Append of the old one: the log file gains the message at its end |
| Store.AppDir.Write | scripts/deploy-background.php:104-110 | the directory becomes the old one with the file written |
| Store.AppDir.RunClean | scripts/deploy-background.php:54-58 | the directory becomes Clean of the old one |
| Store.AppDir.RunClone | scripts/deploy-background.php:60-70 | the directory becomes CloneInto of the old one and what git fetched |
| Store.AppDir.RunMove | scripts/deploy-background.php:72-76 | the directory becomes Promote of the old one |
| Store.Disk.MakeDir | admin/ajax/deploy-app.php:73-77 | an existing directory is returned as it is, a missing one is created empty; no other directory changes |
| Store.Disk.Rename | admin/ajax/update-app.php:131-133 | the contents move to the new name and the old name disappears |
| Store.Disk.Remove | admin/ajax/delete-app.php:83-87 | the directory disappears and the others stay |
| AppRules.SanitizeForm | admin/ajax/create-app.php:32-36 | decoding each stored field gives the trimmed posted value, `main` for a missing branch |
| AppRules.DeriveDirectory | admin/ajax/create-app.php:54-57 | a derived directory holds only lowercase letters, digits and `-`, neither starts nor ends with `-`, and is no longer than the name |
| AppRules.DerivedDirectoryAccepted | admin/ajax/create-app.php:54-62 | a name with a letter or digit derives a directory that passes the directory check |
| AppRules.NoAlnumNameRejected | admin/ajax/create-app.php:54-62 | a name with no letter or digit derives "" and is refused by the directory check |
| AppRules.DeriveDirectoryIdempotent | admin/ajax/create-app.php:55-56 | deriving from a derived directory gives it back |
| AppRules.CreateError | admin/ajax/create-app.php:15-76 | no check fails exactly when the user is logged in, the database is up, name and repository are non-empty, the URL is valid, the directory passes and neither directory nor repository is taken |
| AppRules.OverlongColumn | public/config/database.php:62-75 | no value is too long exactly when the name has at most 255 characters, the repository 500, the branch 100 and the directory 255; otherwise the width named is one of those |
| AppRules.WriteFault | admin/ajax/create-app.php:79-86 | the INSERT or field UPDATE goes through exactly when every value fits its column and no outside fault occurs; an over-long value raises PostgreSQL's "value too long" message for its column |
| AppRules.LongBranchRefused | admin/ajax/create-app.php:79-97 | a branch over 100 characters passes every check of the endpoint, the INSERT raises with the varchar(100) message, that message is the answer and nothing is written |
| AppRules.CreateIgnoresBranch | admin/ajax/create-app.php:32-76 | as written the verdict of the checks is the same whatever the branch holds |
| AppRules.CreateErrorChecked | public/config/config.php:66-73 | with validateBranchName added, a form is accepted exactly when the endpoint's checks pass and the branch passes validateBranchName without a final newline; an accepted branch then holds only branch characters |
| AppRules.CreateApp | admin/ajax/create-app.php:24-97 | success exactly when no check fails, every value fits its column and the INSERT does not raise; a failure changes nothing and answers the first failed check, else the INSERT's message; a success appends one undeployed row with the next id and the directory used, and logs the creation |
| AppRules.CreatedIsUnique | admin/ajax/create-app.php:64-86 | after a creation the new application is the only one with its directory and the only one with its repository, and it can be found |
| AppRules.ChangeListExact | admin/ajax/update-app.php:110-115 | the change list names exactly the changed columns, each once, in the order name, description, repository, branch, directory |
| AppRules.ChangeNames | admin/ajax/update-app.php:118 | each change is rendered by its column name, in order |
| AppRules.UpdateError | admin/ajax/update-app.php:15-94 | the edit is accepted exactly when the user is logged in, the database is up, the id is valid, name and repository are non-empty and the URL valid, the application exists, the directory matches the pattern, and a changed directory or a changed repository is not used by another application (the unchanged ones are not checked) |
| AppRules.UpdateApp | admin/ajax/update-app.php:24-142 | a failed check changes nothing and renames nothing; a raising field UPDATE (an over-long value or an outside fault) changes nothing; a raising reset keeps the field UPDATE and its log entry and answers failure; otherwise the edit is written, the answer says whether the directory changed and whether a redeployment is needed, and a rename from the old directory to the new is asked for exactly when it changed |
| AppRules.FailedEditPartial | admin/ajax/update-app.php:96-124 | a failed edit that changed the tables failed at the `deployed` reset of an edit needing redeployment, and the row then holds the new fields with its old `deployed` flag |
| AppRules.ApplyMove | admin/ajax/update-app.php:127-133 | the rename happens only when the old directory exists and the new one does not, and then the new name holds the old contents |
| AppRules.FindAfterUpdateFields | admin/ajax/update-app.php:97-102 | after the field UPDATE a lookup finds the row with the new fields and its old `deployed` |
| AppRules.FindAfterSetDeployed | admin/ajax/update-app.php:122-124 | after the `deployed` UPDATE a lookup finds the row with the new flag |
| AppRules.EditedRow | admin/ajax/update-app.php:97-124 | after an accepted edit the row holds the new fields, and `deployed` is false when a redeployment is needed and unchanged otherwise |
| AppRules.NameOnlyEditKeepsDeployed | admin/ajax/update-app.php:105-122 | an edit of name or description only needs no redeployment, renames nothing and keeps `deployed` |
| AppRules.EditLogged | admin/ajax/update-app.php:110-119 | the activity row is written exactly when some column changed, with the joined change list |
| AppRules.DeleteError | admin/ajax/delete-app.php:15-54 | no check fails exactly when the user is logged in, the database is up, the id is valid, the application exists and none of its deployments is running |
| AppRules.DeleteAppResult | admin/ajax/delete-app.php:24-106 | the delete succeeds exactly when no check fails and no statement that runs raises; a failure rolls every table back and removes nothing; a success deletes the rows, logs the deletion, answers with the name and schedules the removal of the directory |
| AppRules.ApplyRemove | admin/ajax/delete-app.php:81-87 | the scheduled directory is gone and every other directory is unchanged |
| AppRules.DeleteRemovesEverything | admin/ajax/delete-app.php:59-76 | after a delete no row has the id and no deployment or embedding belongs to it (with or without vector support, by the cascade), and the rows of other applications remain |
| AppRules.RunningBlocksDelete | admin/ajax/delete-app.php:49-54 | a running deployment refuses the delete with its message and nothing changes |
| AppEndpoints.CreateAppEndpoint | admin/ajax/create-app.php:24-97 | the checks and the INSERT, which may raise, leave the tables and the answer that CreateApp gives for the sanitised form |
| AppEndpoints.LogEdit | admin/ajax/update-app.php:96-119 | the field UPDATE and the log entry leave LoggedTables, and the collected changes are the change list |
| AppEndpoints.CollectChanges | admin/ajax/update-app.php:110-115 | the appends build exactly the change list |
| AppEndpoints.UpdateRecord | admin/ajax/update-app.php:24-124 | the checks and statements leave the tables, answer and rename that UpdateApp gives |
| AppEndpoints.WriteEdit | admin/ajax/update-app.php:96-133 | the writes of an accepted edit, each of which may raise, leave the tables, answer and rename that EditOutcome gives |
| AppEndpoints.ResetDeployed | admin/ajax/update-app.php:121-133 | when repository, branch or directory changed the `deployed` UPDATE runs, and a raising one answers its message with no rename; otherwise the answer and the rename follow the changes |
| AppEndpoints.UpdateAppEndpoint | admin/ajax/update-app.php:24-142 | the tables and answer are those of UpdateApp for the sanitised form, and the directories are those after the rename it asks for |
| AppEndpoints.MoveDirectory | admin/ajax/update-app.php:127-134 | the directories become ApplyMove of the old ones |
| AppEndpoints.DeleteRecord | admin/ajax/delete-app.php:24-79 | the checks, the transaction and its rollback leave the tables, answer and removal that DeleteAppResult gives |
| AppEndpoints.DeleteAppEndpoint | admin/ajax/delete-app.php:24-106 | the tables and answer are those of DeleteAppResult, and the directories are those after the removal it schedules |
| AppEndpoints.RemoveDirectory | admin/ajax/delete-app.php:81-87 | the directories become ApplyRemove of the old ones |
| SettingsPage.SanitizedNoFinalNewline | admin/templates/settings.php:15 | a sanitised key never ends in a newline, since trim removed it |
| SettingsPage.StoredKeyUpper | admin/templates/settings.php:22-23 | for a sanitised key the pattern's final-newline allowance never applies, and the stored upper-cased key has the shape `[A-Z][A-Z0-9_]*` |
| SettingsPage.FindEnvVar | admin/templates/settings.php:64-66 | a found row is in the table with the id; nothing is found only when no row has it |
| SettingsPage.AddRequiresKeyAndValue | admin/templates/settings.php:14-35 | adding succeeds exactly for a non-empty sanitised key and raw value, a well-formed key and a successful insert; a failure changes nothing and leaves an error; a success appends one row with the upper-cased key and the raw value |
| SettingsPage.UpdateRequiresPositiveId | admin/templates/settings.php:37-58 | a non-positive id changes nothing and gives the invalid-data error; a success rewrites exactly the row with the id, with the upper-cased key |
| SettingsPage.DeleteOnlyExisting | admin/templates/settings.php:60-75 | a non-positive id does nothing and says nothing; a delete succeeds exactly for an existing row and a successful call, and then removes exactly that row; otherwise nothing changes |
| SettingsPage.MaxDeploymentsRange | admin/templates/settings.php:87-94 | the limit is written only when posted with an integer cast in 1..50, as its decimal text |
| SettingsPage.VectorFlagBoolean | admin/templates/settings.php:96-100 | a posted flag is always written, as "true" exactly when the posted text is "true" and "false" otherwise |
| SettingsPage.DimensionSupported | admin/templates/settings.php:102-109 | a dimension is written only when its integer cast is 384, 768, 1536 or 3072 |
| SettingsPage.SuccessIffUpdated | admin/templates/settings.php:111-114 | the settings form reports success exactly when some setting was written, never reports an error, changes nothing without writes and logs one row with them |
| SettingsPage.SettingsKeysKept | admin/templates/settings.php:79-109 | the form only overwrites existing rows: the set of settings keys is unchanged |
| SettingsPage.ApplyWritesKeepsKeys | admin/templates/settings.php:82-106 | UPDATEs by key never add or drop a settings key |
| SettingsPage.RunEnvAction | admin/templates/settings.php:12-76 | the branch on the database leaves the tables and messages that EnvAction gives |
| SettingsPage.RunAdd | admin/templates/settings.php:14-35 | the statements leave the tables and messages that AddEnv gives |
| SettingsPage.RunUpdate | admin/templates/settings.php:37-58 | the statements leave the tables and messages that UpdateEnv gives |
| SettingsPage.RunDelete | admin/templates/settings.php:60-75 | the lookup and statements leave the tables and messages that DeleteEnv gives |
| SettingsPage.RunSaveSettings | admin/templates/settings.php:77-115 | the UPDATEs and the log row leave the tables and messages that SaveSettings gives |
| SettingsPage.SaveAppName | admin/templates/settings.php:81-85 | the tables gain the application-name write, if posted, and `$updates` its caption |
| SettingsPage.SaveMaxDeployments | admin/templates/settings.php:87-94 | the tables gain the limit write, if accepted, and `$updates` its caption |
| SettingsPage.SaveVectorSearch | admin/templates/settings.php:96-100 | the tables gain the flag write, if posted, and `$updates` its caption |
| SettingsPage.SaveDimension | admin/templates/settings.php:102-109 | the tables gain the dimension write, if accepted, and `$updates` its caption |
| SettingsPage.HandleSettingsPost | admin/templates/settings.php:6-121 | one POST leaves the tables and messages that HandlePost gives |
| Config.Sanitize | public/config/config.php:44-46 | decoding the sanitised text gives the trimmed input, and it holds no `<`, `>`, `"` or `'` |
| Config.ValidBranchShellSafe | public/config/config.php:66-73 | a valid branch name is at most 100 characters, does not start with `.`, and holds only branch characters except for one final newline the `$` anchor lets through |
| Config.BranchTrailingNewline | public/config/config.php:66-73 | any name of branch characters, at most 99 long, not starting with `.` and without `..`, is accepted with one final newline added: the `$` anchor lets the newline through |
| Config.BranchNoDoubleDot | public/config/config.php:70-72 | in a valid name a dot is never followed by a dot and the name does not end in a dot |
| Config.TrimKeeps | public/config/config.php:77 | trimming keeps a property every character has |
| Config.CleanName | public/config/config.php:76-77 | the cleaned name holds only lowercase directory characters, neither starts nor ends with `_`, and is no longer than the name |
| Config.Replaced | public/config/config.php:77 | preg_replace keeps the length and maps each character to itself when it is a letter, digit, `-` or `_`, and to `_` otherwise |
| Config.CleanNameExact | public/config/config.php:76-77 | the cleaned name is a stretch of the name in which each character is the lowercased replaced character, and every character outside the stretch is one that becomes `_` |
| Config.GenerateAppDirectory | public/config/config.php:75-79 | the directory is the cleaned name, `_`, and the first eight characters of the digest |
| Config.GeneratedDirectoryValid | public/config/config.php:75-84 | with a hex digest the generated directory always has the allowed characters, and it passes isValidAppDirectory exactly when the cleaned name has at most 41 characters |
| Config.ValidateGitUrl | public/config/config.php:48-64 | the loop over the patterns returns true exactly when some pattern matches |
| Config.NamedHostsAreHostNames | public/config/config.php:51-53 | the three named hosts are made of host-name characters |
| Config.SegmentsArePath | public/config/config.php:51-54 | two segments joined by a slash form a path of the generic pattern |
| Config.HostedIsGeneric | public/config/config.php:51-54 | a URL the github, gitlab or bitbucket pattern matches is also matched by the generic one |
| Config.GitUrlValidIffGeneric | public/config/config.php:48-64 | a URL is accepted exactly when the generic pattern matches it, and every accepted URL starts with `https://` |
| Config.GitUrlTrailingNewline | public/config/config.php:48-64 | any URL the generic pattern matches is also accepted with one final newline |
| Config.Session.constructor | public/config/config.php:20-27 | a new session holds no user, no token and no setup flag |
| Config.Session.GenerateCSRFToken | public/config/config.php:33-38 | the stored token is returned when there is one, otherwise the random one is stored and returned; no other session field changes, and the token validates |
| Config.GenerateTwice | public/config/config.php:33-42 | a second call returns the same token as the first, and it validates |
| Config.RecentCount | public/config/config.php:106-114 | the count of attempts in the window is at most the number of rows |
| Config.CheckRateLimit | public/config/config.php:104-121 | a failing count query allows; otherwise the action is allowed exactly when fewer than `limit` attempts fall in the window |
| Config.RecentCountAppend | public/config/config.php:106-114 | each recorded attempt in the window adds one to the count |
| Config.LoginLockout | public/config/config.php:8-9 | when the count query succeeds, five attempts from one address within 300 seconds block the next one, whatever came before |
| Config.CountRows | public/config/config.php:106-112 | the count statement returns the rows exactly when its window is written as a product; with `INTERVAL ? SECOND` it raises at every call |
| Config.RateLimitNeverBlocksAsWritten | public/config/config.php:104-121 | as written, the raising count statement makes the catch allow every attempt, however many came before |
| Config.LoginLockoutFixed | public/config/config.php:104-121 | with the window written as a product, five failed logins from one address in the last 300 seconds block the sixth |
| Config.TimeAgo | public/config/config.php:133-142 | under a minute "just now"; then whole minutes, hours or days, each below the next unit; from 30 days the date |
| AdminRouter.DefaultIsDashboard | admin/index.php:20-59 | without an action a logged-in admin gets the dashboard |
| AdminRouter.SetupForcedFirst | admin/index.php:17-24 | before the first active admin exists every request is served the setup page |
| AdminRouter.AnonymousPages | admin/index.php:26-29 | without a session only setup, login and logout are served, and any other action becomes login |
| AdminRouter.SetupStaysReachable | admin/index.php:27 | once admins exist the setup page is still served, with or without a session |
| AdminRouter.UnknownActionDashboard | admin/index.php:32-59 | an action outside the named cases, `debug` among them, shows the dashboard |
| AdminRouter.CountFailureForcesSetup | admin/index.php:61-69 | when the admin count query raises, every request goes to setup |
| AdminRouter.SessionExpires | admin/index.php:71-75 | a session whose login is an hour old or more is not logged in |
| AdminRouter.SetupErrorsExact | admin/index.php:86-102 | each setup message appears exactly when its check fails; an empty email is not checked |
| AdminRouter.SetupErrorsDistinct | admin/index.php:86-104 | no message appears twice, and the form passes exactly when every check does |
| AdminRouter.CollectSetupErrors | admin/index.php:86-102 | the appends build exactly the list of failed checks, in order |
| AdminRouter.SetupCreatesOnlyWhenValid | admin/index.php:104-124 | an admin is created exactly when no check failed and the INSERT went through; it is active, has the next id and the sanitised fields, and the answer redirects to login; otherwise nothing changes and the form shows at least one error |
| AdminRouter.AnotherAdminWithoutLogin | admin/index.php:17-34 | once an admin exists a visitor without a session still reaches setup, and a valid form creates a further active admin |
| AdminRouter.SubmitSetup | admin/index.php:80-121 | the checks and statements leave the tables, the `setup_success` flag and the answer that SetupResult gives; the login fields and token of the session do not change |
| AdminRouter.HandleInitialSetup | admin/index.php:77-125 | a GET shows an empty form and changes nothing; a POST acts as SubmitSetup on the sanitised username and email |
| AdminRouter.FindActiveAdmin | admin/index.php:138-140 | a found admin is active, has the name and is in the table; nothing is found only when no active admin has the name |
| AdminRouter.RateLimitedLogin | admin/index.php:134-135 | over the rate limit the login fails with the lockout message, the user is not looked up and nothing is recorded |
| AdminRouter.LoginNeedsPassword | admin/index.php:134-162 | a login either logs in or shows an error; it logs in only an active admin with the name whose password matches; at most one activity row is written |
| AdminRouter.HandleLogin | admin/index.php:127-167 | a GET shows the form with the setup flag and clears it; a POST stores the admin's id, name and login time and redirects, or shows the form with the error and clears the flag |
| AdminRouter.HandleLogout | admin/index.php:169-179 | the logout is recorded only for a logged-in user, every session field is cleared and the answer redirects to login |
| QueryConsole.CheckAllowed | admin/ajax/execute-query.php:56-62 | the loop over the allow-list sets the flag exactly when some pattern matches the upper-cased query |
| QueryConsole.AllowedStartsWithKeyword | admin/ajax/execute-query.php:48-54 | an allowed query starts with SELECT, SHOW, DESCRIBE, EXPLAIN or WITH |
| QueryConsole.SelectNeedsSpace | admin/ajax/execute-query.php:49 | a keyword followed by anything but white space is refused, whatever comes after it: `SELECT*FROM t` is not allowed |
| QueryConsole.AnyCteBodyAllowed | admin/ajax/execute-query.php:53 | after `WITH ` any one-line text followed by ` SELECT ` is allowed, so a data-modifying common table expression passes |
| QueryConsole.CheckDangerous | admin/ajax/execute-query.php:78-82 | the loop over the deny-list finds a match exactly when some pattern matches the query |
| QueryConsole.SleepFound | admin/ajax/execute-query.php:70 | `pg_sleep` typed in any letter case and standing as a word is found, wherever it appears in the query |
| QueryConsole.LongerNameNotSleep | admin/ajax/execute-query.php:70 | the word boundary keeps longer names out: `pg_sleep` in any case followed by a word character does not match there |
| QueryConsole.Keys | admin/ajax/execute-query.php:99 | the keys of a row are its column names, in order |
| QueryConsole.RunQuery | admin/ajax/execute-query.php:24-142 | the checks, the autocommitted statement and the log row leave the tables and the answer that ExecuteQuery gives; the database stays valid after a statement that ran exactly when the tables the statement left are valid, and a refused or failed request keeps it as it was |
| QueryConsole.EmptyQueryRejected | admin/ajax/execute-query.php:32-38 | a query that trims to "" or "0" is refused before the database is reached, and nothing changes |
| QueryConsole.RunsOnlyWhenListed | admin/ajax/execute-query.php:46-90 | a statement runs only when its upper-cased text is allowed and it is not dangerous |
| QueryConsole.DenyBeatsAllow | admin/ajax/execute-query.php:68-82 | an allowed query with a dangerous function is refused with the deny-list message and nothing changes |
| QueryConsole.ResultBounds | admin/ajax/execute-query.php:93-116 | at most 1000 rows come back, they are the first rows of the result, the message is present exactly when rows were cut off, and `rows_affected` is the full count |
| QueryConsole.ColumnsOfFirstRow | admin/ajax/execute-query.php:96-99 | when rows exist the columns are the keys of the first row |
| QueryConsole.LoggedIffRan | admin/ajax/execute-query.php:86-119 | a query that ran leaves the tables its statement left (a data-modifying statement's writes included) with one activity row holding the shortened query added; a refused or failed one changes nothing |
| QueryConsole.ReadOnlyOnlyLogs | admin/ajax/execute-query.php:86-119 | a statement that writes nothing leaves the tables as they were, apart from the activity row of a query that ran |
| QueryConsole.WritesKept | admin/ajax/execute-query.php:86-88 | after a query that ran, the applications, deployments, embeddings and application sequence are those the statement left, so a deleting CTE's deletions stay |
| TableStructure.AcceptedHasNoQuote | admin/ajax/get-table-structure.php:23-29 | an accepted name holds no double quote |
| TableStructure.NewlineNameAccepted | admin/ajax/get-table-structure.php:23 | any identifier with one final newline passes the pattern, although the name is no longer an identifier |
| TableStructure.ReadQuotedName | admin/ajax/get-table-structure.php:49 | reading a quoted identifier leaves a strictly shorter rest |
| TableStructure.ReadQuotedNameOf | admin/ajax/get-table-structure.php:49 | a name without quotes followed by a quote is read back as that name |
| TableStructure.CountNamesTheTable | admin/ajax/get-table-structure.php:23-49 | for accepted names the COUNT statement names exactly the relation schema.table: the first quoted identifier is the schema, then `.`, then the table with nothing after it |
| TableStructure.StructureEchoesNames | admin/ajax/get-table-structure.php:19-87 | a success consulted the catalogue with accepted names and echoes them, the schema being `public` when none was given |
| TableStructure.TableCheckedFirst | admin/ajax/get-table-structure.php:23-25 | a missing or malformed table name is refused before the schema is looked at |
| TableStructure.SchemaChecked | admin/ajax/get-table-structure.php:20-29 | without a schema `public` is used and passes; a given schema that fails the pattern is refused |
| EmbeddingsPage.InsertByAge | admin/ajax/get-embeddings.php:55 | inserting a row into newest-first rows keeps them newest first and adds exactly that row |
| EmbeddingsPage.NoNewerThan | admin/ajax/get-embeddings.php:55 | a permutation of rows no newer than a time is no newer than it |
| EmbeddingsPage.OrderByNewest | admin/ajax/get-embeddings.php:55 | the listed rows are the selected rows, newest first |
| EmbeddingsPage.PageShape | admin/ajax/get-embeddings.php:55-57 | a page holds at most `limit` rows, consecutive from `offset`, full when enough rows remain, and rows remain after it exactly when offset + limit is below their number |
| EmbeddingsPage.ShortenShape | admin/ajax/get-embeddings.php:66-68 | contents up to 200 characters are kept; longer ones become their first 200 characters and `...` |
| EmbeddingsPage.ShortenContents | admin/ajax/get-embeddings.php:64-79 | the by-reference loop replaces every row by its displayed form, in place |
| EmbeddingsPage.LimitOf | admin/ajax/get-embeddings.php:20 | the limit is never above 100 |
| EmbeddingsPage.AppFilter | admin/ajax/get-embeddings.php:50-53 | the statements filter by application exactly when app_id is non-empty, not "0" and numeric |
| EmbeddingsPage.RunListEmbeddings | admin/ajax/get-embeddings.php:12-101 | the statements and the shortening loop answer what ListEmbeddings gives |
| EmbeddingsPage.LimitCapped | admin/ajax/get-embeddings.php:20 | a listed page reports a limit between 0 and 100 and holds no more rows than it |
| EmbeddingsPage.NoVectorNoRows | admin/ajax/get-embeddings.php:24-33 | without vector support nothing is listed |
| EmbeddingsPage.FilterApplied | admin/ajax/get-embeddings.php:50-88 | with an application filter every listed row belongs to the application; without one the total is every row |
| EmbeddingsPage.AllEmbeddings | admin/ajax/get-embeddings.php:82 | the selection without a filter is every row |
| EmbeddingsPage.ShownPageShape | admin/ajax/get-embeddings.php:36-79 | the displayed page is the ordered selection from `offset` on, shortened for display, newest first, at most `limit` rows, with rows after it exactly when offset + limit is below their number |
| EmbeddingsPage.TotalIsSelection | admin/ajax/get-embeddings.php:82-92 | the count statement counts the rows the list statement pages through |
| EmbeddingsPage.HasMoreIffRowsRemain | admin/ajax/get-embeddings.php:100 | `has_more` holds exactly when selected rows come after the page |
| Connector.ExplodeJoin | connetor.php:17 | joining the pieces of explode with the separator gives the text back |
| Connector.Explode | connetor.php:17 | explode gives at least one piece and no piece holds the separator |
| Connector.SplitFirst | connetor.php:17-18 | a split at the first `=` gives a key without `=` and the rest, and together they are the line; there is no split exactly when the line has no `=` |
| Connector.SplitFirstOf | connetor.php:17 | the split is at the first `=`: the value may hold further `=` |
| Connector.NonEmptyLines | connetor.php:8 | no empty line is kept |
| Connector.FileLines | connetor.php:8 | the lines read hold no line end and none is empty |
| Connector.NoNewlineKept | connetor.php:8 | dropping empty lines keeps lines free of line ends |
| Connector.CommentSkipped | connetor.php:12-14 | a line whose first non-blank character is `#` is skipped |
| Connector.NoEqualsSkipped | connetor.php:17-18 | a line without `=` is skipped |
| Connector.ValueKeepsEquals | connetor.php:17-22 | `A=b=c` sets A to `b=c`: the key and value are the trimmed sides of the first `=`, the value also stripped of quotes |
| Connector.TrimEnds | connetor.php:22 | trim leaves no character of its list at either end |
| Connector.TrimWithin | connetor.php:19 | trim adds no character |
| Connector.AssignShape | connetor.php:17-22 | a stored key holds no `=`, and a stored value neither starts nor ends with a quote |
| Connector.LastLineWins | connetor.php:25-27 | when the file loads, the last line that assigns a key decides its value |
| Connector.UnassignedKept | connetor.php:10-29 | a key no line assigns keeps its earlier value, or stays absent |
| Connector.Environment.constructor | connetor.php:25-27 | the three tables start as given, `$_ENV` empty |
| Connector.Environment.Set | connetor.php:25-27 | the same key and value are set in the process environment, `$_ENV` and `$_SERVER`, and nothing else changes |
| Connector.LoadEnv | connetor.php:2-30 | a missing file changes nothing; otherwise each of the three tables is the old one with the lines applied in order, and the load completes exactly when no line with an empty key stopped it |
| Connector.Apply | connetor.php:25-27 | one line's assignment is made to all three tables |
| Connector.BadStaysBad | connetor.php:25 | once a line has ended the script, later lines change nothing |
| Connector.BadLineEnds | connetor.php:25 | a line with an empty key ends the load: the tables stay as they were before it and the load fails |
| Connector.Messages | connetor.php:46-54 | the messages are the system prompt, then the examples, then the user's message |
| Connector.LlmReplyFromAnswer | connetor.php:32-85 | with a readable configuration at a path file_get_contents accepts, the endpoint receives the system prompt, the examples and the user's message in that order with the bearer key, and the reply is the answer's content, the cURL error or the fixed error text |
| Connector.ConfigErrorsReported | connetor.php:32-41 | an empty path or one with a NUL ends the script with no reply; an unreadable or undecodable configuration is reported with its own message without calling the endpoint |
| Connector.ApiUrl | connetor.php:158 | the Talk address starts with `https://` and ends with `/message` |
| Connector.ReplyNeedsMention | connetor.php:117-146 | no reply goes out unless the signature holds and the message mentions the bot, in any letter case |
| Connector.MentionAnyCase | connetor.php:143 | a text holding the mention anywhere, typed in any letter case, is found to mention it |
| Connector.UnsetConfigDies | connetor.php:166 | with AI_CONFIG_FILE unset a signed message that mentions the bot ends the script with no reply |
| Connector.RunConnector | connetor.php:88-227 | a missing env file stops the script; otherwise the environment is loaded, and the webhook runs exactly when the load completed |
| Dispatcher.Dispatch | admin/ajax/deploy-app.php:15-67 | the request starts a deployment exactly when the user is logged in, the database is up, the id is valid, the application exists and none of its deployments is running; a refusal changes nothing; a start appends one pending row with the next id and the initial log, and logs the start |
| Dispatcher.DispatchedRowReachesWorker | admin/ajax/deploy-app.php:57-91 | the id handed to the worker is positive and reads back as the new row's id, and the worker's joined lookup finds that pending row and its application |
| Dispatcher.FindDeploymentAtEnd | admin/ajax/deploy-app.php:57-64 | a lookup by an id no earlier row has finds the appended row |
| Dispatcher.PendingDoesNotBlock | admin/ajax/deploy-app.php:49-54 | only a running row blocks: a second request while one is pending is accepted, leaving two pending rows for the application |
| Dispatcher.RunningBlocks | admin/ajax/deploy-app.php:49-54 | a running deployment of the application refuses the request and nothing is written |
| Dispatcher.FindPhpBinary | admin/ajax/deploy-app.php:79-88 | the interpreter chosen is the first candidate that exists, or `php` when none does |
| Dispatcher.RecordRequest | admin/ajax/deploy-app.php:24-67 | the checks and the insert leave the tables and the answer that Dispatch gives, and the directory returned is the application's |
| Dispatcher.DeployAppEndpoint | admin/ajax/deploy-app.php:24-117 | the tables and answer are those of Dispatch; a refusal touches no directory and runs nothing; a start creates the application directory if needed and runs the worker command with the first existing interpreter, the new id and the directory's log file |
| Dispatcher.LaunchWorker | admin/ajax/deploy-app.php:73-96 | the directory is created if missing, no other one changes, and the command uses the first existing interpreter |
| Reporters.DeploymentStatus | admin/ajax/deployment-status.php:12-83 | a report is given exactly when the database is up, the id is valid and the deployment exists; it shows the row, its status name, its progress figure, the application's name if the application still exists and the directory's file log; an error reports status `failed` |
| Reporters.StatusIgnoresDbLog | admin/ajax/deployment-status.php:41-46 | the status report shows the file log only: without a log file the log is empty whatever the row holds |
| Reporters.StatusLogIndependentOfRowLog | admin/ajax/deployment-status.php:41-69 | changing the row's log column does not change the reported log |
| Reporters.FindAfterSetStatus | scripts/deploy-background.php:143-152 | a lookup after a status write finds the same row with the new columns |
| Reporters.Latest | admin/ajax/view-deployment-logs.php:48-56 | the latest deployment is one of the application's rows with no later start time among them; there is none exactly when the application has no deployment |
| Reporters.CombineLogs | admin/ajax/view-deployment-logs.php:78-86 | the combined log is never empty, starts with the row's log and ends with a non-empty file log; without a file log it is the row's log or the fixed text |
| Reporters.CombineLogsHeader | admin/ajax/view-deployment-logs.php:80-82 | the live-log header separates the two logs exactly when they differ |
| Reporters.ViewLogs | admin/ajax/view-deployment-logs.php:14-105 | an error exactly when the user is not logged in, the database is down, the id is invalid or the application does not exist; otherwise no deployment exactly when the application has none, else the latest one with the combined log |
| Reporters.ViewLogsShowsLatest | admin/ajax/view-deployment-logs.php:49-53 | of two deployments of the application the earlier-started one is never reported |
| Reporters.Progress | admin/ajax/deployment-status.php:48-63 | the progress figure is 0, 50 or 100: 100 exactly for completed, 50 exactly for running |
| EnvInjector.EmittedInOrder | scripts/deploy-background.php:178-189 | the variables are emitted in the order given: the blocks before a variable, its block, then those after it |
| EnvInjector.BlocksSnoc | scripts/deploy-background.php:178-189 | one more loop iteration adds its block at the end |
| EnvInjector.BuildEnvFile | scripts/deploy-background.php:171-191 | the loop builds the header, one block per variable in order, and the closing tag |
| EnvInjector.EnvAssignReadsBack | scripts/deploy-background.php:183-187 | the `$_ENV` literal of a block is closed by the generator's own quote and evaluates to the value read back through addslashes |
| EnvInjector.ReadAfterOpen | scripts/deploy-background.php:188 | the literal after `putenv('` is read through the plain key text into the escaped value |
| EnvInjector.PutenvReadsBack | scripts/deploy-background.php:188 | for a key without quotes or backslashes the `putenv` literal evaluates to `KEY=` and the value read back |
| EnvInjector.VarBlockShape | scripts/deploy-background.php:186-188 | a block is the comment and `$_ENV` line, the escaped value, then the `putenv` line with the key and the escaped value |
| EnvInjector.KeyLeTotal | scripts/deploy-background.php:161 | any two keys are ordered one way or the other |
| EnvInjector.KeyLeTrans | scripts/deploy-background.php:161 | the key order is transitive |
| EnvInjector.SortedCons | scripts/deploy-background.php:161 | a row no greater than every row of a sorted list can go in front of it |
| EnvInjector.HeadBoundsInsert | scripts/deploy-background.php:161 | the head of a sorted list bounds the rest and an inserted row that sorts after it |
| EnvInjector.Insert | scripts/deploy-background.php:161 | inserting into rows sorted by key keeps them sorted and adds exactly that row |
| EnvInjector.OrderByKey | scripts/deploy-background.php:161 | the rows come back sorted by key, the same rows |
| EnvInjector.IncludeHeadMentionsMarker | scripts/deploy-background.php:225-227 | the inserted require mentions auto-include.php |
| EnvInjector.RewriteStartsWithInclude | scripts/deploy-background.php:225-233 | a rewritten entry point starts with `<?php` and the require |
| EnvInjector.RewriteIdempotent | scripts/deploy-background.php:225-233 | a rewritten entry point is never rewritten again |
| EnvInjector.RewriteKeepsPlainText | scripts/deploy-background.php:232 | without an opening tag the original text is kept whole after the new block |
| EnvInjector.RewriteEveryOpeningTag | scripts/deploy-background.php:229-230 | str_replace inserts the require after every `<?php`: of a text starting with a tag, the first tag and the next one after plain text both get it, and the rest is rewritten alike |
| EnvInjector.WriteBootstrap | scripts/deploy-background.php:191-217 | writing the two generated files and their log lines changes no other file |
| EnvInjector.InjectOnlyLogs | scripts/deploy-background.php:164-167 | when the query fails or there are no variables only the log changes |
| EnvInjector.UpdateIndexOf | scripts/deploy-background.php:219-240 | the entry point is replaced by its rewrite when the rewrite applies and kept otherwise |
| EnvInjector.InjectIndex | scripts/deploy-background.php:158-246 | after the whole step the entry point is rewritten when the rewrite applies and kept otherwise |
| EnvInjector.InjectKeepsIncludedIndex | scripts/deploy-background.php:224-225 | an entry point that already mentions auto-include.php is left as it is |
| EnvInjector.InjectTwiceSameIndex | scripts/deploy-background.php:219-240 | a second deployment does not add a second require to the entry point |
| Workspaces.Append | scripts/deploy-background.php:154-156 | the log gains the message at its end, unless a directory has the log's name; no other entry changes |
| Workspaces.WriteFile | scripts/deploy-background.php:110 | the written entry exists afterwards and no other entry changes |
| Workspaces.Clean | scripts/deploy-background.php:54-58 | exactly the entries whose names end in `.log` remain, unchanged |
| Workspaces.CleanKeepsLog | scripts/deploy-background.php:54-58 | the log of earlier deployments survives the clean step |
| Workspaces.Promote | scripts/deploy-background.php:72-76 | `temp` is gone, every cloned entry replaces the entry of the same name, and the other entries stay |
| Workspaces.PromoteKeepsLog | scripts/deploy-background.php:72-76 | the log written before the move survives unless the repository ships a top-level `deployment.log` |
| Workspaces.PromoteReplacesLog | scripts/deploy-background.php:72-76 | a repository that ships a top-level `deployment.log` replaces the log written so far by its own |
| Workspaces.EnsureHtaccess | scripts/deploy-background.php:102-111 | an existing `.htaccess` is kept with nothing logged; a missing one is written with the default rules after its log line |
| Worker.JoinRow | scripts/deploy-background.php:27-38 | a joined row is the deployment with the id and its existing application; a missing deployment gives none |
| Worker.CloneStageOutcome | scripts/deploy-background.php:60-70 | the clone step fails exactly when no tree was fetched, whatever git printed |
| Worker.CloneStageKeepsLog | scripts/deploy-background.php:51-66 | before the clone the log of earlier deployments is kept and only appended to |
| Worker.WorkerCloneFailure | scripts/deploy-background.php:60-70 | a failed clone ends the deployment `failed`, its log being the log file followed by the error line, unless the failure write raises too and the row stays `running`; the application is never marked deployed |
| Worker.WorkerCloneSuccess | scripts/deploy-background.php:72-123 | when no status write raises, a fetched tree always ends the deployment `completed` with the log file as its log and the application marked deployed: the installers and the environment step never fail it |
| Worker.WorkerDeployedWriteFails | scripts/deploy-background.php:117-141 | a raising `deployed` UPDATE leaves the application undeployed and ends the deployment `failed` (or `running`, when the failure write raises too) with a log lacking the completion line |
| Worker.WorkerCompletedWriteFails | scripts/deploy-background.php:117-141 | a raising `completed` write leaves the application marked deployed while its deployment ends `failed` or stays `running` |
| Worker.WorkerEarlyFault | scripts/deploy-background.php:26-41 | a raising lookup or `running` write makes no directory and stores only the error line, as `failed`, unless the failure write raises too |
| Worker.WorkerNotFound | scripts/deploy-background.php:36-38 | a deployment without a joined row is marked `failed` with only the error line, unless that write raises; no directory is touched |
| Worker.StatusWritesFailAsWritten | scripts/deploy-background.php:143-152 | as written the status UPDATE names `deployments.updated_at`, which the schema lacks, so the running and failure writes raise and a run changes nothing |
| Worker.DeployedOnlyOnSuccess | scripts/deploy-background.php:117-119 | `applications.deployed` changes only when the argument is a found deployment, the database is up, the lookup and the `running` write went through, the clone succeeded and the `deployed` UPDATE did not raise |
| Worker.WorkerRunIdle | scripts/deploy-background.php:12-24 | without a usable argument or a connection nothing changes |
| Worker.WorkerRunMissing | scripts/deploy-background.php:26-38 | a raising lookup or a deployment without a joined row only reaches the catch block, with no log file |
| Worker.WorkerRunStartFails | scripts/deploy-background.php:40-41 | a raising `running` write only reaches the catch block, with no log file |
| Worker.WorkerRunFound | scripts/deploy-background.php:40-141 | once the joined row is found and the `running` write succeeded, the run is the try block on the application's directory, created empty when missing, and no other directory changes |
| Worker.SetStatusTwice | scripts/deploy-background.php:41 | the running write is entirely overwritten by the final one |
| Worker.CatchAfterStart | scripts/deploy-background.php:125-141 | the catch block after the `running` write leaves the row `failed` with the log and the error, or `running` when the failure write raises |
| WorkerScript.CleanSteps | scripts/deploy-background.php:51-58 | the directory becomes CleanStage of the old one |
| WorkerScript.FetchSteps | scripts/deploy-background.php:60-66 | the directory becomes FetchStage of the old one |
| WorkerScript.MoveSteps | scripts/deploy-background.php:72-82 | the directory becomes MoveStage of the old one |
| WorkerScript.InstallerSteps | scripts/deploy-background.php:84-100 | the directory becomes Installers of the old one |
| WorkerScript.HtaccessStep | scripts/deploy-background.php:102-111 | the directory becomes EnsureHtaccess of the old one |
| WorkerScript.PrepareSteps | scripts/deploy-background.php:84-114 | the directory becomes PrepareStage of the old one |
| WorkerScript.InstallSteps | scripts/deploy-background.php:72-114 | the directory becomes InstallStage of the old one |
| WorkerScript.CreateCustomEnvFile | scripts/deploy-background.php:158-246 | the directory becomes Inject of the old one |
| WorkerScript.InjectRowsSteps | scripts/deploy-background.php:164-240 | the directory becomes InjectRows of the old one |
| WorkerScript.WriteBootstrapFiles | scripts/deploy-background.php:169-217 | the directory becomes WriteBootstrap of the old one |
| WorkerScript.UpdateIndexFile | scripts/deploy-background.php:219-240 | the directory becomes UpdateIndex of the old one |
| WorkerScript.CompleteDeployment | scripts/deploy-background.php:72-141 | the tables and the directory become Complete of the old ones, the `deployed` and `completed` writes possibly raising into the catch block |
| WorkerScript.BuildSteps | scripts/deploy-background.php:72-115 | the directory becomes EnvStage after InstallStage of the old one |
| WorkerScript.DeployApp | scripts/deploy-background.php:51-141 | the tables and the directory become Deploy of the old ones |
| WorkerScript.CatchWrite | scripts/deploy-background.php:125-141 | the tables become CatchBlock of the old ones: the failure write, unless it raises |
| WorkerMain.DeployInDir | scripts/deploy-background.php:51-141 | DeployApp on the application's directory object; the other directories are untouched |
| WorkerMain.DeployRow | scripts/deploy-background.php:40-141 | the directory is created when missing, then the tables and that directory become Deploy of the old ones, and no other directory changes |
| WorkerMain.RunFound | scripts/deploy-background.php:27-141 | the run of a found joined row leaves the tables and disk that WorkerRun gives |
| WorkerMain.RunStartFails | scripts/deploy-background.php:40-41 | a raising `running` write leaves the tables and disk that WorkerRun gives: only the catch block, no directory |
| WorkerMain.RunStarted | scripts/deploy-background.php:40-141 | after the `running` write the try block leaves the tables and disk that WorkerRun gives |
| WorkerMain.RunMissing | scripts/deploy-background.php:26-38 | a raising lookup or an id with no joined row only reaches the catch block with the lookup's message or "Deployment not found", as WorkerRun gives; the disk is untouched |
| WorkerMain.RunWorker | scripts/deploy-background.php:12-141 | the whole script leaves the tables and disk that WorkerRun gives |

## Left out

- The shell commands (`find`, `git clone`, `cp`, `chown`/`chmod`, `composer`, `npm`, `rm -rf`, the background `exec`) are not run. Their printed outputs are inputs. `find`, `git clone`, `cp` and `rm -rf` change the workspace as fixed functions of it; `chown`/`chmod`, `composer` and `npm` leave it as it is (see Worker.Installers).
- Clean step: a nested `*.log` file inside a directory is not modelled. Directories are removed whole, and the workspace does not recurse into directory listings.
- Worker.Installers: `composer install` and `npm install` only add their log lines in the model. The `vendor/` and `node_modules/` directories and the lock files they create in the application directory are not modelled, so WorkerScript.InstallerSteps and the stages built on it leave every other entry unchanged.
- Workspaces.Promote: the `cp -r` merge of a same-named directory is modelled as an overwrite of that entry.
- Concurrency between the detached worker and the pollers is not modelled. The dispatcher's check-then-insert is modelled as one sequential step, and the single-flight race is not.
- Database plumbing is not modelled: PDO connection caching, the DDL, the seeding of default settings, and the creation of the activity-log table. The tables are in-memory sequences.
- Statement failures are inputs only where a member takes them as a parameter: the worker's lookup, its `running`, `deployed` and `completed` writes and the catch block's write (`Outcomes.writes`); the INSERT of create-app.php and the two UPDATEs of update-app.php (`fault`); the three DELETEs of delete-app.php (`fault`); the setup form's INSERT (`insertError`); the login's user lookup (`lookupFails`) and its rate-limit count (`attempts`, None when it raises); the admin count behind the router (`countOk`); the query console's statement (`exec`, which on success also carries the tables the statement leaves); the table-structure lookup (`lookup`); the embeddings page's statement, whose message (`sqlError`) answers a negative LIMIT or OFFSET; and the three env-var calls (`callOk`). Every other statement is assumed to go through: the SELECT lookups of create-app.php, update-app.php and deploy-app.php, the settings form's UPDATEs and its activity row, the dispatcher's INSERT, and the activity rows the endpoints write after their main statement.
- Foreign calls are parameters: `filter_var` for URLs and e-mails, `md5`, `random_bytes`, `hash_hmac`/`hash_equals`, `curl`, `json_decode`, `password_hash`/`password_verify`, and the vector-support probe. Their results are inputs.
- CSRF tokens are not checked by any endpoint. Only their generation and the comparison predicate are modelled.
- `formatBytes` and the other floating-point code are not modelled, because the model has no floating point.
- The HTML templates, the client-side JavaScript and the debug pages are not modelled. They are presentation only.
- The read-only endpoints `dashboard-stats.php`, `get-embeddings-stats.php`, `get-app.php` and `get-schema-tables.php` are not modelled. They are thin SELECTs, and the name check of the last one is modelled once, in TableStructure.
- The root `index.php` and `public/index.php` are not modelled. They are HTML dispatch over the application count.
- Wall-clock time is not read. Timestamps, elapsed seconds and the worker's date stamps are inputs.
- `isHttps` and `startSecureSession` are left out. The session starts as an empty `Config.Session`.
- `getDashboardStats`, `getAllApplications` and `getSystemSettings` are not modelled, because they are read-only queries for the templates.
- The empty `handleSettingsUpdate` and `handleDeploy` of `admin/index.php` have no effect, so they are routing targets only.
- The login's `last_login` UPDATE and the password hashing at setup are not modelled. A failure of that UPDATE after the session is set is not modelled either.
- The time and IP recorded with a failed login are not tied to the rate-limit attempts, which the login takes as an input.
- The exceptions of the settings form (`admin/templates/settings.php:117-120`) are not modelled.
- `addCustomEnvVar`, `updateCustomEnvVar` and `deleteCustomEnvVar` are not part of this model, because their definitions are not in the repository files modelled here. Their success is an input. On success, the row change their names describe is applied.
- The webhook reply is not modelled: its signing, its random value, its reference id and its outgoing `curl`.
- Connector.LoadEnv: `putenv` of a line whose key is empty after trimming ("=v") raises a ValueError in PHP. It is modelled as a fatal stop: the load fails and the run ends without a reply.
- Connector.LlmReplyFromAnswer: a configuration without `responseExamples` is a PHP TypeError. It is modelled as no reply.
- Connector.FileLines: `file()` with `FILE_IGNORE_NEW_LINES` strips "\n", and a "\r" before it is also removed. Other encodings are not modelled.
- Reporters.Latest: `ORDER BY started_at DESC LIMIT 1` returns one of the rows with the latest start time, and which one among equal timestamps is PostgreSQL's choice. The model takes the earliest such row in table order.
- EmbeddingsPage.OrderByNewest: `ORDER BY created_at DESC` is a stable insertion sort, and the database's order among equal timestamps is not modelled.
- EnvInjector.OrderByKey: `ORDER BY var_key` is modelled by code-point order (`KeyLe`). PostgreSQL collation is not modelled.
- EmbeddingsPage.RunListEmbeddings: a negative LIMIT or OFFSET is passed to the database, and its error is an input. The decoding of the metadata JSON is not modelled.
- Connector: `getenv` of an unset variable returns false, which the model reads as the empty string. For AI_CONFIG_FILE that empty path makes `file_get_contents` raise, and the script dies (Connector.UnsetConfigDies).
- Php.ReadBackIdentity: the `addslashes` escaping used in `custom-env.php` does not give back every value. `"` and NUL are not read back unchanged from a single-quoted PHP literal. The lemma states exactly when the value is read back, and the generated file is modelled as written.
- Php.IntCast: a string with a `.` or an exponent, or a decimal beyond 2^53, is converted by PHP through a double, which rounds it. The model reads the exact value instead, so it is exact where PHP rounds. Only the saturation at the 64-bit bounds and the overflow to infinity are modelled.
- Php.IntCastTruncatesFraction: a fraction longer than double precision rounds in PHP before the cast: `(int)"0.99999999999999999"` is 1 and `(int)"383.99999999999999999"` is 384, where the lemma gives 0 and 383. The lemma is exact for the value as written; SettingsPage.DimensionSupported and SettingsPage.MaxDeploymentsRange share this difference for such inputs.
- Php.RequestId: `is_numeric` also accepts a fraction or an exponent ("1.5", "1e3"). The model refuses those ids with the invalid-id answer. In the code they reach PostgreSQL, which cannot read them as an integer and raises, and the endpoint answers that database message. An id outside PostgreSQL's integer range raises the same way, and the model looks it up instead.
- EmbeddingsPage.AppFilter: the same `is_numeric` difference. A filter such as "1.5" is not applied by the model, while the code sends it to PostgreSQL, whose error becomes the answer.
- Text: characters are modelled as single bytes. PHP's `strlen`, `substr`, `trim` and `strtolower` work on bytes, and the model equates a byte with a character. Multibyte UTF-8 text is not modelled.
- Php.HtmlEscape: `htmlspecialchars` returns "" for invalid UTF-8. The model has no encoding, so it always escapes.
- Php.HtmlRoundTrip: holds for valid UTF-8 input only, because invalid input escapes to "".
- AppRules.SanitizeForm: a posted field that is not valid UTF-8 becomes "" in PHP. The model escapes it instead.
- Config.Sanitize: the same: invalid UTF-8 gives "" in PHP, and the model escapes it.
- EmbeddingsPage.RunListEmbeddings: cutting contents at 200 bytes can split a multibyte character. `json_encode` then fails, and the endpoint prints `false`. The model cuts at 200 characters and always answers the page.
- Worker.WorkerCloneFailure: the PHP interpreter's own stderr is redirected into `deployment.log` by the dispatcher. What `error_log` writes there is not modelled, so the log stored in the row lacks those lines.
- Worker.WorkerCloneSuccess: the same `error_log` lines are not modelled in the stored log.
- Worker.WorkerNotFound: the same `error_log` lines are not modelled.
- Worker.WorkerRunFound: "no other directory changes" holds because the modelled shell steps are fixed functions of the workspace. An unchecked branch such as `main;rm -rf …` runs a second command in the code, which can touch any directory. WorkerMain.DeployRow and WorkerMain.DeployInDir carry the same limit.
- AppRules.CreateErrorChecked: no branch check exists in the code. The branch is spliced unquoted into the `git clone` command line (`scripts/deploy-background.php:64`). The shell command is not modelled, so the injection itself is not modelled, and the corrected check is stated instead.

## Findings

| source | as written | input that shows it | evidently intended | confidence | as-written member | corrected member |
|---|---|---|---|---|---|---|
| scripts/deploy-background.php:143-152 | `updateDeploymentStatus` sets `updated_at`, but the `deployments` table has no such column (public/config/database.php:79-88) | any deployment id with a joined row: the `running` write raises, then the catch's `failed` write raises, and the row stays `pending` | the status writes go through (no `updated_at`, or the column added), so a run ends `completed` or `failed` | not executed | Worker.StatusWritesFailAsWritten | Worker.WorkerCloneSuccess |
| public/config/config.php:104-121 | the window is written `INTERVAL ? SECOND`; with native prepares PostgreSQL refuses the statement, and the catch returns true | six failed logins from one address within 300 seconds: the sixth is still allowed | the window written as `? * INTERVAL '1 second'`, so five recent attempts block the next | not executed | Config.RateLimitNeverBlocksAsWritten | Config.LoginLockoutFixed |
| admin/ajax/create-app.php:32-76 | the branch is stored unchecked and later spliced unquoted into `git clone --branch …` | branch `main;touch x` passes every check | validateBranchName applied, with the `$` anchor read as the end of the text | not executed | AppRules.CreateIgnoresBranch | AppRules.CreateErrorChecked |
