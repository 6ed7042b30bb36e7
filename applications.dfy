/**
 * The application administration rules of admin/ajax/create-app.php,
 * update-app.php and delete-app.php: the sanitised form, the directory
 * name derived from the application name, the uniqueness checks, the change
 * list and redeployment flag of an edit, and the effect of each endpoint on
 * the tables and on the application directories.
 */
module AppRules {
  import opened Wrappers
  import opened Text
  import opened Php
  import opened Records
  import opened Workspaces
  import opened Store
  import opened Config

  /** The posted fields as they arrive; only `branch` has a non-empty default. */
  datatype AppForm = AppForm(name: string, description: string, repository: string, branch: Option<string>, directory: string)

  /** The fields after `sanitizeInput`. */
  datatype Fields = Fields(name: string, description: string, repository: string, branch: string, directory: string)

  function SanitizeForm(f: AppForm): (r: Fields)
    ensures HtmlDecode(r.branch) == TrimWs(f.branch.GetOr("main"))
    ensures HtmlDecode(r.name) == TrimWs(f.name) && HtmlDecode(r.repository) == TrimWs(f.repository)
  {
    Fields(Sanitize(f.name), Sanitize(f.description), Sanitize(f.repository),
           Sanitize(f.branch.GetOr("main")), Sanitize(f.directory))
  }

  // ---------------------------------------------------------------- directory names

  function Dashed(c: char): char
  {
    if IsAlnum(c) then c else '-'
  }

  /**
   * The directory derived from a name: every character other than an ASCII
   * letter or digit becomes `-`, letters are lowercased, and leading and
   * trailing `-` are trimmed.
   */
  function DeriveDirectory(name: string): (r: string)
    ensures forall i | 0 <= i < |r| :: (IsAlnum(r[i]) && !IsUpper(r[i])) || r[i] == '-'
    ensures |r| > 0 ==> r[0] != '-' && r[|r| - 1] != '-'
    ensures |r| <= |name|
  {
    var dashed := seq(|name|, i requires 0 <= i < |name| => Dashed(name[i]));
    var lowered := Lower(dashed);
    TrimKeeps(lowered, {'-'}, c => (IsAlnum(c) && !IsUpper(c)) || c == '-');
    Trim(lowered, {'-'})
  }

  /** `preg_match('/^[a-zA-Z0-9\-_]+$/', $directory)`. */
  predicate DirectoryOk(d: string)
  {
    MatchesWhole(d, IsDirChar)
  }

  /** A name with at least one letter or digit derives a directory that matches the directory pattern. */
  lemma DerivedDirectoryAccepted(name: string, k: int)
    requires 0 <= k < |name| && IsAlnum(name[k])
    ensures DirectoryOk(DeriveDirectory(name))
  {
    var dashed := seq(|name|, i requires 0 <= i < |name| => Dashed(name[i]));
    var lowered := Lower(dashed);
    assert lowered[k] != '-';
    var left := TrimLeft(lowered, {'-'});
    assert |left| > 0;
    var r := TrimRight(left, {'-'});
    assert |r| > 0;
    assert r == DeriveDirectory(name);
  }

  /** A name with no letter or digit derives the empty directory, which the directory pattern refuses. */
  lemma NoAlnumNameRejected(name: string)
    requires forall i | 0 <= i < |name| :: !IsAlnum(name[i])
    ensures DeriveDirectory(name) == "" && !DirectoryOk(DeriveDirectory(name))
  {
    var dashed := seq(|name|, i requires 0 <= i < |name| => Dashed(name[i]));
    var lowered := Lower(dashed);
    assert forall i | 0 <= i < |lowered| :: lowered[i] == '-';
  }

  /** Deriving again from a derived directory changes nothing. */
  lemma DeriveDirectoryIdempotent(name: string)
    ensures DeriveDirectory(DeriveDirectory(name)) == DeriveDirectory(name)
  {
    var d := DeriveDirectory(name);
    var dashed := seq(|d|, i requires 0 <= i < |d| => Dashed(d[i]));
    assert dashed == d;
    assert Lower(dashed) == d;
    assert TrimLeft(d, {'-'}) == d;
    assert TrimRight(d, {'-'}) == d;
  }

  /** The directory used: the posted one, or the derived one when it is empty. */
  function ChosenDirectory(f: Fields): string
  {
    if Empty(f.directory) then DeriveDirectory(f.name) else f.directory
  }

  // ---------------------------------------------------------------- create-app.php

  datatype CreateResponse = Created(appId: int, directory: string) | CreateFailed(message: string)

  /** The first check create-app.php fails, or None when it reaches the insert. */
  function CreateError(t: Tables, user: Option<int>, dbUp: bool, f: Fields, urlValid: string -> bool): (e: Option<string>)
    ensures e.None? <==>
      && user.Some? && dbUp && !Empty(f.name) && !Empty(f.repository) && urlValid(f.repository)
      && DirectoryOk(ChosenDirectory(f))
      && !DirectoryTaken(t.applications, ChosenDirectory(f), None)
      && !RepositoryTaken(t.applications, f.repository, None)
  {
    var dir := ChosenDirectory(f);
    if user.None? then Some("Unauthorized")
    else if !dbUp then Some("Database connection failed")
    else if Empty(f.name) then Some("Application name is required")
    else if Empty(f.repository) then Some("Repository URL is required")
    else if !urlValid(f.repository) then Some("Invalid repository URL")
    else if !DirectoryOk(dir) then Some("Directory name can only contain letters, numbers, hyphens, and underscores")
    else if DirectoryTaken(t.applications, dir, None) then Some("Directory name is already taken")
    else if RepositoryTaken(t.applications, f.repository, None) then Some("Repository URL is already registered")
    else None
  }

  // ---------------------------------------------------------------- statement failures

  /**
   * The width of the first `applications` column a written value does not
   * fit, in column order: name VARCHAR(255), repository VARCHAR(500),
   * branch VARCHAR(100), directory VARCHAR(255) (public/config/database.php).
   * The description is TEXT and always fits.
   */
  function OverlongColumn(f: Fields, dir: string): (w: Option<nat>)
    ensures w.None? <==> |f.name| <= 255 && |f.repository| <= 500 && |f.branch| <= 100 && |dir| <= 255
    ensures w.Some? ==> w.value in {100, 255, 500}
  {
    if |f.name| > 255 then Some(255)
    else if |f.repository| > 500 then Some(500)
    else if |f.branch| > 100 then Some(100)
    else if |dir| > 255 then Some(255)
    else None
  }

  /** The PDOException message PostgreSQL's refusal of an over-long value becomes. */
  function TooLongMessage(width: nat): string
  {
    "SQLSTATE[22001]: String data, right truncated: 7 ERROR:  value too long for type character varying(" + NatToString(width) + ")"
  }

  /**
   * The message the INSERT or the field UPDATE raises, or None when it
   * succeeds: an over-long value first, otherwise `fault`, the statement
   * failing for a reason outside the model (a lost connection).
   */
  function WriteFault(f: Fields, dir: string, fault: Option<string>): (e: Option<string>)
    ensures e.None? <==> OverlongColumn(f, dir).None? && fault.None?
    ensures OverlongColumn(f, dir).Some? ==> e == Some(TooLongMessage(OverlongColumn(f, dir).value))
  {
    match OverlongColumn(f, dir)
    case Some(w) => Some(TooLongMessage(w))
    case None => fault
  }

  /**
   * create-app.php: `urlValid` is filter_var(…, FILTER_VALIDATE_URL) and
   * `fault` a failure of the INSERT for a reason outside the model. On
   * success one row is inserted, with the next id and the directory used,
   * and the creation is logged; a raising INSERT answers its message and
   * changes nothing.
   */
  function CreateApp(t: Tables, user: Option<int>, dbUp: bool, f: Fields, urlValid: string -> bool,
                     fault: Option<string>): (r: (Tables, CreateResponse))
    ensures r.1.Created? <==>
        && user.Some? && dbUp && !Empty(f.name) && !Empty(f.repository) && urlValid(f.repository)
        && DirectoryOk(ChosenDirectory(f))
        && !DirectoryTaken(t.applications, ChosenDirectory(f), None)
        && !RepositoryTaken(t.applications, f.repository, None)
        && OverlongColumn(f, ChosenDirectory(f)).None? && fault.None?
    ensures r.1.CreateFailed? ==> r.0 == t
    ensures CreateError(t, user, dbUp, f, urlValid).Some? ==> r.1 == CreateFailed(CreateError(t, user, dbUp, f, urlValid).value)
    ensures CreateError(t, user, dbUp, f, urlValid).None? && WriteFault(f, ChosenDirectory(f), fault).Some? ==>
      r.1 == CreateFailed(WriteFault(f, ChosenDirectory(f), fault).value)
    ensures r.1.Created? ==>
      && r.1 == Created(t.nextAppId, ChosenDirectory(f))
      && r.0 == t.(
           applications := t.applications + [Application(t.nextAppId, f.name, f.description, f.repository, f.branch, ChosenDirectory(f), false)],
           nextAppId := t.nextAppId + 1,
           activity := t.activity + [Activity(user, "app_created", "Created application: " + f.name)])
  {
    match CreateError(t, user, dbUp, f, urlValid)
    case Some(message) => (t, CreateFailed(message))
    case None =>
      var dir := ChosenDirectory(f);
      match WriteFault(f, dir, fault)
      case Some(message) => (t, CreateFailed(message))
      case None =>
        var id := t.nextAppId;
        (t.(applications := t.applications + [Application(id, f.name, f.description, f.repository, f.branch, dir, false)],
            nextAppId := id + 1,
            activity := t.activity + [Activity(user, "app_created", "Created application: " + f.name)]),
         Created(id, dir))
  }

  /**
   * A branch longer than its VARCHAR(100) column passes every check of
   * create-app.php and is refused by the INSERT, whose message is the
   * answer; nothing is written.
   */
  lemma LongBranchRefused(t: Tables, user: Option<int>, f: Fields, urlValid: string -> bool, fault: Option<string>)
    requires CreateError(t, user, true, f, urlValid).None?
    requires |f.name| <= 255 && |f.repository| <= 500 && |f.branch| > 100
    ensures CreateApp(t, user, true, f, urlValid, fault) == (t, CreateFailed(TooLongMessage(100)))
  {
  }

  /**
   * As written, create-app.php checks nothing about the branch: whatever
   * branch the form holds, `;`, `|`, `$(…)` and spaces included, gets the
   * same verdict, and an accepted one is stored as it is and later spliced
   * unquoted into the worker's `git clone` command line.
   */
  lemma CreateIgnoresBranch(t: Tables, user: Option<int>, dbUp: bool, f: Fields, urlValid: string -> bool, branch: string)
    ensures CreateError(t, user, dbUp, f.(branch := branch), urlValid) == CreateError(t, user, dbUp, f, urlValid)
  {
    assert ChosenDirectory(f.(branch := branch)) == ChosenDirectory(f);
  }

  /** A branch that can stand in a shell command line unquoted: branch characters only, no newline. */
  predicate ShellSafeBranch(b: string)
  {
    |b| > 0 && forall i | 0 <= i < |b| :: IsBranchChar(b[i])
  }

  /**
   * The check evidently intended: the create-app.php checks, then
   * validateBranchName with its `$` anchor read as the end of the text.
   */
  function CreateErrorChecked(t: Tables, user: Option<int>, dbUp: bool, f: Fields, urlValid: string -> bool): (e: Option<string>)
    ensures e.None? <==> CreateError(t, user, dbUp, f, urlValid).None? && ValidateBranchName(f.branch) && !EndsWith(f.branch, "\n")
    ensures e.None? ==> ShellSafeBranch(f.branch)
  {
    match CreateError(t, user, dbUp, f, urlValid)
    case Some(message) => Some(message)
    case None =>
      if ValidateBranchName(f.branch) && !EndsWith(f.branch, "\n") then
        ValidBranchShellSafe(f.branch);
        assert f.branch[|f.branch| - 1..] == [f.branch[|f.branch| - 1]];
        None
      else Some("Invalid branch name")
  }

  /**
   * After a creation the new application is the only one with its directory
   * and the only one with its repository.
   */
  lemma CreatedIsUnique(t: Tables, user: Option<int>, dbUp: bool, f: Fields, urlValid: string -> bool, fault: Option<string>)
    requires TablesValid(t)
    requires CreateApp(t, user, dbUp, f, urlValid, fault).1.Created?
    ensures var r := CreateApp(t, user, dbUp, f, urlValid, fault);
      && (forall a | a in r.0.applications && a.directory == r.1.directory :: a.id == r.1.appId)
      && (forall a | a in r.0.applications && a.repository == f.repository :: a.id == r.1.appId)
      && FindApp(r.0.applications, r.1.appId).Some?
  {
    var r := CreateApp(t, user, dbUp, f, urlValid, fault);
    var dir := ChosenDirectory(f);
    var na := Application(t.nextAppId, f.name, f.description, f.repository, f.branch, dir, false);
    assert r.0.applications == t.applications + [na];
    assert forall a | a in t.applications :: a.directory != dir && a.repository != f.repository;
    FreshAppId(t);
    assert na in r.0.applications;
  }

  // ---------------------------------------------------------------- update-app.php

  datatype UpdateResponse = Updated(directoryChanged: bool, needsRedeployment: bool) | UpdateFailed(message: string)

  /** A directory rename the edit asks for. */
  datatype Move = Move(from: string, to: string)

  /** The columns an edit can change, in the order the change list names them. */
  datatype Field = NameField | DescriptionField | RepositoryField | BranchField | DirectoryField

  function FieldName(x: Field): string
  {
    match x
    case NameField => "name"
    case DescriptionField => "description"
    case RepositoryField => "repository"
    case BranchField => "branch"
    case DirectoryField => "directory"
  }

  function FieldRank(x: Field): int
  {
    match x
    case NameField => 0
    case DescriptionField => 1
    case RepositoryField => 2
    case BranchField => 3
    case DirectoryField => 4
  }

  /** Whether the edit changes the column. */
  predicate FieldChanged(x: Field, a: Application, f: Fields, dir: string)
  {
    match x
    case NameField => f.name != a.name
    case DescriptionField => f.description != a.description
    case RepositoryField => f.repository != a.repository
    case BranchField => f.branch != a.branch
    case DirectoryField => dir != a.directory
  }

  /** The columns the edit changes, as `$changes` collects them. */
  function ChangeList(a: Application, f: Fields, dir: string): seq<Field>
  {
    (if f.name != a.name then [NameField] else [])
    + (if f.description != a.description then [DescriptionField] else [])
    + (if f.repository != a.repository then [RepositoryField] else [])
    + (if f.branch != a.branch then [BranchField] else [])
    + (if dir != a.directory then [DirectoryField] else [])
  }

  /**
   * The change list names exactly the changed columns, each once, in the
   * fixed order name, description, repository, branch, directory.
   */
  lemma ChangeListExact(a: Application, f: Fields, dir: string)
    ensures var r := ChangeList(a, f, dir);
      && (forall x :: x in r <==> FieldChanged(x, a, f, dir))
      && (forall i, j | 0 <= i < j < |r| :: FieldRank(r[i]) < FieldRank(r[j]))
  {
  }

  /** The change-list names as `implode(', ', $changes)` joins them. */
  function ChangeNames(changes: seq<Field>): (r: seq<string>)
    ensures |r| == |changes| && forall i | 0 <= i < |r| :: r[i] == FieldName(changes[i])
  {
    seq(|changes|, i requires 0 <= i < |changes| => FieldName(changes[i]))
  }

  /** A redeployment is needed when the code the directory holds would differ. */
  predicate NeedsRedeployment(a: Application, f: Fields, dir: string)
  {
    f.repository != a.repository || f.branch != a.branch || dir != a.directory
  }

  /** The first check update-app.php fails, or None when it reaches the UPDATE. */
  function UpdateError(t: Tables, user: Option<int>, dbUp: bool, raw: string, f: Fields, urlValid: string -> bool): (e: Option<string>)
    ensures e.None? ==> user.Some? && dbUp && RequestId(raw).Some? && FindApp(t.applications, RequestId(raw).value).Some?
    ensures e.None? <==>
      && user.Some? && dbUp && RequestId(raw).Some? && !Empty(f.name) && !Empty(f.repository) && urlValid(f.repository)
      && FindApp(t.applications, RequestId(raw).value).Some?
      && var a := FindApp(t.applications, RequestId(raw).value).value;
      && DirectoryOk(ChosenDirectory(f))
      && (ChosenDirectory(f) != a.directory ==> !DirectoryTaken(t.applications, ChosenDirectory(f), Some(a.id)))
      && (f.repository != a.repository ==> !RepositoryTaken(t.applications, f.repository, Some(a.id)))
  {
    if user.None? then Some("Unauthorized")
    else if !dbUp then Some("Database connection failed")
    else if RequestId(raw).None? then Some("Invalid application ID")
    else if Empty(f.name) then Some("Application name is required")
    else if Empty(f.repository) then Some("Repository URL is required")
    else if !urlValid(f.repository) then Some("Invalid repository URL")
    else
      var id := RequestId(raw).value;
      match FindApp(t.applications, id)
      case None => Some("Application not found")
      case Some(a) =>
        var dir := ChosenDirectory(f);
        if !DirectoryOk(dir) then Some("Directory name can only contain letters, numbers, hyphens, and underscores")
        else if dir != a.directory && DirectoryTaken(t.applications, dir, Some(id)) then Some("Directory name is already taken")
        else if f.repository != a.repository && RepositoryTaken(t.applications, f.repository, Some(id)) then Some("Repository URL is already registered")
        else None
  }

  function UpdateMessage(name: string, changes: seq<Field>): string
  {
    "Updated application: " + name + " (" + Join(ChangeNames(changes), ", ") + ")"
  }

  /** The tables after the field UPDATE of application a and the log entry of the changes. */
  function LoggedTables(t: Tables, user: Option<int>, a: Application, f: Fields): Tables
  {
    var dir := ChosenDirectory(f);
    var changes := ChangeList(a, f, dir);
    var t1 := t.(applications := UpdateFields(t.applications, a.id, f.name, f.description, f.repository, f.branch, dir));
    if |changes| > 0 then t1.(activity := t1.activity + [Activity(user, "app_updated", UpdateMessage(f.name, changes))]) else t1
  }

  /** The tables after an accepted edit of application a: then `deployed` is reset when a redeployment is needed. */
  function EditedTables(t: Tables, user: Option<int>, a: Application, f: Fields): Tables
  {
    var t2 := LoggedTables(t, user, a, f);
    if NeedsRedeployment(a, f, ChosenDirectory(f)) then t2.(applications := SetDeployed(t2.applications, a.id, false)) else t2
  }

  /** The two writes of an accepted edit: the field UPDATE and the `deployed = false` UPDATE. */
  datatype EditStep = FieldsStep | ResetStep

  /** The failure `fault` gives the statement, if it names it. */
  function FaultAt(fault: Option<(EditStep, string)>, step: EditStep): (e: Option<string>)
    ensures e.Some? <==> fault.Some? && fault.value.0 == step
  {
    if fault.Some? && fault.value.0 == step then Some(fault.value.1) else None
  }

  /**
   * update-app.php: the tables after the request, the answer, and the
   * rename of the application directory it asks for when the directory
   * changed. `fault` is a write that raises for a reason outside the model.
   * The writes are not in a transaction: a raising field UPDATE changes
   * nothing, but a raising reset comes after the field UPDATE and the log
   * entry, which stay, and before the rename, which is not done.
   */
  function UpdateApp(t: Tables, user: Option<int>, dbUp: bool, raw: string, f: Fields, urlValid: string -> bool,
                     fault: Option<(EditStep, string)>): (r: (Tables, UpdateResponse, Option<Move>))
    ensures UpdateError(t, user, dbUp, raw, f, urlValid).Some? ==>
      r == (t, UpdateFailed(UpdateError(t, user, dbUp, raw, f, urlValid).value), None)
    ensures r.1.UpdateFailed? ==> r.2.None?
    ensures UpdateError(t, user, dbUp, raw, f, urlValid).None? ==>
      var a := FindApp(t.applications, RequestId(raw).value).value;
      var dir := ChosenDirectory(f);
      var fieldsError := WriteFault(f, dir, FaultAt(fault, FieldsStep));
      var resetError := if NeedsRedeployment(a, f, dir) then FaultAt(fault, ResetStep) else None;
      && (fieldsError.Some? ==> r == (t, UpdateFailed(fieldsError.value), None))
      && (fieldsError.None? && resetError.Some? ==> r == (LoggedTables(t, user, a, f), UpdateFailed(resetError.value), None))
      && (r.1.Updated? <==> fieldsError.None? && resetError.None?)
      && (r.1.Updated? ==>
            && r.0 == EditedTables(t, user, a, f)
            && r.1.directoryChanged == (dir != a.directory)
            && r.1.needsRedeployment == NeedsRedeployment(a, f, dir)
            && (r.2.Some? <==> dir != a.directory)
            && (r.2.Some? ==> r.2.value == Move(a.directory, dir)))
  {
    match UpdateError(t, user, dbUp, raw, f, urlValid)
    case Some(message) => (t, UpdateFailed(message), None)
    case None => EditOutcome(t, user, FindApp(t.applications, RequestId(raw).value).value, f, fault)
  }

  /** The writes of an accepted edit of application a, and what they answer. */
  function EditOutcome(t: Tables, user: Option<int>, a: Application, f: Fields, fault: Option<(EditStep, string)>)
    : (Tables, UpdateResponse, Option<Move>)
  {
    var dir := ChosenDirectory(f);
    match WriteFault(f, dir, FaultAt(fault, FieldsStep))
    case Some(message) => (t, UpdateFailed(message), None)
    case None =>
      if NeedsRedeployment(a, f, dir) && FaultAt(fault, ResetStep).Some? then
        (LoggedTables(t, user, a, f), UpdateFailed(FaultAt(fault, ResetStep).value), None)
      else
        (EditedTables(t, user, a, f),
         Updated(dir != a.directory, NeedsRedeployment(a, f, dir)),
         if dir != a.directory then Some(Move(a.directory, dir)) else None)
  }

  /**
   * A failed edit either changes nothing, or, when only the reset raised,
   * leaves the row with its new fields and its old `deployed` flag: the
   * answer says failure although the edit was stored.
   */
  lemma FailedEditPartial(t: Tables, user: Option<int>, raw: string, f: Fields, urlValid: string -> bool, fault: Option<(EditStep, string)>)
    requires UpdateApp(t, user, true, raw, f, urlValid, fault).1.UpdateFailed?
    requires UpdateApp(t, user, true, raw, f, urlValid, fault).0 != t
    ensures var id := RequestId(raw).value;
      var a := FindApp(t.applications, id).value;
      && fault.Some? && fault.value.0 == ResetStep && NeedsRedeployment(a, f, ChosenDirectory(f))
      && FindApp(UpdateApp(t, user, true, raw, f, urlValid, fault).0.applications, id)
         == Some(Application(id, f.name, f.description, f.repository, f.branch, ChosenDirectory(f), a.deployed))
  {
    var id := RequestId(raw).value;
    FindAfterUpdateFields(t.applications, id, f.name, f.description, f.repository, f.branch, ChosenDirectory(f));
  }

  /** `if (is_dir($oldPath) && !is_dir($newPath)) rename($oldPath, $newPath)`. */
  function ApplyMove(disk: map<string, Workspace>, m: Option<Move>): (r: map<string, Workspace>)
    ensures m.None? ==> r == disk
    ensures m.Some? && m.value.from in disk && m.value.to !in disk ==>
      m.value.from !in r && m.value.to in r && r[m.value.to] == disk[m.value.from]
    ensures m.Some? && !(m.value.from in disk && m.value.to !in disk) ==> r == disk
  {
    match m
    case None => disk
    case Some(Move(from, to)) =>
      if from in disk && to !in disk then disk[to := disk[from]] - {from} else disk
  }

  /** A lookup after the field UPDATE finds the row with the new fields. */
  lemma {:induction false} FindAfterUpdateFields(apps: seq<Application>, id: int, name: string, description: string,
                                                 repository: string, branch: string, directory: string)
    requires FindApp(apps, id).Some?
    ensures FindApp(UpdateFields(apps, id, name, description, repository, branch, directory), id)
      == Some(Application(id, name, description, repository, branch, directory, FindApp(apps, id).value.deployed))
    decreases |apps|
  {
    var r := UpdateFields(apps, id, name, description, repository, branch, directory);
    if apps[0].id != id {
      assert r[1..] == UpdateFields(apps[1..], id, name, description, repository, branch, directory);
      FindAfterUpdateFields(apps[1..], id, name, description, repository, branch, directory);
    }
  }

  /** A lookup after the `deployed` UPDATE finds the row with the new flag. */
  lemma {:induction false} FindAfterSetDeployed(apps: seq<Application>, id: int, deployed: bool)
    requires FindApp(apps, id).Some?
    ensures FindApp(SetDeployed(apps, id, deployed), id) == Some(FindApp(apps, id).value.(deployed := deployed))
    decreases |apps|
  {
    var r := SetDeployed(apps, id, deployed);
    if apps[0].id != id {
      assert r[1..] == SetDeployed(apps[1..], id, deployed);
      FindAfterSetDeployed(apps[1..], id, deployed);
    }
  }

  /**
   * After an accepted edit the row holds the new fields, and `deployed` is
   * false exactly when a redeployment is needed and otherwise unchanged.
   */
  lemma EditedRow(t: Tables, user: Option<int>, raw: string, f: Fields, urlValid: string -> bool, fault: Option<(EditStep, string)>)
    requires UpdateApp(t, user, true, raw, f, urlValid, fault).1.Updated?
    ensures var r := UpdateApp(t, user, true, raw, f, urlValid, fault);
      var id := RequestId(raw).value;
      var a := FindApp(t.applications, id).value;
      FindApp(r.0.applications, id) == Some(Application(id, f.name, f.description, f.repository, f.branch, ChosenDirectory(f),
                                                        if r.1.needsRedeployment then false else a.deployed))
  {
    var id := RequestId(raw).value;
    var a := FindApp(t.applications, id).value;
    var dir := ChosenDirectory(f);
    FindAfterUpdateFields(t.applications, id, f.name, f.description, f.repository, f.branch, dir);
    var apps1 := UpdateFields(t.applications, id, f.name, f.description, f.repository, f.branch, dir);
    if NeedsRedeployment(a, f, dir) {
      FindAfterSetDeployed(apps1, id, false);
    }
  }

  /** An edit of the name or description only keeps `deployed` and renames nothing. */
  lemma NameOnlyEditKeepsDeployed(t: Tables, user: Option<int>, raw: string, f: Fields, urlValid: string -> bool, fault: Option<(EditStep, string)>)
    requires UpdateApp(t, user, true, raw, f, urlValid, fault).1.Updated?
    requires var a := FindApp(t.applications, RequestId(raw).value).value;
      f.repository == a.repository && f.branch == a.branch && ChosenDirectory(f) == a.directory
    ensures var r := UpdateApp(t, user, true, raw, f, urlValid, fault);
      && !r.1.needsRedeployment && r.2.None?
      && FindApp(r.0.applications, RequestId(raw).value).value.deployed == FindApp(t.applications, RequestId(raw).value).value.deployed
  {
    EditedRow(t, user, raw, f, urlValid, fault);
  }

  /** The activity row is written exactly when some field changed. */
  lemma EditLogged(t: Tables, user: Option<int>, raw: string, f: Fields, urlValid: string -> bool, fault: Option<(EditStep, string)>)
    requires UpdateApp(t, user, true, raw, f, urlValid, fault).1.Updated?
    ensures var r := UpdateApp(t, user, true, raw, f, urlValid, fault);
      var a := FindApp(t.applications, RequestId(raw).value).value;
      var changes := ChangeList(a, f, ChosenDirectory(f));
      && (|changes| == 0 ==> r.0.activity == t.activity)
      && (|changes| > 0 ==> r.0.activity == t.activity + [Activity(user, "app_updated", UpdateMessage(f.name, changes))])
  {
  }

  // ---------------------------------------------------------------- delete-app.php

  datatype DeleteResponse = Deleted(appName: string) | DeleteFailed(message: string)

  /** The statements of the delete transaction, in order. */
  datatype DeleteStep = EmbeddingsStep | DeploymentsStep | ApplicationStep

  /** The first check delete-app.php fails before the transaction, or None. */
  function DeleteError(t: Tables, user: Option<int>, dbUp: bool, raw: string): (e: Option<string>)
    ensures e.None? <==>
      user.Some? && dbUp && RequestId(raw).Some? && FindApp(t.applications, RequestId(raw).value).Some?
      && !HasRunning(t.deployments, RequestId(raw).value)
  {
    if user.None? then Some("Unauthorized")
    else if !dbUp then Some("Database connection failed")
    else if RequestId(raw).None? then Some("Invalid application ID")
    else if FindApp(t.applications, RequestId(raw).value).None? then Some("Application not found")
    else if HasRunning(t.deployments, RequestId(raw).value) then
      Some("Cannot delete application with running deployments. Please wait for deployment to complete.")
    else None
  }

  /**
   * The three DELETEs; the embeddings only with vector support. The last
   * one cascades to the deployments and embeddings of the application.
   */
  function DeletedTables(t: Tables, id: int, vector: bool): Tables
  {
    var t1 := if vector then t.(embeddings := DeleteEmbeddingsOf(t.embeddings, id)) else t;
    var t2 := t1.(deployments := DeleteDeploymentsOf(t1.deployments, id));
    t2.(applications := DeleteApp(t2.applications, id),
        deployments := DeleteDeploymentsOf(t2.deployments, id),
        embeddings := DeleteEmbeddingsOf(t2.embeddings, id))
  }

  /**
   * delete-app.php. `vector` is checkVectorSupport's answer and `fault` the
   * statement of the transaction that raises, with its message, if any (one
   * that does not run cannot raise). A raise rolls every table back. The
   * third component is the directory whose removal is scheduled.
   */
  function DeleteAppResult(t: Tables, user: Option<int>, dbUp: bool, raw: string, vector: bool,
                           fault: Option<(DeleteStep, string)>): (r: (Tables, DeleteResponse, Option<string>))
    ensures r.1.Deleted? <==>
      DeleteError(t, user, dbUp, raw).None? && (fault.None? || (fault.value.0 == EmbeddingsStep && !vector))
    ensures r.1.DeleteFailed? ==> r.0 == t && r.2.None?
    ensures r.1.Deleted? ==>
      var a := FindApp(t.applications, RequestId(raw).value).value;
      && r.1.appName == a.name
      && r.0 == DeletedTables(t, a.id, vector).(activity := t.activity + [Activity(user, "app_deleted", "Deleted application: " + a.name)])
      && r.2 == Some(a.directory)
  {
    match DeleteError(t, user, dbUp, raw)
    case Some(message) => (t, DeleteFailed(message), None)
    case None =>
      var a := FindApp(t.applications, RequestId(raw).value).value;
      if fault.Some? && (fault.value.0 != EmbeddingsStep || vector) then (t, DeleteFailed(fault.value.1), None)
      else
        var t3 := DeletedTables(t, a.id, vector);
        (t3.(activity := t3.activity + [Activity(user, "app_deleted", "Deleted application: " + a.name)]),
         Deleted(a.name), Some(a.directory))
  }

  /** `if (is_dir($appDirectory))` the background `rm -rf`. */
  function ApplyRemove(disk: map<string, Workspace>, dir: Option<string>): (r: map<string, Workspace>)
    ensures dir.Some? ==> dir.value !in r
    ensures forall n | dir.None? || n != dir.value :: (n in r <==> n in disk) && (n in r ==> r[n] == disk[n])
  {
    if dir.Some? then disk - {dir.value} else disk
  }

  /**
   * A successful delete leaves no application row with the id, no
   * deployment and no embedding of it (with or without vector support, the
   * cascade removes them); the rows of other applications stay.
   */
  lemma DeleteRemovesEverything(t: Tables, user: Option<int>, raw: string, vector: bool, fault: Option<(DeleteStep, string)>)
    requires DeleteAppResult(t, user, true, raw, vector, fault).1.Deleted?
    ensures var r := DeleteAppResult(t, user, true, raw, vector, fault);
      var id := RequestId(raw).value;
      && FindApp(r.0.applications, id).None?
      && (forall d | d in r.0.deployments :: d.appId != id)
      && (forall e | e in r.0.embeddings :: e.appId != id)
      && (forall a | a in t.applications && a.id != id :: a in r.0.applications)
      && (forall d | d in t.deployments && d.appId != id :: d in r.0.deployments)
      && (forall e | e in t.embeddings && e.appId != id :: e in r.0.embeddings)
  {
  }

  /** A running deployment refuses the delete whatever else holds, and nothing changes. */
  lemma RunningBlocksDelete(t: Tables, user: int, raw: string, vector: bool, fault: Option<(DeleteStep, string)>, d: Deployment)
    requires RequestId(raw).Some? && FindApp(t.applications, RequestId(raw).value).Some?
    requires d in t.deployments && d.appId == RequestId(raw).value && d.status == Running
    ensures var r := DeleteAppResult(t, Some(user), true, raw, vector, fault);
      r.1 == DeleteFailed("Cannot delete application with running deployments. Please wait for deployment to complete.")
      && r.0 == t && r.2.None?
  {
  }
}

/**
 * The three endpoints as the sequences of statements they issue against
 * the database and the directories.
 */
module AppEndpoints {
  import opened Wrappers
  import opened Text
  import opened Php
  import opened Records
  import opened Workspaces
  import opened Store
  import opened Config
  import opened AppRules

  /** create-app.php. */
  method CreateAppEndpoint(db: Database, user: Option<int>, dbUp: bool, form: AppForm, urlValid: string -> bool,
                           fault: Option<string>)
    returns (resp: CreateResponse)
    requires db.Valid()
    modifies db
    ensures db.Valid()
    ensures (db.Snapshot(), resp) == CreateApp(old(db.Snapshot()), user, dbUp, SanitizeForm(form), urlValid, fault)
  {
    var f := SanitizeForm(form);
    var error := CreateError(db.Snapshot(), user, dbUp, f, urlValid);
    if error.Some? {
      return CreateFailed(error.value);
    }
    var dir := if Empty(f.directory) then DeriveDirectory(f.name) else f.directory;
    var refused := WriteFault(f, dir, fault);
    if refused.Some? {
      return CreateFailed(refused.value);
    }
    var id := db.InsertApplication(f.name, f.description, f.repository, f.branch, dir);
    db.LogActivity(user, "app_created", "Created application: " + f.name);
    resp := Created(id, dir);
  }

  /** The first statements of an accepted edit: the field UPDATE and the log entry. */
  method LogEdit(db: Database, user: Option<int>, a: Application, f: Fields) returns (changes: seq<Field>)
    requires db.Valid()
    modifies db
    ensures db.Valid()
    ensures db.Snapshot() == LoggedTables(old(db.Snapshot()), user, a, f)
    ensures changes == ChangeList(a, f, ChosenDirectory(f))
  {
    var dir := if Empty(f.directory) then DeriveDirectory(f.name) else f.directory;
    db.UpdateApplication(a.id, f.name, f.description, f.repository, f.branch, dir);
    changes := CollectChanges(a, f, dir);
    if |changes| > 0 {
      db.LogActivity(user, "app_updated", UpdateMessage(f.name, changes));
    }
  }

  /** The appends that build `$changes`. */
  method CollectChanges(a: Application, f: Fields, dir: string) returns (changes: seq<Field>)
    ensures changes == ChangeList(a, f, dir)
  {
    changes := [];
    if f.name != a.name { changes := changes + [NameField]; }
    if f.description != a.description { changes := changes + [DescriptionField]; }
    if f.repository != a.repository { changes := changes + [RepositoryField]; }
    if f.branch != a.branch { changes := changes + [BranchField]; }
    if dir != a.directory { changes := changes + [DirectoryField]; }
  }

  /** update-app.php up to the directory rename: the checks and the statements. */
  method UpdateRecord(db: Database, user: Option<int>, dbUp: bool, raw: string, f: Fields, urlValid: string -> bool,
                      fault: Option<(EditStep, string)>)
    returns (resp: UpdateResponse, move: Option<Move>)
    requires db.Valid()
    modifies db
    ensures db.Valid()
    ensures (db.Snapshot(), resp, move) == UpdateApp(old(db.Snapshot()), user, dbUp, raw, f, urlValid, fault)
  {
    var error := UpdateError(db.Snapshot(), user, dbUp, raw, f, urlValid);
    if error.Some? {
      return UpdateFailed(error.value), None;
    }
    var a := FindApp(db.applications, RequestId(raw).value).value;
    resp, move := WriteEdit(db, user, a, f, fault);
  }

  /** The writes of an accepted edit: a raising statement ends the request with its message. */
  method WriteEdit(db: Database, user: Option<int>, a: Application, f: Fields, fault: Option<(EditStep, string)>)
    returns (resp: UpdateResponse, move: Option<Move>)
    requires db.Valid()
    modifies db
    ensures db.Valid()
    ensures (db.Snapshot(), resp, move) == EditOutcome(old(db.Snapshot()), user, a, f, fault)
  {
    var dir := if Empty(f.directory) then DeriveDirectory(f.name) else f.directory;
    var refused := WriteFault(f, dir, FaultAt(fault, FieldsStep));
    if refused.Some? {
      return UpdateFailed(refused.value), None;
    }
    var _ := LogEdit(db, user, a, f);
    resp, move := ResetDeployed(db, a, f, dir, FaultAt(fault, ResetStep));
  }

  /** After the field UPDATE: clear `deployed` when the repository, branch or directory changed. */
  method ResetDeployed(db: Database, a: Application, f: Fields, dir: string, resetError: Option<string>)
    returns (resp: UpdateResponse, move: Option<Move>)
    requires db.Valid() && dir == ChosenDirectory(f)
    modifies db
    ensures db.Valid()
    ensures NeedsRedeployment(a, f, dir) && resetError.Some? ==>
      db.Snapshot() == old(db.Snapshot()) && resp == UpdateFailed(resetError.value) && move == None
    ensures !(NeedsRedeployment(a, f, dir) && resetError.Some?) ==>
      && db.Snapshot() == (if NeedsRedeployment(a, f, dir)
                           then old(db.Snapshot()).(applications := SetDeployed(old(db.Snapshot()).applications, a.id, false))
                           else old(db.Snapshot()))
      && resp == Updated(dir != a.directory, NeedsRedeployment(a, f, dir))
      && move == (if dir != a.directory then Some(Move(a.directory, dir)) else None)
  {
    var directoryChanged := dir != a.directory;
    var repoChanged := f.repository != a.repository;
    var branchChanged := f.branch != a.branch;
    if repoChanged || branchChanged || directoryChanged {
      if resetError.Some? {
        return UpdateFailed(resetError.value), None;
      }
      db.SetApplicationDeployed(a.id, false);
    }
    resp := Updated(directoryChanged, repoChanged || branchChanged || directoryChanged);
    move := if directoryChanged then Some(Move(a.directory, dir)) else None;
  }

  /** update-app.php. */
  method UpdateAppEndpoint(db: Database, disk: Disk, user: Option<int>, dbUp: bool, raw: string, form: AppForm,
                           urlValid: string -> bool, fault: Option<(EditStep, string)>)
    returns (resp: UpdateResponse)
    requires db.Valid() && disk.Valid()
    modifies db, disk
    ensures db.Valid() && disk.Valid()
    ensures var r := UpdateApp(old(db.Snapshot()), user, dbUp, raw, SanitizeForm(form), urlValid, fault);
      && db.Snapshot() == r.0 && resp == r.1
      && disk.Contents() == ApplyMove(old(disk.Contents()), r.2)
  {
    var move;
    resp, move := UpdateRecord(db, user, dbUp, raw, SanitizeForm(form), urlValid, fault);
    MoveDirectory(disk, move);
  }

  /** The rename of update-app.php, when the old directory exists and the new one does not. */
  method MoveDirectory(disk: Disk, move: Option<Move>)
    requires disk.Valid()
    modifies disk
    ensures disk.Valid()
    ensures disk.Contents() == ApplyMove(old(disk.Contents()), move)
  {
    if move.Some? && move.value.from in disk.dirs && move.value.to !in disk.dirs {
      disk.Rename(move.value.from, move.value.to);
    }
  }

  /**
   * delete-app.php up to the directory removal: the checks, then BEGIN, the
   * DELETEs and COMMIT. A statement that raises rolls the tables back to the
   * state saved at BEGIN; after the commit the activity is logged.
   */
  method DeleteRecord(db: Database, user: Option<int>, dbUp: bool, raw: string, vector: bool,
                      fault: Option<(DeleteStep, string)>)
    returns (resp: DeleteResponse, removed: Option<string>)
    requires db.Valid()
    modifies db
    ensures db.Valid()
    ensures (db.Snapshot(), resp, removed) == DeleteAppResult(old(db.Snapshot()), user, dbUp, raw, vector, fault)
  {
    var error := DeleteError(db.Snapshot(), user, dbUp, raw);
    if error.Some? {
      return DeleteFailed(error.value), None;
    }
    var a := FindApp(db.applications, RequestId(raw).value).value;
    var saved := db.Snapshot();
    if vector {
      if fault.Some? && fault.value.0 == EmbeddingsStep {
        db.Restore(saved);
        return DeleteFailed(fault.value.1), None;
      }
      db.DeleteEmbeddings(a.id);
    }
    if fault.Some? && fault.value.0 == DeploymentsStep {
      db.Restore(saved);
      return DeleteFailed(fault.value.1), None;
    }
    db.DeleteDeployments(a.id);
    if fault.Some? && fault.value.0 == ApplicationStep {
      db.Restore(saved);
      return DeleteFailed(fault.value.1), None;
    }
    db.DeleteApplication(a.id);
    db.LogActivity(user, "app_deleted", "Deleted application: " + a.name);
    resp, removed := Deleted(a.name), Some(a.directory);
  }

  /** delete-app.php: the removal of the directory is scheduled only when it exists. */
  method DeleteAppEndpoint(db: Database, disk: Disk, user: Option<int>, dbUp: bool, raw: string, vector: bool,
                           fault: Option<(DeleteStep, string)>)
    returns (resp: DeleteResponse)
    requires db.Valid() && disk.Valid()
    modifies db, disk
    ensures db.Valid() && disk.Valid()
    ensures var r := DeleteAppResult(old(db.Snapshot()), user, dbUp, raw, vector, fault);
      && db.Snapshot() == r.0 && resp == r.1
      && disk.Contents() == ApplyRemove(old(disk.Contents()), r.2)
  {
    var removed;
    resp, removed := DeleteRecord(db, user, dbUp, raw, vector, fault);
    RemoveDirectory(disk, removed);
  }

  /** The recursive delete of delete-app.php, when the directory exists. */
  method RemoveDirectory(disk: Disk, removed: Option<string>)
    requires disk.Valid()
    modifies disk
    ensures disk.Valid()
    ensures disk.Contents() == ApplyRemove(old(disk.Contents()), removed)
  {
    if removed.Some? && removed.value in disk.dirs {
      disk.Remove(removed.value);
    }
  }
}
