/**
 * The POST handler of the settings page, admin/templates/settings.php: the
 * custom environment variables (add, update, delete) and the system
 * settings form (application name, deployment limit, vector search flag and
 * dimension). Each branch leaves a success message or an error message.
 */
module SettingsPage {
  import opened Wrappers
  import opened Text
  import opened Php
  import opened Records
  import opened Store
  import opened Config

  /** The fields of an env-var form; a missing field is None. */
  datatype EnvForm = EnvForm(
    action: string, id: Option<string>, key: Option<string>, value: Option<string>,
    description: Option<string>, sensitive: bool)

  /** The fields of the settings form; a field the browser did not send is None. */
  datatype SettingsForm = SettingsForm(
    appName: Option<string>, maxDeployments: Option<string>,
    enableVectorSearch: Option<string>, vectorDimension: Option<string>)

  /** A POST carries `env_action` or it is the settings form. */
  datatype Post = EnvPost(env: EnvForm) | SettingsPost(form: SettingsForm)

  /** `$success` (false is None) and `$error` after the handler. */
  datatype Outcome = Outcome(success: Option<string>, error: Option<string>)

  /** `$_POST[f] ?? ''`. */
  function OrEmpty(f: Option<string>): string
  {
    if f.Some? then f.value else ""
  }

  /** `(int)($_POST['env_id'] ?? 0)`. */
  function PostedId(f: Option<string>): int
  {
    if f.Some? then IntCast(f.value) else 0
  }

  // ---------------------------------------------------------------- env-var keys

  /** A key without the final-newline allowance: `[A-Za-z][A-Za-z0-9_]*`. */
  predicate KeyShape(k: string)
  {
    |k| > 0 && IsAlpha(k[0]) && forall i | 1 <= i < |k| :: IsWordChar(k[i])
  }

  /** `preg_match('/^[A-Z][A-Z0-9_]*$/i', $key)`; `$` also matches before a final newline. */
  predicate EnvKeyOk(k: string)
  {
    KeyShape(k) || (|k| > 1 && k[|k| - 1] == '\n' && KeyShape(k[..|k| - 1]))
  }

  /** The last character htmlspecialchars writes for a non-empty string. */
  lemma {:induction false} EscapeLastChar(s: string)
    requires |s| > 0
    ensures var r := HtmlEscape(s);
      |r| > 0 && r[|r| - 1] == (if IsMarkup(s[|s| - 1]) then ';' else s[|s| - 1])
    decreases |s|
  {
    var e := EscapeChar(s[0]);
    assert HtmlEscape(s) == e + HtmlEscape(s[1..]);
    if |s| == 1 {
      assert HtmlEscape(s[1..]) == "";
      EscapeCharLast(s[0]);
    } else {
      EscapeLastChar(s[1..]);
      assert s[1..][|s| - 2] == s[|s| - 1];
    }
  }

  lemma EscapeCharLast(c: char)
    ensures var e := EscapeChar(c); |e| > 0 && e[|e| - 1] == (if IsMarkup(c) then ';' else c)
  {
  }

  /** Trimmed text does not end in a trimmed character. */
  lemma TrimWsLast(s: string)
    ensures var t := TrimWs(s); |t| == 0 || t[|t| - 1] !in TrimSpace
  {
  }

  /** A sanitised field never ends in a newline: trim removed it. */
  lemma SanitizedNoFinalNewline(s: string)
    ensures var r := Sanitize(s); |r| == 0 || r[|r| - 1] != '\n'
  {
    var t := TrimWs(s);
    var r := Sanitize(s);
    assert r == HtmlEscape(t);
    if |t| > 0 {
      TrimWsLast(s);
      EscapeLastChar(t);
    }
  }

  /**
   * For the sanitised key the handler checks, the pattern is exactly the
   * strict shape, and the stored upper-cased key is `[A-Z][A-Z0-9_]*`.
   */
  lemma StoredKeyUpper(raw: string)
    requires EnvKeyOk(Sanitize(raw))
    ensures KeyShape(Sanitize(raw))
    ensures var u := Upper(Sanitize(raw));
      && |u| > 0 && IsUpper(u[0])
      && forall i | 1 <= i < |u| :: IsUpper(u[i]) || IsDigit(u[i]) || u[i] == '_'
  {
    SanitizedNoFinalNewline(raw);
  }

  // ---------------------------------------------------------------- env-var actions

  const BadKey := "Invalid key format. Use uppercase letters, numbers, and underscores only."

  /**
   * The `add` branch. `callOk` is what addCustomEnvVar returns; when it
   * succeeds the row is inserted with the key upper-cased.
   */
  function AddEnv(t: Tables, user: Option<int>, f: EnvForm, callOk: bool): (r: (Tables, Outcome))
  {
    var key := Sanitize(OrEmpty(f.key));
    var value := OrEmpty(f.value);
    if Empty(key) || Empty(value) then (t, Outcome(None, Some("Key and value are required.")))
    else if !EnvKeyOk(key) then (t, Outcome(None, Some(BadKey)))
    else if !callOk then (t, Outcome(None, Some("Failed to add environment variable. Key may already exist.")))
    else
      var row := EnvVar(t.nextEnvVarId, Upper(key), value, Sanitize(OrEmpty(f.description)), f.sensitive);
      (t.(envVars := t.envVars + [row], nextEnvVarId := t.nextEnvVarId + 1,
          activity := t.activity + [Activity(user, "env_var_add", "Added custom env var: " + key)]),
       Outcome(Some("Environment variable '" + key + "' added successfully!"), None))
  }

  /** The `update` branch; `callOk` is what updateCustomEnvVar returns. */
  function UpdateEnv(t: Tables, user: Option<int>, f: EnvForm, callOk: bool): (r: (Tables, Outcome))
  {
    var id := PostedId(f.id);
    var key := Sanitize(OrEmpty(f.key));
    var value := OrEmpty(f.value);
    if id <= 0 || Empty(key) || Empty(value) then (t, Outcome(None, Some("Invalid data provided for update.")))
    else if !EnvKeyOk(key) then (t, Outcome(None, Some(BadKey)))
    else if !callOk then (t, Outcome(None, Some("Failed to update environment variable.")))
    else
      (t.(envVars := SetEnvVar(t.envVars, id, Upper(key), value, Sanitize(OrEmpty(f.description)), f.sensitive),
          activity := t.activity + [Activity(user, "env_var_update", "Updated custom env var: " + key)]),
       Outcome(Some("Environment variable '" + key + "' updated successfully!"), None))
  }

  /** The row with the given id, as `SELECT var_key … WHERE id = ?` finds it. */
  function FindEnvVar(vs: seq<EnvVar>, id: int): (r: Option<EnvVar>)
    ensures r.Some? ==> r.value in vs && r.value.id == id
    ensures r.None? ==> forall v | v in vs :: v.id != id
    decreases |vs|
  {
    if |vs| == 0 then None
    else if vs[0].id == id then Some(vs[0])
    else
      var rest := FindEnvVar(vs[1..], id);
      assert forall v | v in vs :: v == vs[0] || v in vs[1..];
      rest
  }

  /**
   * The `delete` branch; `callOk` is what deleteCustomEnvVar returns. A
   * non-positive id does nothing and says nothing.
   */
  function DeleteEnv(t: Tables, user: Option<int>, f: EnvForm, callOk: bool): (r: (Tables, Outcome))
  {
    var id := PostedId(f.id);
    if id <= 0 then (t, Outcome(None, None))
    else match FindEnvVar(t.envVars, id)
      case None => (t, Outcome(None, Some("Failed to delete environment variable.")))
      case Some(v) =>
        if !callOk then (t, Outcome(None, Some("Failed to delete environment variable.")))
        else
          (t.(envVars := DeleteEnvVar(t.envVars, id),
              activity := t.activity + [Activity(user, "env_var_delete", "Deleted custom env var: " + v.key)]),
           Outcome(Some("Environment variable '" + v.key + "' deleted successfully!"), None))
  }

  /** The `switch ($_POST['env_action'])`; any other action does nothing. */
  function EnvAction(t: Tables, user: Option<int>, f: EnvForm, callOk: bool): (r: (Tables, Outcome))
  {
    if f.action == "add" then AddEnv(t, user, f, callOk)
    else if f.action == "update" then UpdateEnv(t, user, f, callOk)
    else if f.action == "delete" then DeleteEnv(t, user, f, callOk)
    else (t, Outcome(None, None))
  }

  // ---------------------------------------------------------------- settings form

  /** The four rows of the `settings` table the form writes. */
  datatype Setting = AppName | MaxDeployments | VectorSearch | VectorDimension

  function KeyName(s: Setting): string
  {
    match s
    case AppName => "app_name"
    case MaxDeployments => "max_deployments"
    case VectorSearch => "enable_vector_search"
    case VectorDimension => "vector_dimension"
  }

  /** The entry `$updates[]` receives for a written setting. */
  function Caption(s: Setting): string
  {
    match s
    case AppName => "Application Name"
    case MaxDeployments => "Max Deployments"
    case VectorSearch => "Vector Search"
    case VectorDimension => "Vector Dimension"
  }

  /** One accepted `UPDATE settings SET value = ? WHERE key = ?`. */
  datatype Write = Write(setting: Setting, value: string)

  const Dimensions: seq<int> := [384, 768, 1536, 3072]

  /**
   * The form after `sanitizeInput` and the `(int)` casts the handler applies
   * to its fields; the flag is compared as posted.
   */
  datatype Parsed = Parsed(appName: Option<string>, maxDeployments: Option<int>,
                           enableVectorSearch: Option<string>, vectorDimension: Option<int>)

  function Parse(f: SettingsForm): Parsed
  {
    Parsed(if f.appName.Some? then Some(Sanitize(f.appName.value)) else None,
           if f.maxDeployments.Some? then Some(IntCast(f.maxDeployments.value)) else None,
           f.enableVectorSearch,
           if f.vectorDimension.Some? then Some(IntCast(f.vectorDimension.value)) else None)
  }

  function AppNameWrite(p: Parsed): seq<Write>
  {
    if p.appName.Some? then [Write(AppName, p.appName.value)] else []
  }

  /** The limit is written only when it lies in 1..50. */
  function MaxDeploymentsWrite(p: Parsed): seq<Write>
  {
    if p.maxDeployments.Some? && 1 <= p.maxDeployments.value <= 50
    then [Write(MaxDeployments, IntToString(p.maxDeployments.value))] else []
  }

  function VectorSearchWrite(p: Parsed): seq<Write>
  {
    if p.enableVectorSearch.Some?
    then [Write(VectorSearch, if p.enableVectorSearch.value == "true" then "true" else "false")] else []
  }

  function DimensionWrite(p: Parsed): seq<Write>
  {
    if p.vectorDimension.Some? && p.vectorDimension.value in Dimensions
    then [Write(VectorDimension, IntToString(p.vectorDimension.value))] else []
  }

  /** The writes of a parsed form, in the order the handler issues them. */
  function WritesOf(p: Parsed): seq<Write>
  {
    AppNameWrite(p) + MaxDeploymentsWrite(p) + VectorSearchWrite(p) + DimensionWrite(p)
  }

  /** The writes the posted form leads to. */
  function Writes(f: SettingsForm): seq<Write>
  {
    WritesOf(Parse(f))
  }

  /** An UPDATE of a key that has no row changes nothing. */
  function Put(m: map<string, string>, w: Write): map<string, string>
  {
    if KeyName(w.setting) in m then m[KeyName(w.setting) := w.value] else m
  }

  /** The settings after the given writes, in order. */
  function ApplyWrites(m: map<string, string>, ws: seq<Write>): map<string, string>
    decreases |ws|
  {
    if |ws| == 0 then m else ApplyWrites(Put(m, ws[0]), ws[1..])
  }

  function Captions(ws: seq<Write>): seq<string>
  {
    seq(|ws|, i requires 0 <= i < |ws| => Caption(ws[i].setting))
  }

  /** The settings branch: the accepted writes, then one log row when there was any. */
  function SaveSettings(t: Tables, user: Option<int>, f: SettingsForm): (r: (Tables, Outcome))
  {
    var ws := Writes(f);
    if |ws| == 0 then (t, Outcome(None, None))
    else
      (t.(settings := ApplyWrites(t.settings, ws),
          activity := t.activity + [Activity(user, "settings_update", "Updated: " + Join(Captions(ws), ", "))]),
       Outcome(Some("Settings updated successfully!"), None))
  }

  /** The whole handler for one POST. */
  function HandlePost(t: Tables, user: Option<int>, p: Post, callOk: bool): (r: (Tables, Outcome))
  {
    match p
    case EnvPost(e) => EnvAction(t, user, e, callOk)
    case SettingsPost(s) => SaveSettings(t, user, s)
  }

  // ---------------------------------------------------------------- properties

  /** Adding needs a non-empty key and value and a well-formed key; the stored key is upper-cased. */
  lemma AddRequiresKeyAndValue(t: Tables, user: Option<int>, f: EnvForm, callOk: bool)
    requires f.action == "add"
    ensures var r := HandlePost(t, user, EnvPost(f), callOk);
      && (r.1.success.Some? <==>
            !Empty(Sanitize(OrEmpty(f.key))) && !Empty(OrEmpty(f.value)) && EnvKeyOk(Sanitize(OrEmpty(f.key))) && callOk)
      && (r.1.success.None? ==> r.0 == t && r.1.error.Some?)
      && (r.1.success.Some? ==>
            && |r.0.envVars| == |t.envVars| + 1
            && r.0.envVars[|t.envVars|].key == Upper(Sanitize(OrEmpty(f.key)))
            && r.0.envVars[|t.envVars|].value == OrEmpty(f.value))
  {
  }

  /** Update needs a positive id and acts on that row only, with the key upper-cased. */
  lemma UpdateRequiresPositiveId(t: Tables, user: Option<int>, f: EnvForm, callOk: bool)
    requires f.action == "update"
    ensures var r := HandlePost(t, user, EnvPost(f), callOk);
      && (PostedId(f.id) <= 0 ==> r == (t, Outcome(None, Some("Invalid data provided for update."))))
      && (r.1.success.Some? ==>
            && PostedId(f.id) > 0 && EnvKeyOk(Sanitize(OrEmpty(f.key)))
            && forall i | 0 <= i < |t.envVars| ::
                 r.0.envVars[i] == (if t.envVars[i].id == PostedId(f.id)
                                    then EnvVar(PostedId(f.id), Upper(Sanitize(OrEmpty(f.key))), OrEmpty(f.value),
                                                Sanitize(OrEmpty(f.description)), f.sensitive)
                                    else t.envVars[i]))
  {
  }

  /**
   * Delete acts only for a positive id of an existing row, removes exactly
   * that row, and a non-positive id leaves no message at all.
   */
  lemma DeleteOnlyExisting(t: Tables, user: Option<int>, f: EnvForm, callOk: bool)
    requires f.action == "delete"
    ensures var r := HandlePost(t, user, EnvPost(f), callOk);
      && (PostedId(f.id) <= 0 ==> r == (t, Outcome(None, None)))
      && (r.1.success.Some? <==> PostedId(f.id) > 0 && FindEnvVar(t.envVars, PostedId(f.id)).Some? && callOk)
      && (r.1.success.Some? ==> forall v :: v in r.0.envVars <==> v in t.envVars && v.id != PostedId(f.id))
      && (r.1.success.None? ==> r.0 == t)
  {
  }

  /** The limit is written only for a posted value in 1..50, as its decimal text. */
  lemma MaxDeploymentsRange(f: SettingsForm, w: Write)
    requires w in Writes(f) && w.setting == MaxDeployments
    ensures f.maxDeployments.Some?
    ensures 1 <= IntCast(f.maxDeployments.value) <= 50
    ensures w.value == NatToString(IntCast(f.maxDeployments.value))
  {
    assert w in MaxDeploymentsWrite(Parse(f));
  }

  /** The vector search flag is always written when posted, as "true" exactly for the text "true", else "false". */
  lemma VectorFlagBoolean(f: SettingsForm)
    requires f.enableVectorSearch.Some?
    ensures exists w :: w in Writes(f) && w.setting == VectorSearch
    ensures forall w | w in Writes(f) && w.setting == VectorSearch ::
      (w.value == "true" || w.value == "false") && (w.value == "true" <==> f.enableVectorSearch.value == "true")
  {
    var w := VectorSearchWrite(Parse(f))[0];
    assert w in Writes(f);
    forall w' | w' in Writes(f) && w'.setting == VectorSearch ensures w' == w {
      assert w' in VectorSearchWrite(Parse(f));
    }
  }

  /** A dimension is written only when it is one of the four supported sizes. */
  lemma DimensionSupported(f: SettingsForm, w: Write)
    requires w in Writes(f) && w.setting == VectorDimension
    ensures f.vectorDimension.Some?
    ensures IntCast(f.vectorDimension.value) in {384, 768, 1536, 3072}
  {
    assert w in DimensionWrite(Parse(f));
  }

  /** A success message appears exactly when some setting was written, and never an error. */
  lemma SuccessIffUpdated(t: Tables, user: Option<int>, f: SettingsForm)
    ensures var r := SaveSettings(t, user, f);
      && (r.1.success.Some? <==> |Writes(f)| > 0)
      && r.1.error.None?
      && (|Writes(f)| == 0 ==> r.0 == t)
      && (|Writes(f)| > 0 ==> |r.0.activity| == |t.activity| + 1)
  {
  }

  /** The form only overwrites rows that exist: the set of settings keys stays the same. */
  lemma SettingsKeysKept(t: Tables, user: Option<int>, f: SettingsForm)
    ensures SaveSettings(t, user, f).0.settings.Keys == t.settings.Keys
  {
    ApplyWritesKeepsKeys(t.settings, Writes(f));
  }

  /** UPDATEs never add or drop a settings key. */
  lemma {:induction false} ApplyWritesKeepsKeys(m: map<string, string>, ws: seq<Write>)
    ensures ApplyWrites(m, ws).Keys == m.Keys
    decreases |ws|
  {
    if |ws| > 0 {
      ApplyWritesKeepsKeys(Put(m, ws[0]), ws[1..]);
    }
  }

  // ---------------------------------------------------------------- the handler

  /** The env-var branch on the database. */
  method RunEnvAction(db: Database, user: Option<int>, f: EnvForm, callOk: bool) returns (out: Outcome)
    requires db.Valid()
    modifies db
    ensures db.Valid()
    ensures (db.Snapshot(), out) == EnvAction(old(db.Snapshot()), user, f, callOk)
  {
    if f.action == "add" {
      out := RunAdd(db, user, f, callOk);
    } else if f.action == "update" {
      out := RunUpdate(db, user, f, callOk);
    } else if f.action == "delete" {
      out := RunDelete(db, user, f, callOk);
    } else {
      out := Outcome(None, None);
    }
  }

  /** `case 'add'`. */
  method RunAdd(db: Database, user: Option<int>, f: EnvForm, callOk: bool) returns (out: Outcome)
    requires db.Valid()
    modifies db
    ensures db.Valid()
    ensures (db.Snapshot(), out) == AddEnv(old(db.Snapshot()), user, f, callOk)
  {
    var key := Sanitize(OrEmpty(f.key));
    var value := OrEmpty(f.value);
    var description := Sanitize(OrEmpty(f.description));
    if !Empty(key) && !Empty(value) {
      if EnvKeyOk(key) {
        if callOk {
          var _ := db.InsertEnvVar(Upper(key), value, description, f.sensitive);
          db.LogActivity(user, "env_var_add", "Added custom env var: " + key);
          out := Outcome(Some("Environment variable '" + key + "' added successfully!"), None);
        } else {
          out := Outcome(None, Some("Failed to add environment variable. Key may already exist."));
        }
      } else {
        out := Outcome(None, Some(BadKey));
      }
    } else {
      out := Outcome(None, Some("Key and value are required."));
    }
  }

  /** `case 'update'`. */
  method RunUpdate(db: Database, user: Option<int>, f: EnvForm, callOk: bool) returns (out: Outcome)
    requires db.Valid()
    modifies db
    ensures db.Valid()
    ensures (db.Snapshot(), out) == UpdateEnv(old(db.Snapshot()), user, f, callOk)
  {
    var id := PostedId(f.id);
    var key := Sanitize(OrEmpty(f.key));
    var value := OrEmpty(f.value);
    var description := Sanitize(OrEmpty(f.description));
    if id > 0 && !Empty(key) && !Empty(value) {
      if EnvKeyOk(key) {
        if callOk {
          db.ReplaceEnvVar(id, Upper(key), value, description, f.sensitive);
          db.LogActivity(user, "env_var_update", "Updated custom env var: " + key);
          out := Outcome(Some("Environment variable '" + key + "' updated successfully!"), None);
        } else {
          out := Outcome(None, Some("Failed to update environment variable."));
        }
      } else {
        out := Outcome(None, Some(BadKey));
      }
    } else {
      out := Outcome(None, Some("Invalid data provided for update."));
    }
  }

  /** `case 'delete'`: the key is looked up first, for the log line. */
  method RunDelete(db: Database, user: Option<int>, f: EnvForm, callOk: bool) returns (out: Outcome)
    requires db.Valid()
    modifies db
    ensures db.Valid()
    ensures (db.Snapshot(), out) == DeleteEnv(old(db.Snapshot()), user, f, callOk)
  {
    out := Outcome(None, None);
    var id := PostedId(f.id);
    if id > 0 {
      var row := FindEnvVar(db.envVars, id);
      if row.Some? && callOk {
        db.RemoveEnvVar(id);
        db.LogActivity(user, "env_var_delete", "Deleted custom env var: " + row.value.key);
        out := Outcome(Some("Environment variable '" + row.value.key + "' deleted successfully!"), None);
      } else {
        out := Outcome(None, Some("Failed to delete environment variable."));
      }
    }
  }

  /**
   * The settings branch: each accepted field issues its UPDATE and appends
   * its caption to `$updates`, then a non-empty list is logged.
   */
  method RunSaveSettings(db: Database, user: Option<int>, f: SettingsForm) returns (out: Outcome)
    modifies db
    ensures db.Valid() == old(db.Valid())
    ensures (db.Snapshot(), out) == SaveSettings(old(db.Snapshot()), user, f)
  {
    ghost var t0 := db.Snapshot();
    var p := Parse(f);
    assert Tracked(db, t0, [], []);
    var updates;
    ghost var done;
    updates, done := SaveAppName(db, p, t0, [], []);
    updates, done := SaveMaxDeployments(db, p, t0, done, updates);
    updates, done := SaveVectorSearch(db, p, t0, done, updates);
    updates, done := SaveDimension(db, p, t0, done, updates);
    assert done == WritesOf(p);
    out := Outcome(None, None);
    if |updates| > 0 {
      db.LogActivity(user, "settings_update", "Updated: " + Join(updates, ", "));
      out := Outcome(Some("Settings updated successfully!"), None);
    }
  }

  /** `if (isset($_POST['app_name']))`: the sanitised name. */
  method SaveAppName(db: Database, p: Parsed, ghost t0: Tables, ghost done: seq<Write>, updates: seq<string>)
    returns (updates': seq<string>, ghost done': seq<Write>)
    requires Tracked(db, t0, done, updates)
    modifies db
    ensures done' == done + AppNameWrite(p) && Tracked(db, t0, done', updates')
  {
    updates', done' := updates, done;
    if p.appName.Some? {
      updates', done' := Step(db, Write(AppName, p.appName.value), t0, done, updates);
    }
  }

  /** `if (isset($_POST['max_deployments']))`: only a value in 1..50 is written. */
  method SaveMaxDeployments(db: Database, p: Parsed, ghost t0: Tables, ghost done: seq<Write>, updates: seq<string>)
    returns (updates': seq<string>, ghost done': seq<Write>)
    requires Tracked(db, t0, done, updates)
    modifies db
    ensures done' == done + MaxDeploymentsWrite(p) && Tracked(db, t0, done', updates')
  {
    updates', done' := updates, done;
    if p.maxDeployments.Some? {
      var maxDep := p.maxDeployments.value;
      if 1 <= maxDep <= 50 {
        updates', done' := Step(db, Write(MaxDeployments, IntToString(maxDep)), t0, done, updates);
      }
    }
  }

  /** `if (isset($_POST['enable_vector_search']))`: "true" or "false". */
  method SaveVectorSearch(db: Database, p: Parsed, ghost t0: Tables, ghost done: seq<Write>, updates: seq<string>)
    returns (updates': seq<string>, ghost done': seq<Write>)
    requires Tracked(db, t0, done, updates)
    modifies db
    ensures done' == done + VectorSearchWrite(p) && Tracked(db, t0, done', updates')
  {
    updates', done' := updates, done;
    if p.enableVectorSearch.Some? {
      var w := Write(VectorSearch, if p.enableVectorSearch.value == "true" then "true" else "false");
      updates', done' := Step(db, w, t0, done, updates);
    }
  }

  /** `if (isset($_POST['vector_dimension']))`: only a supported dimension is written. */
  method SaveDimension(db: Database, p: Parsed, ghost t0: Tables, ghost done: seq<Write>, updates: seq<string>)
    returns (updates': seq<string>, ghost done': seq<Write>)
    requires Tracked(db, t0, done, updates)
    modifies db
    ensures done' == done + DimensionWrite(p) && Tracked(db, t0, done', updates')
  {
    updates', done' := updates, done;
    if p.vectorDimension.Some? {
      var dimension := p.vectorDimension.value;
      if dimension in Dimensions {
        updates', done' := Step(db, Write(VectorDimension, IntToString(dimension)), t0, done, updates);
      }
    }
  }

  /** The tables hold t0 with the writes issued so far, and `$updates` their captions. */
  ghost predicate Tracked(db: Database, t0: Tables, done: seq<Write>, updates: seq<string>)
    reads db
  {
    db.Snapshot() == t0.(settings := ApplyWrites(t0.settings, done)) && updates == Captions(done)
  }

  /** One `UPDATE settings SET value = ? … WHERE key = …` followed by `$updates[] = …`. */
  method Step(db: Database, w: Write, ghost t0: Tables, ghost done: seq<Write>, updates: seq<string>)
    returns (updates': seq<string>, ghost done': seq<Write>)
    requires Tracked(db, t0, done, updates)
    modifies db
    ensures done' == done + [w] && Tracked(db, t0, done', updates')
  {
    ApplyWritesSnoc(t0.settings, done, w);
    db.UpdateSetting(KeyName(w.setting), w.value);
    updates', done' := updates + [Caption(w.setting)], done + [w];
  }

  /** One more write extends the writes applied so far. */
  lemma {:induction false} ApplyWritesSnoc(m: map<string, string>, ws: seq<Write>, w: Write)
    ensures ApplyWrites(m, ws + [w]) == Put(ApplyWrites(m, ws), w)
    decreases |ws|
  {
    if |ws| > 0 {
      ApplyWritesSnoc(Put(m, ws[0]), ws[1..], w);
      assert (ws + [w])[1..] == ws[1..] + [w];
    }
  }

  /** The handler. */
  method HandleSettingsPost(db: Database, user: Option<int>, p: Post, callOk: bool)
    returns (out: Outcome)
    requires db.Valid()
    modifies db
    ensures db.Valid()
    ensures (db.Snapshot(), out) == HandlePost(old(db.Snapshot()), user, p, callOk)
  {
    match p
    case EnvPost(e) =>
      out := RunEnvAction(db, user, e, callOk);
    case SettingsPost(s) =>
      out := RunSaveSettings(db, user, s);
      assert db.Valid();
  }
}
