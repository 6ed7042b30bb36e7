/**
 * An application's directory under /app/code/apps as the deployment worker
 * sees it: a map from top-level entry name to a file or a directory, and the
 * shell steps of the worker as transformers of that map.
 */
module Workspaces {
  import opened Wrappers
  import opened Text

  datatype Entry = File(text: string) | Dir(listing: map<string, Entry>)

  type Workspace = map<string, Entry>

  const LogName := "deployment.log"
  const CloneDir := "temp"
  const HtaccessName := ".htaccess"

  /** The default rewrite rules written when the application ships none. */
  const DefaultHtaccess :=
    "RewriteEngine On\n"
    + "RewriteCond %{REQUEST_FILENAME} !-f\n"
    + "RewriteCond %{REQUEST_FILENAME} !-d\n"
    + "RewriteRule ^(.*)$ index.php [QSA,L]\n"

  /** `file_get_contents` of a top-level file, or "" when there is none. */
  function ReadFile(ws: Workspace, name: string): string
  {
    if name in ws && ws[name].File? then ws[name].text else ""
  }

  /** The deployment log of the workspace ("" when absent). */
  function LogText(ws: Workspace): string
  {
    ReadFile(ws, LogName)
  }

  /**
   * `file_put_contents($logFile, $msg, FILE_APPEND)`: creates the log when
   * missing and appends otherwise; a directory of that name cannot be
   * written and is left alone.
   */
  function Append(ws: Workspace, msg: string): (r: Workspace)
    ensures LogName in ws && ws[LogName].Dir? ==> r == ws
    ensures !(LogName in ws && ws[LogName].Dir?) ==> LogText(r) == LogText(ws) + msg
    ensures forall n | n != LogName :: (n in r <==> n in ws) && (n in ws ==> r[n] == ws[n])
  {
    if LogName in ws && ws[LogName].Dir? then ws else ws[LogName := File(LogText(ws) + msg)]
  }

  /**
   * `file_put_contents($path, $text)` on a top-level entry: creates or
   * overwrites a file; a directory of that name cannot be written and the
   * call fails without raising.
   */
  function WriteFile(ws: Workspace, name: string, text: string): (r: Workspace)
    ensures name in r
    ensures forall n | n != name :: (n in r <==> n in ws) && (n in ws ==> r[n] == ws[n])
  {
    if name in ws && ws[name].Dir? then ws else ws[name := File(text)]
  }

  predicate IsLogName(name: string)
  {
    EndsWith(name, ".log")
  }

  /**
   * `find $dir -mindepth 1 -not -name '*.log' -delete`, seen from the top
   * level: every entry is removed except those whose name ends in `.log`.
   */
  function Clean(ws: Workspace): (r: Workspace)
    ensures forall n :: n in r <==> n in ws && IsLogName(n)
    ensures forall n | n in r :: r[n] == ws[n]
  {
    map n | n in ws && IsLogName(n) :: ws[n]
  }

  /** An earlier deployment log survives the clean step. */
  lemma CleanKeepsLog(ws: Workspace)
    ensures LogText(Clean(ws)) == LogText(ws)
  {
    assert LogName[|LogName| - 4..] == ".log";
    assert IsLogName(LogName);
  }

  /**
   * `git clone … temp`: the fetched tree lands in `temp` when the clone
   * succeeds; a failed clone leaves the directory as it was.
   */
  function CloneInto(ws: Workspace, fetched: Option<Workspace>): Workspace
  {
    if fetched.Some? then ws[CloneDir := Dir(fetched.value)] else ws
  }

  /** `is_dir("$dir/temp")`. */
  predicate HasClone(ws: Workspace)
  {
    CloneDir in ws && ws[CloneDir].Dir?
  }

  /**
   * `cp -r temp/. . && rm -rf temp`: the cloned entries replace same-named
   * entries of the directory, then `temp` is removed.
   */
  function Promote(ws: Workspace): (r: Workspace)
    requires HasClone(ws)
    ensures CloneDir !in r
    ensures forall n | n != CloneDir && n in ws[CloneDir].listing :: n in r && r[n] == ws[CloneDir].listing[n]
    ensures forall n | n != CloneDir && n !in ws[CloneDir].listing :: (n in r <==> n in ws) && (n in ws ==> r[n] == ws[n])
  {
    (ws + ws[CloneDir].listing) - {CloneDir}
  }

  /**
   * The log written before the clone reaches the promoted directory intact
   * unless the repository itself holds a top-level `deployment.log`.
   */
  lemma PromoteKeepsLog(ws: Workspace)
    requires HasClone(ws) && LogName !in ws[CloneDir].listing
    ensures LogText(Promote(ws)) == LogText(ws)
  {
  }

  /** A repository that ships `deployment.log` replaces the log written so far. */
  lemma PromoteReplacesLog(ws: Workspace, shipped: string)
    requires HasClone(ws) && LogName in ws[CloneDir].listing && ws[CloneDir].listing[LogName] == File(shipped)
    ensures LogText(Promote(ws)) == shipped
  {
  }

  /** Step 7: the default `.htaccess` is written only when none exists. */
  function EnsureHtaccess(ws: Workspace): (r: Workspace)
    ensures HtaccessName in ws ==> r == ws
    ensures HtaccessName !in ws ==> ReadFile(r, HtaccessName) == DefaultHtaccess
    ensures HtaccessName !in ws ==> LogText(r) == LogText(Append(ws, "Creating default .htaccess file...\n"))
  {
    assert |HtaccessName| != |LogName|;
    if HtaccessName in ws then ws
    else WriteFile(Append(ws, "Creating default .htaccess file...\n"), HtaccessName, DefaultHtaccess)
  }
}
