/**
 * Step 8 of the deployment worker: the text of `custom-env.php`, of
 * `auto-include.php`, the rewrite of the application's `index.php`, and the
 * whole step as a transformer of the application directory.
 */
module EnvInjector {
  import opened Wrappers
  import opened Text
  import opened Php
  import opened Records
  import opened Workspaces

  const EnvFileName := "custom-env.php"
  const IncludeFileName := "auto-include.php"
  const IndexFileName := "index.php"

  const EnvHeader :=
    "<?php\n"
    + "/**\n"
    + " * Custom Environment Variables\n"
    + " * Auto-generated during deployment\n"
    + " * DO NOT EDIT MANUALLY\n"
    + " */\n\n"

  /** The text up to the opening quote of the `$_ENV` value. */
  function EnvAssignPrefix(key: string): string
  {
    "// " + key + "\n" + "$_ENV['" + key + "'] = '"
  }

  /** The text that closes the `$_ENV` line and opens the `putenv` literal. */
  const PutenvOpen := ";\nputenv('"

  /** What follows the closing quote of the `putenv` literal. */
  const PutenvClose := ");\n\n"

  /** The `putenv` line after the `$_ENV` literal, and the blank line. */
  function PutenvLine(v: EnvVar): string
  {
    PutenvOpen + (v.key + "=") + (AddSlashes(v.value) + "'" + PutenvClose)
  }

  /** What the loop body adds for one variable. */
  function VarBlock(v: EnvVar): string
  {
    EnvAssignPrefix(v.key) + AddSlashes(v.value) + "'" + PutenvLine(v)
  }

  /** The blocks of all variables, in the order they are given. */
  function Blocks(vars: seq<EnvVar>): string
  {
    ConcatMap(vars, VarBlock)
  }

  function EnvFileText(vars: seq<EnvVar>): string
  {
    EnvHeader + Blocks(vars) + "?>\n"
  }

  /**
   * Variables are emitted in the order they are given: the blocks are those
   * before vars[i], the block of vars[i], then those after it.
   */
  lemma EmittedInOrder(vars: seq<EnvVar>, i: int)
    requires 0 <= i < |vars|
    ensures Blocks(vars) == Blocks(vars[..i]) + VarBlock(vars[i]) + Blocks(vars[i + 1..])
  {
    assert vars == vars[..i] + [vars[i]] + vars[i + 1..];
    ConcatMapAppend(vars[..i] + [vars[i]], vars[i + 1..], VarBlock);
    ConcatMapAppend(vars[..i], [vars[i]], VarBlock);
    assert [vars[i]][..0] == [];
  }

  /** One more variable adds its block at the end. */
  lemma BlocksSnoc(vars: seq<EnvVar>, i: int)
    requires 0 <= i < |vars|
    ensures Blocks(vars[..i + 1]) == Blocks(vars[..i]) + VarBlock(vars[i])
  {
    assert vars[..i + 1][..i] == vars[..i];
  }

  /**
   * The `foreach` of createCustomEnvFile: the content grows by one block per
   * variable, then the closing tag.
   */
  method BuildEnvFile(vars: seq<EnvVar>) returns (content: string)
    ensures content == EnvFileText(vars)
  {
    content := EnvHeader;
    var i := 0;
    while i < |vars|
      invariant 0 <= i <= |vars|
      invariant content == EnvHeader + Blocks(vars[..i])
    {
      BlocksSnoc(vars, i);
      content := content + VarBlock(vars[i]);
      i := i + 1;
    }
    assert vars[..i] == vars;
    content := content + "?>\n";
  }

  /**
   * The `$_ENV` literal of a block is closed by the quote the generator
   * writes, and evaluates to ReadBack(value): addslashes keeps every quote
   * and backslash of the value inside the literal.
   */
  lemma EnvAssignReadsBack(v: EnvVar)
    ensures ReadQuoted(VarBlock(v)[|EnvAssignPrefix(v.key)|..])
      == Some((ReadBack(v.value), |AddSlashes(v.value)| + 1))
  {
    SliceAfterFirst(EnvAssignPrefix(v.key), AddSlashes(v.value), "'", PutenvLine(v));
    AddSlashesStaysQuoted(v.value, PutenvLine(v));
  }

  /**
   * In `pre a ' open p z`, the text after `open` is read through the plain
   * `p` into the literal body z.
   */
  lemma ReadAfterOpen(pre: string, a: string, open: string, p: string, z: string, value: string, n: nat)
    requires PlainInQuotes(p) && ReadQuoted(z) == Some((value, n))
    ensures ReadQuoted((pre + a + "'" + (open + p + z))[|pre| + |a| + 1 + |open|..]) == Some((p + value, |p| + n))
  {
    var x := pre + a + "'";
    SliceInto(x, open + p + z, |open|);
    SliceAfter(open, p, z);
    ReadQuotedPlain(p, z, value, n);
  }

  /**
   * The `putenv` literal of a block evaluates to `KEY=` followed by
   * ReadBack(value) for a key without quotes or backslashes (every key the
   * settings form accepts).
   */
  lemma PutenvReadsBack(v: EnvVar)
    requires PlainInQuotes(v.key + "=")
    ensures ReadQuoted(VarBlock(v)[|EnvAssignPrefix(v.key)| + |AddSlashes(v.value)| + 1 + |PutenvOpen|..])
      == Some((v.key + "=" + ReadBack(v.value), |v.key| + 1 + |AddSlashes(v.value)| + 1))
  {
    var a := AddSlashes(v.value);
    AddSlashesStaysQuoted(v.value, PutenvClose);
    ReadAfterOpen(EnvAssignPrefix(v.key), a, PutenvOpen, v.key + "=", a + "'" + PutenvClose, ReadBack(v.value), |a| + 1);
    VarBlockShape(v);
  }

  /** A block laid out as the `$_ENV` line, `putenv('`, `KEY=` and the putenv literal body. */
  lemma VarBlockShape(v: EnvVar)
    ensures VarBlock(v) == EnvAssignPrefix(v.key) + AddSlashes(v.value) + "'"
      + (PutenvOpen + (v.key + "=") + (AddSlashes(v.value) + "'" + PutenvClose))
  {
  }

  // ---------------------------------------------------------------- ORDER BY var_key

  /** Byte-wise lexicographic order on keys. */
  predicate KeyLe(a: string, b: string)
    decreases |a|
  {
    |a| == 0 || (|b| > 0 && (a[0] < b[0] || (a[0] == b[0] && KeyLe(a[1..], b[1..]))))
  }

  lemma {:induction false} KeyLeTotal(a: string, b: string)
    ensures KeyLe(a, b) || KeyLe(b, a)
    decreases |a|
  {
    if |a| > 0 && |b| > 0 && a[0] == b[0] {
      KeyLeTotal(a[1..], b[1..]);
    }
  }

  lemma {:induction false} KeyLeTrans(a: string, b: string, c: string)
    requires KeyLe(a, b) && KeyLe(b, c)
    ensures KeyLe(a, c)
    decreases |a|
  {
    if |a| > 0 && a[0] == b[0] && b[0] == c[0] {
      KeyLeTrans(a[1..], b[1..], c[1..]);
    }
  }

  predicate SortedByKey(vs: seq<EnvVar>)
  {
    forall i, j :: 0 <= i < j < |vs| ==> KeyLe(vs[i].key, vs[j].key)
  }

  /** A row no greater than every row of a sorted list can go in front of it. */
  lemma SortedCons(x: EnvVar, vs: seq<EnvVar>)
    requires SortedByKey(vs) && forall j | 0 <= j < |vs| :: KeyLe(x.key, vs[j].key)
    ensures SortedByKey([x] + vs)
  {
    forall i, j | 0 <= i < j < |[x] + vs| ensures KeyLe(([x] + vs)[i].key, ([x] + vs)[j].key) {
      if i > 0 {
        assert ([x] + vs)[i] == vs[i - 1];
      }
      assert ([x] + vs)[j] == vs[j - 1];
    }
  }

  /** The head of a sorted list bounds every row of the list and of v, when v sorts after it. */
  lemma HeadBoundsInsert(v: EnvVar, vs: seq<EnvVar>, tail: seq<EnvVar>)
    requires SortedByKey(vs) && |vs| > 0 && !KeyLe(v.key, vs[0].key)
    requires multiset(tail) == multiset(vs[1..]) + multiset{v}
    ensures forall j | 0 <= j < |tail| :: KeyLe(vs[0].key, tail[j].key)
  {
    KeyLeTotal(v.key, vs[0].key);
    forall j | 0 <= j < |tail| ensures KeyLe(vs[0].key, tail[j].key) {
      assert tail[j] in multiset(tail);
      if tail[j] != v {
        assert tail[j] in multiset(vs[1..]);
        var k :| 0 <= k < |vs[1..]| && vs[1..][k] == tail[j];
        assert vs[k + 1] == tail[j];
      }
    }
  }

  function Insert(v: EnvVar, vs: seq<EnvVar>): (r: seq<EnvVar>)
    requires SortedByKey(vs)
    ensures SortedByKey(r)
    ensures multiset(r) == multiset(vs) + multiset{v}
    decreases |vs|
  {
    if |vs| == 0 then [v]
    else if KeyLe(v.key, vs[0].key) then
      assert forall j | 0 < j < |vs| :: KeyLe(v.key, vs[j].key) by {
        forall j | 0 < j < |vs| ensures KeyLe(v.key, vs[j].key) {
          KeyLeTrans(v.key, vs[0].key, vs[j].key);
        }
      }
      SortedCons(v, vs);
      [v] + vs
    else
      assert SortedByKey(vs[1..]);
      var tail := Insert(v, vs[1..]);
      HeadBoundsInsert(v, vs, tail);
      SortedCons(vs[0], tail);
      assert vs == [vs[0]] + vs[1..];
      [vs[0]] + tail
  }

  /**
   * `SELECT var_key, var_value FROM custom_env_vars ORDER BY var_key`: the
   * rows sorted by key, same rows.
   */
  function OrderByKey(vs: seq<EnvVar>): (r: seq<EnvVar>)
    ensures SortedByKey(r)
    ensures multiset(r) == multiset(vs)
    decreases |vs|
  {
    if |vs| == 0 then []
    else
      assert vs == vs[..|vs| - 1] + [vs[|vs| - 1]];
      Insert(vs[|vs| - 1], OrderByKey(vs[..|vs| - 1]))
  }

  // ---------------------------------------------------------------- auto-include.php

  /** `auto-include.php`: loads custom-env.php and sets the application context. */
  function AutoIncludeText(name: string, appId: int, dir: string): string
  {
    "<?php\n"
    + "/**\n"
    + " * Auto-include for deployed applications\n"
    + " * Include this at the top" + " of your application's index.php\n"
    + " */\n\n"
    + "// Load custom environment variables\n"
    + "if (file_exists(" + "__DIR__ . '/custom-env.php')) {\n"
    + "    require_once " + "__DIR__ . '/custom-env.php';\n"
    + "}\n\n"
    + "// Set application context\n"
    + "$_ENV['APP_NAME'] = '" + AddSlashes(name) + "';\n"
    + "$_ENV['APP_ID'] = '" + IntToString(appId) + "';\n"
    + "$_ENV['APP_DIRECTORY'] = '" + AddSlashes(dir) + "';\n"
    + "putenv('APP_NAME=" + AddSlashes(name) + "');\n"
    + "putenv('APP_ID=" + IntToString(appId) + "');\n"
    + "putenv('APP_DIRECTORY=" + AddSlashes(dir) + "');\n\n"
    + "?>\n"
  }

  // ---------------------------------------------------------------- index.php

  /** The statement inserted after the opening tag. */
  const IncludeStatement := IncludeLead + IncludeFileName + "';\n"

  const IncludeLead := "\n// Auto-include custom environment variables\nrequire_once __DIR__ . '/"

  /** What every rewritten entry point starts with. */
  const IncludeHead := "<?php" + IncludeStatement

  /**
   * The rewrite of `index.php`: None when the text already mentions
   * auto-include.php (the file is left as it is); otherwise the require is
   * appended to every `<?php` when the file starts with one, and a
   * `<?php … ?>` block is put in front of it when it does not.
   */
  function RewriteIndex(content: string): Option<string>
  {
    if Contains(content, IncludeFileName) then None
    else if StartsWith(content, "<?php") then Some(ReplaceAll(content, "<?php", IncludeHead))
    else Some(IncludeHead + "\n?>" + content)
  }

  lemma IncludeHeadMentionsMarker()
    ensures Contains(IncludeHead, IncludeFileName)
  {
    ContainsMiddle(IncludeLead, IncludeFileName, "';\n");
    ContainsAfter("<?php", IncludeStatement, IncludeFileName);
  }

  /** A rewritten entry point starts with the require block. */
  lemma RewriteStartsWithInclude(content: string)
    requires RewriteIndex(content).Some?
    ensures StartsWith(RewriteIndex(content).value, IncludeHead)
  {
    var r := RewriteIndex(content).value;
    if StartsWith(content, "<?php") {
      assert content[..|"<?php"|] == "<?php";
      assert r == IncludeHead + ReplaceAll(content[5..], "<?php", IncludeHead);
    }
    assert r[..|IncludeHead|] == IncludeHead;
  }

  /** A rewritten entry point is never rewritten again: the rewrite is idempotent. */
  lemma RewriteIdempotent(content: string)
    requires RewriteIndex(content).Some?
    ensures RewriteIndex(RewriteIndex(content).value) == None
  {
    var r := RewriteIndex(content).value;
    RewriteStartsWithInclude(content);
    IncludeHeadMentionsMarker();
    ContainsFromPrefix(r, IncludeHead, IncludeFileName);
  }

  /** Without an opening tag the original text is kept, after the new block. */
  lemma RewriteKeepsPlainText(content: string)
    requires !Contains(content, IncludeFileName) && !StartsWith(content, "<?php")
    ensures EndsWith(RewriteIndex(content).value, content)
  {
    var r := RewriteIndex(content).value;
    assert r[|r| - |content|..] == content;
  }

  /**
   * str_replace reaches every opening tag: of a text that starts with
   * `<?php`, the first tag and the next one after plain text both get the
   * require, and the rest of the text is rewritten the same way.
   */
  lemma RewriteEveryOpeningTag(x: string, y: string)
    requires forall i | 0 <= i < |x| :: x[i] != '<'
    requires !Contains("<?php" + x + "<?php" + y, IncludeFileName)
    ensures RewriteIndex("<?php" + x + "<?php" + y) == Some(IncludeHead + x + IncludeHead + ReplaceAll(y, "<?php", IncludeHead))
  {
    var c := "<?php" + x + "<?php" + y;
    var t := "<?php" + y;
    assert c[..5] == "<?php" && StartsWith(c, "<?php");
    assert c[5..] == x + t;
    assert ReplaceAll(c, "<?php", IncludeHead) == IncludeHead + ReplaceAll(x + t, "<?php", IncludeHead);
    assert "<?php"[0] == '<';
    ReplaceAllSkips(x, t, "<?php", IncludeHead);
    assert t[..5] == "<?php" && t[5..] == y;
    assert ReplaceAll(t, "<?php", IncludeHead) == IncludeHead + ReplaceAll(y, "<?php", IncludeHead);
    var r := ReplaceAll(y, "<?php", IncludeHead);
    assert ReplaceAll(c, "<?php", IncludeHead) == IncludeHead + (x + (IncludeHead + r));
    assert IncludeHead + (x + (IncludeHead + r)) == IncludeHead + x + IncludeHead + r;
  }


  // ---------------------------------------------------------------- the step

  /** The result of the `custom_env_vars` query. */
  datatype EnvQuery = Rows(vars: seq<EnvVar>) | QueryError(message: string)

  /**
   * The index rewrite and its log line, applied to the directory. Nothing
   * happens without an `index.php`; a directory of that name reads as ""
   * and cannot be written, so only the log line is added.
   */
  function UpdateIndex(ws: Workspace): Workspace
  {
    if IndexFileName !in ws then ws
    else
      match RewriteIndex(ReadFile(ws, IndexFileName))
      case Some(t) => Append(WriteFile(ws, IndexFileName, t), "Updated index.php to auto-load custom environment variables.\n")
      case None => Append(ws, "index.php already includes auto-include.php.\n")
  }

  /** The two generated files and their log lines. */
  function WriteBootstrap(ws: Workspace, vars: seq<EnvVar>, name: string, appId: int, dir: string): (r: Workspace)
    ensures forall n | n != LogName && n != EnvFileName && n != IncludeFileName ::
      (n in r <==> n in ws) && (n in ws ==> r[n] == ws[n])
  {
    var w1 := Append(WriteFile(ws, EnvFileName, EnvFileText(vars)),
                     "Created custom environment file with " + NatToString(|vars|) + " variables.\n");
    Append(WriteFile(w1, IncludeFileName, AutoIncludeText(name, appId, dir)),
           "Created auto-include file for easy integration.\n")
  }

  /**
   * createCustomEnvFile as a transformer of the directory. A failed query
   * is only logged; with no variables nothing but a log line is written.
   */
  function Inject(ws: Workspace, q: EnvQuery, name: string, appId: int, dir: string): Workspace
  {
    match q
    case QueryError(m) => Append(ws, "Error creating custom environment file: " + m + "\n")
    case Rows(vars) => InjectRows(ws, vars, name, appId, dir)
  }

  /** createCustomEnvFile once the rows were read. */
  function InjectRows(ws: Workspace, vars: seq<EnvVar>, name: string, appId: int, dir: string): Workspace
  {
    if |vars| == 0 then Append(ws, "No custom environment variables defined.\n")
    else UpdateIndex(WriteBootstrap(ws, vars, name, appId, dir))
  }

  /** Only the log changes when the query fails or there are no variables. */
  lemma InjectOnlyLogs(ws: Workspace, q: EnvQuery, name: string, appId: int, dir: string)
    requires q.QueryError? || q.vars == []
    ensures forall n | n != LogName :: (n in Inject(ws, q, name, appId, dir) <==> n in ws)
    ensures forall n | n != LogName && n in ws :: Inject(ws, q, name, appId, dir)[n] == ws[n]
  {
  }

  /** The index rewrite replaces the entry point by its rewrite, or keeps it. */
  lemma UpdateIndexOf(w: Workspace)
    requires IndexFileName in w && w[IndexFileName].File?
    ensures var r := UpdateIndex(w);
      && IndexFileName in r
      && r[IndexFileName] == (match RewriteIndex(w[IndexFileName].text)
                              case Some(t) => File(t)
                              case None => w[IndexFileName])
  {
    assert IndexFileName != LogName;
  }

  /** The entry point after one injection: rewritten when the rewrite applies, kept otherwise. */
  lemma InjectIndex(ws: Workspace, vars: seq<EnvVar>, name: string, appId: int, dir: string)
    requires |vars| > 0 && IndexFileName in ws && ws[IndexFileName].File?
    ensures var r := Inject(ws, Rows(vars), name, appId, dir);
      && IndexFileName in r
      && r[IndexFileName] == (match RewriteIndex(ws[IndexFileName].text)
                              case Some(t) => File(t)
                              case None => ws[IndexFileName])
  {
    assert IndexFileName != LogName && IndexFileName != EnvFileName && IndexFileName != IncludeFileName;
    var w := WriteBootstrap(ws, vars, name, appId, dir);
    assert w[IndexFileName] == ws[IndexFileName];
    UpdateIndexOf(w);
  }

  /** An entry point that already loads auto-include.php is left as it is. */
  lemma InjectKeepsIncludedIndex(ws: Workspace, vars: seq<EnvVar>, name: string, appId: int, dir: string)
    requires |vars| > 0 && IndexFileName in ws && ws[IndexFileName].File?
    requires Contains(ws[IndexFileName].text, IncludeFileName)
    ensures var r := Inject(ws, Rows(vars), name, appId, dir);
      IndexFileName in r && r[IndexFileName] == ws[IndexFileName]
  {
    InjectIndex(ws, vars, name, appId, dir);
  }

  /** Injecting twice does not add a second require to the entry point. */
  lemma InjectTwiceSameIndex(ws: Workspace, vars: seq<EnvVar>, name: string, appId: int, dir: string)
    requires |vars| > 0 && IndexFileName in ws && ws[IndexFileName].File?
    ensures var once := Inject(ws, Rows(vars), name, appId, dir);
      var twice := Inject(once, Rows(vars), name, appId, dir);
      IndexFileName in once && IndexFileName in twice && twice[IndexFileName] == once[IndexFileName]
  {
    var once := Inject(ws, Rows(vars), name, appId, dir);
    InjectIndex(ws, vars, name, appId, dir);
    var t := ws[IndexFileName].text;
    if RewriteIndex(t).Some? {
      RewriteIdempotent(t);
    }
    InjectIndex(once, vars, name, appId, dir);
  }
}
