/**
 * The chat bot webhook, connetor.php: `loadEnv` reads `/app/data/.env` into
 * the process environment, `$_ENV` and `$_SERVER`; `getLLMResponse`
 * assembles the chat-completion request and extracts the reply; the script
 * answers only signed messages that mention the bot.
 */
module Connector {
  import opened Wrappers
  import opened Text
  import opened Php

  // ---------------------------------------------------------------- splitting text

  /** `explode($c, $s)`: the pieces between the occurrences of c. */
  function Explode(s: string, c: char): (r: seq<string>)
    ensures |r| > 0
    ensures forall i | 0 <= i < |r| :: c !in r[i]
    decreases |s|
  {
    if |s| == 0 then [""]
    else
      var rest := Explode(s[1..], c);
      if s[0] == c then [""] + rest else [[s[0]] + rest[0]] + rest[1..]
  }

  lemma JoinHead(x: string, ys: seq<string>, sep: string)
    requires |ys| > 0
    ensures Join([x + ys[0]] + ys[1..], sep) == x + Join(ys, sep)
  {
    var zs := [x + ys[0]] + ys[1..];
    assert zs[1..] == ys[1..];
  }

  /** Joining the pieces with the separator gives the text back. */
  lemma {:induction false} ExplodeJoin(s: string, c: char)
    ensures Join(Explode(s, c), [c]) == s
    decreases |s|
  {
    if |s| > 0 {
      var rest := Explode(s[1..], c);
      ExplodeJoin(s[1..], c);
      if s[0] == c {
        assert ([""] + rest)[1..] == rest;
        assert s == [c] + s[1..];
      } else {
        JoinHead([s[0]], rest, [c]);
        assert s == [s[0]] + s[1..];
      }
    }
  }

  /** `explode($c, $s, 2)` when it yields two parts: the text before and after the first c. */
  function SplitFirst(s: string, c: char): (r: Option<(string, string)>)
    ensures r.Some? ==> c !in r.value.0 && s == r.value.0 + [c] + r.value.1
    ensures r.None? <==> c !in s
    decreases |s|
  {
    if |s| == 0 then None
    else if s[0] == c then Some(("", s[1..]))
    else match SplitFirst(s[1..], c)
      case None => None
      case Some((before, after)) => Some(([s[0]] + before, after))
  }

  /** The split is at the first c: what follows may contain c again. */
  lemma {:induction false} SplitFirstOf(k: string, c: char, v: string)
    requires c !in k
    ensures SplitFirst(k + [c] + v, c) == Some((k, v))
    decreases |k|
  {
    if |k| == 0 {
      assert k + [c] + v == [c] + v;
    } else {
      assert (k + [c] + v)[1..] == k[1..] + [c] + v;
      SplitFirstOf(k[1..], c, v);
      assert [k[0]] + k[1..] == k;
    }
  }

  /** One line less a final carriage return. */
  function DropCr(l: string): string
  {
    if |l| > 0 && l[|l| - 1] == '\r' then l[..|l| - 1] else l
  }

  function NonEmptyLines(ls: seq<string>): (r: seq<string>)
    ensures forall i | 0 <= i < |r| :: r[i] != ""
    decreases |ls|
  {
    if |ls| == 0 then []
    else if DropCr(ls[0]) == "" then NonEmptyLines(ls[1..])
    else [DropCr(ls[0])] + NonEmptyLines(ls[1..])
  }

  /**
   * `file($path, FILE_IGNORE_NEW_LINES | FILE_SKIP_EMPTY_LINES)`: the lines
   * of the text without their line ends, empty lines left out.
   */
  function FileLines(text: string): (r: seq<string>)
    ensures forall i | 0 <= i < |r| :: r[i] != "" && '\n' !in r[i]
  {
    var r := NonEmptyLines(Explode(text, '\n'));
    assert forall i | 0 <= i < |r| :: '\n' !in r[i] by {
      NoNewlineKept(Explode(text, '\n'));
    }
    r
  }

  lemma {:induction false} NoNewlineKept(ls: seq<string>)
    requires forall i | 0 <= i < |ls| :: '\n' !in ls[i]
    ensures forall i | 0 <= i < |NonEmptyLines(ls)| :: '\n' !in NonEmptyLines(ls)[i]
    decreases |ls|
  {
    if |ls| > 0 {
      NoNewlineKept(ls[1..]);
      var l := ls[0];
      if |l| > 0 && l[|l| - 1] == '\r' {
        assert forall j | 0 <= j < |l| - 1 :: l[..|l| - 1][j] == l[j];
      }
    }
  }

  // ---------------------------------------------------------------- loadEnv

  /** What one line of `.env` does. */
  datatype LineEffect = Skip | Assign(key: string, value: string)

  /** The quote characters `trim($value, "\"'")` strips. */
  const Quotes: set<char> := {'"', '\''}

  /**
   * A comment (first non-blank character `#`) or a line without `=` is
   * skipped; otherwise the line is split at its first `=`, both sides
   * trimmed and quotes stripped from the ends of the value.
   */
  function ParseLine(line: string): LineEffect
  {
    if StartsWith(TrimWs(line), "#") then Skip
    else match SplitFirst(line, '=')
      case None => Skip
      case Some((k, v)) => Assign(TrimWs(k), Trim(TrimWs(v), Quotes))
  }

  lemma CommentSkipped(line: string)
    requires |TrimWs(line)| > 0 && TrimWs(line)[0] == '#'
    ensures ParseLine(line) == Skip
  {
    assert TrimWs(line)[..1] == "#";
  }

  lemma NoEqualsSkipped(line: string)
    requires '=' !in line
    ensures ParseLine(line) == Skip
  {
  }

  /**
   * A key without `=` keeps everything after the first `=` as its value,
   * `=` included: `A=b=c` sets A to `b=c`.
   */
  lemma ValueKeepsEquals(k: string, v: string)
    requires '=' !in k && !StartsWith(TrimWs(k + "=" + v), "#")
    ensures ParseLine(k + "=" + v) == Assign(TrimWs(k), Trim(TrimWs(v), Quotes))
  {
    SplitFirstOf(k, '=', v);
    assert k + ['='] + v == k + "=" + v;
  }

  /** trim() leaves no character of its list at either end. */
  lemma TrimEnds(s: string, cs: set<char>)
    ensures var r := Trim(s, cs); |r| > 0 ==> r[0] !in cs && r[|r| - 1] !in cs
  {
    var t := TrimLeft(s, cs);
    var r := TrimRight(t, cs);
    assert r == t[..|r|];
    if |r| > 0 {
      assert r[0] == t[0];
    }
  }

  /** trim() adds no character. */
  lemma TrimWithin(s: string, cs: set<char>, c: char)
    requires c !in s
    ensures c !in Trim(s, cs)
  {
    var t := TrimLeft(s, cs);
    var r := TrimRight(t, cs);
    assert r == t[..|r|];
    assert forall j | 0 <= j < |t| :: t[j] == s[|s| - |t| + j];
  }

  /** A stored key holds no `=`; a stored value neither starts nor ends with a quote. */
  lemma AssignShape(line: string)
    requires ParseLine(line).Assign?
    ensures var a := ParseLine(line);
      && '=' !in a.key
      && (|a.value| > 0 ==> a.value[0] !in Quotes && a.value[|a.value| - 1] !in Quotes)
  {
    var split := SplitFirst(line, '=');
    assert split.Some?;
    var k, v := split.value.0, split.value.1;
    assert ParseLine(line) == Assign(TrimWs(k), Trim(TrimWs(v), Quotes));
    TrimWithin(k, TrimSpace, '=');
    TrimEnds(TrimWs(v), Quotes);
  }

  /** The effects of the lines, in order. */
  function Effects(ls: seq<string>): (r: seq<LineEffect>)
    ensures |r| == |ls| && forall i | 0 <= i < |ls| :: r[i] == ParseLine(ls[i])
  {
    seq(|ls|, i requires 0 <= i < |ls| => ParseLine(ls[i]))
  }

  /**
   * The effects applied in order to one of the three tables. A line with an
   * empty key makes `putenv("=…")` raise a ValueError, which ends the
   * script: the result is then false and later lines are not applied.
   */
  function Load(m: map<string, string>, es: seq<LineEffect>): (r: (map<string, string>, bool))
    decreases |es|
  {
    if |es| == 0 then (m, true)
    else
      var (before, ok) := Load(m, es[..|es| - 1]);
      if !ok then (before, false)
      else match es[|es| - 1]
        case Skip => (before, true)
        case Assign(k, v) => if k == "" then (before, false) else (before[k := v], true)
  }

  /** A later line for the same key overrides an earlier one: the last assignment wins. */
  lemma {:induction false} LastLineWins(m: map<string, string>, es: seq<LineEffect>, i: nat)
    requires Load(m, es).1 && i < |es| && es[i].Assign?
    requires forall j | i < j < |es| :: !(es[j].Assign? && es[j].key == es[i].key)
    ensures es[i].key in Load(m, es).0 && Load(m, es).0[es[i].key] == es[i].value
    decreases |es|
  {
    var last := |es| - 1;
    var init := es[..last];
    assert Load(m, init).1;
    if i < last {
      assert forall j | i < j < |init| :: init[j] == es[j];
      LastLineWins(m, init, i);
    }
  }

  /** A key no line assigns keeps its earlier value, or stays absent. */
  lemma {:induction false} UnassignedKept(m: map<string, string>, es: seq<LineEffect>, k: string)
    requires forall j | 0 <= j < |es| :: !(es[j].Assign? && es[j].key == k)
    ensures k in Load(m, es).0 <==> k in m
    ensures k in m ==> Load(m, es).0[k] == m[k]
    decreases |es|
  {
    if |es| > 0 {
      var init := es[..|es| - 1];
      assert forall j | 0 <= j < |init| :: init[j] == es[j];
      UnassignedKept(m, init, k);
    }
  }

  /** The process environment (`putenv`/`getenv`), `$_ENV` and `$_SERVER`. */
  class Environment {
    var vars: map<string, string>
    var env: map<string, string>
    var server: map<string, string>

    constructor(vars: map<string, string>, server: map<string, string>)
      ensures this.vars == vars && this.env == map[] && this.server == server
    {
      this.vars := vars;
      this.env := map[];
      this.server := server;
    }

    /** `putenv("$key=$value"); $_ENV[$key] = $value; $_SERVER[$key] = $value;` */
    method Set(key: string, value: string)
      modifies this
      ensures vars == old(vars)[key := value] && env == old(env)[key := value]
      ensures server == old(server)[key := value]
    {
      vars := vars[key := value];
      env := env[key := value];
      server := server[key := value];
    }
  }

  datatype LoadResult = Loaded | FileMissing | BadSetting(line: string)

  /**
   * `loadEnv($filePath)`: `text` is the file's content, None when it does
   * not exist. All three tables receive the same assignments.
   */
  method LoadEnv(e: Environment, text: Option<string>) returns (r: LoadResult)
    modifies e
    ensures text.None? ==> r == FileMissing && e.vars == old(e.vars) && e.env == old(e.env) && e.server == old(e.server)
    ensures text.Some? ==>
      var es := Effects(FileLines(text.value));
      && e.vars == Load(old(e.vars), es).0
      && e.env == Load(old(e.env), es).0
      && e.server == Load(old(e.server), es).0
      && (r.Loaded? <==> Load(old(e.vars), es).1)
      && r != FileMissing
  {
    if text.None? {
      return FileMissing;
    }
    var lines := FileLines(text.value);
    ghost var es := Effects(lines);
    var i := 0;
    ghost var vars0, env0, server0 := e.vars, e.env, e.server;
    while i < |lines|
      invariant 0 <= i <= |lines| && |es| == |lines|
      invariant Tracked(e, vars0, env0, server0, es[..i])
    {
      var effect := ParseLine(lines[i]);
      assert effect == es[i];
      if effect.Assign? && effect.key == "" {
        BadLineEnds(e, vars0, env0, server0, es, i);
        return BadSetting(lines[i]);
      }
      Apply(e, effect, vars0, env0, server0, es[..i]);
      PrefixSnoc(es, i);
      i := i + 1;
    }
    assert es[..i] == es;
    return Loaded;
  }

  lemma PrefixSnoc<T>(xs: seq<T>, i: nat)
    requires i < |xs|
    ensures xs[..i + 1] == xs[..i] + [xs[i]] && xs[..i + 1][..i] == xs[..i]
  {
  }

  /** One line's assignment, made to all three tables. */
  method Apply(e: Environment, effect: LineEffect, ghost vars: map<string, string>, ghost env: map<string, string>,
               ghost server: map<string, string>, ghost es: seq<LineEffect>)
    requires Tracked(e, vars, env, server, es) && !(effect.Assign? && effect.key == "")
    modifies e
    ensures Tracked(e, vars, env, server, es + [effect])
  {
    assert (es + [effect])[..|es|] == es;
    if effect.Assign? {
      e.Set(effect.key, effect.value);
    }
  }

  /** The three tables are the old ones with the effects applied, and no line has ended the script. */
  ghost predicate Tracked(e: Environment, vars: map<string, string>, env: map<string, string>,
                          server: map<string, string>, es: seq<LineEffect>)
    reads e
  {
    && e.vars == Load(vars, es).0 && Load(vars, es).1
    && e.env == Load(env, es).0 && Load(env, es).1
    && e.server == Load(server, es).0 && Load(server, es).1
  }

  /** Once a line has ended the script, later lines change nothing. */
  lemma {:induction false} BadStaysBad(m: map<string, string>, es: seq<LineEffect>, n: nat)
    requires n <= |es| && !Load(m, es[..n]).1
    ensures Load(m, es) == Load(m, es[..n])
    decreases |es| - n
  {
    if n < |es| {
      assert es[..n + 1][..n] == es[..n];
      BadStaysBad(m, es, n + 1);
    } else {
      assert es[..n] == es;
    }
  }

  /** A line with an empty key ends the script: the tables stay as they are, and the load fails. */
  lemma BadLineEnds(e: Environment, vars: map<string, string>, env: map<string, string>,
                    server: map<string, string>, es: seq<LineEffect>, i: nat)
    requires i < |es| && es[i].Assign? && es[i].key == ""
    requires Tracked(e, vars, env, server, es[..i])
    ensures e.vars == Load(vars, es).0 && !Load(vars, es).1
    ensures e.env == Load(env, es).0 && !Load(env, es).1
    ensures e.server == Load(server, es).0 && !Load(server, es).1
  {
    PrefixSnoc(es, i);
    BadStaysBad(vars, es, i + 1);
    BadStaysBad(env, es, i + 1);
    BadStaysBad(server, es, i + 1);
  }

  /** `getenv($k)`: an unset variable is false, which concatenates as ''. */
  function GetEnv(vars: map<string, string>, k: string): string
  {
    if k in vars then vars[k] else ""
  }

  // ---------------------------------------------------------------- getLLMResponse

  /** One chat message; a missing `systemPrompt` makes the content null. */
  datatype Message = Message(role: string, content: Option<string>)

  /** The decoded LLM configuration file. */
  datatype LlmConfig = LlmConfig(systemPrompt: Option<string>, responseExamples: Option<seq<Message>>)

  /** The POST sent to the completion endpoint (the temperature is the constant 0.1). */
  datatype ApiRequest = ApiRequest(url: string, headers: seq<string>, model: string, messages: seq<Message>)

  /** What the endpoint returns: a cURL error, or `choices[0].message.content` when it is set. */
  datatype ApiAnswer = CurlFailed(error: string) | Answered(content: Option<string>)

  /** A path file_get_contents refuses with a ValueError rather than failing with false. */
  predicate PathRefused(path: string)
  {
    path == "" || '\0' in path
  }

  /** The messages: system prompt, then the examples, then the user's message. */
  function Messages(c: LlmConfig, examples: seq<Message>, user: string): (r: seq<Message>)
    ensures |r| == |examples| + 2
    ensures r[0] == Message("system", c.systemPrompt)
    ensures r[1..|r| - 1] == examples
    ensures r[|r| - 1] == Message("user", Some(user))
  {
    [Message("system", c.systemPrompt)] + examples + [Message("user", Some(user))]
  }

  function Headers(apiKey: string): seq<string>
  {
    ["Accept: application/json", "Authorization: Bearer " + apiKey, "Content-Type: application/json"]
  }

  /**
   * `getLLMResponse`: `readFile` is file_get_contents on the configuration
   * path, `decode` json_decode of it, `call` the HTTP exchange. None when
   * the script dies instead of answering: an empty path (`getenv` of an
   * unset variable is false, read as '') or one holding a NUL makes
   * file_get_contents raise a ValueError, and a configuration without a
   * `responseExamples` array makes array_merge raise a TypeError.
   */
  function LlmReply(user: string, apiKey: string, endpoint: string, model: string, configPath: string,
                    readFile: string -> Option<string>, decode: string -> Option<LlmConfig>,
                    call: ApiRequest -> ApiAnswer): (r: Option<string>)
  {
    if PathRefused(configPath) then None
    else match readFile(configPath)
    case None => Some("Error at loading llm config file.")
    case Some(text) =>
      match decode(text)
      case None => Some("error at loading llm config file.")
      case Some(c) =>
        if c.responseExamples.None? then None
        else
          match call(ApiRequest(endpoint, Headers(apiKey), model, Messages(c, c.responseExamples.value, user)))
          case CurlFailed(err) => Some("cURL-Error: " + err)
          case Answered(None) => Some("error at api answer.")
          case Answered(Some(content)) => Some(content)
  }

  /**
   * With a readable configuration the endpoint receives the system prompt,
   * the examples and the user's message, in that order, with the bearer
   * key; the reply is the answer's content, or a fixed error text.
   */
  lemma LlmReplyFromAnswer(user: string, apiKey: string, endpoint: string, model: string, configPath: string,
                           readFile: string -> Option<string>, decode: string -> Option<LlmConfig>,
                           call: ApiRequest -> ApiAnswer, c: LlmConfig)
    requires !PathRefused(configPath) && readFile(configPath).Some? && decode(readFile(configPath).value) == Some(c)
    requires c.responseExamples.Some?
    ensures var q := ApiRequest(endpoint, Headers(apiKey), model, Messages(c, c.responseExamples.value, user));
      && "Authorization: Bearer " + apiKey in q.headers
      && q.messages[0].role == "system" && q.messages[|q.messages| - 1] == Message("user", Some(user))
      && LlmReply(user, apiKey, endpoint, model, configPath, readFile, decode, call) ==
           Some(match call(q)
                case CurlFailed(err) => "cURL-Error: " + err
                case Answered(None) => "error at api answer."
                case Answered(Some(content)) => content)
  {
    var q := ApiRequest(endpoint, Headers(apiKey), model, Messages(c, c.responseExamples.value, user));
    assert q.headers[1] == "Authorization: Bearer " + apiKey;
  }

  /**
   * A configuration that cannot be read or decoded is reported without
   * calling the endpoint; an empty path, as when AI_CONFIG_FILE is unset,
   * ends the script with no reply at all.
   */
  lemma ConfigErrorsReported(user: string, apiKey: string, endpoint: string, model: string, configPath: string,
                             readFile: string -> Option<string>, decode: string -> Option<LlmConfig>,
                             call: ApiRequest -> ApiAnswer)
    ensures PathRefused(configPath) ==> LlmReply(user, apiKey, endpoint, model, configPath, readFile, decode, call).None?
    ensures !PathRefused(configPath) && readFile(configPath).None? ==>
      LlmReply(user, apiKey, endpoint, model, configPath, readFile, decode, call) == Some("Error at loading llm config file.")
    ensures !PathRefused(configPath) && readFile(configPath).Some? && decode(readFile(configPath).value).None? ==>
      LlmReply(user, apiKey, endpoint, model, configPath, readFile, decode, call) == Some("error at loading llm config file.")
  {
  }

  // ---------------------------------------------------------------- the webhook

  /** The Talk bot API address for a conversation token. */
  function ApiUrl(host: string, token: string): (u: string)
    ensures StartsWith(u, "https://") && EndsWith(u, "/message")
  {
    var u := "https://" + host + "/ocs/v2.php/apps/spreed/api/v1/bot/" + token + "/message";
    assert u[..8] == "https://";
    assert u[|u| - 8..] == "/message";
    u
  }

  datatype WebhookOutcome =
    | Unauthorized401
    | Ignored
    | Died
    | Replied(url: string, message: string, replyTo: int)

  /** The incoming webhook: the signature check's verdict, the message text, the room token and message id. */
  datatype Incoming = Incoming(signatureOk: bool, content: string, token: string, objectId: string)

  /** The script after loadEnv, over the loaded environment. */
  function Webhook(vars: map<string, string>, w: Incoming, readFile: string -> Option<string>,
                   decode: string -> Option<LlmConfig>, call: ApiRequest -> ApiAnswer): WebhookOutcome
  {
    if !w.signatureOk then Unauthorized401
    else if !ContainsNoCase(w.content, "@" + GetEnv(vars, "BOT_MENTION")) then Ignored
    else
      match LlmReply(w.content, GetEnv(vars, "AI_API_KEY"), GetEnv(vars, "AI_API_ENDPOINT"),
                     GetEnv(vars, "AI_MODEL"), GetEnv(vars, "AI_CONFIG_FILE"), readFile, decode, call)
      case None => Died
      case Some(reply) => Replied(ApiUrl(GetEnv(vars, "NC_URL"), w.token), reply, IntCast(w.objectId))
  }

  /** No reply goes out unless the signature holds and the message mentions the bot. */
  lemma ReplyNeedsMention(vars: map<string, string>, w: Incoming, readFile: string -> Option<string>,
                          decode: string -> Option<LlmConfig>, call: ApiRequest -> ApiAnswer)
    requires Webhook(vars, w, readFile, decode, call).Replied?
    ensures w.signatureOk
    ensures Contains(Lower(w.content), Lower("@" + GetEnv(vars, "BOT_MENTION")))
  {
  }

  /** The mention is found wherever it stands and in whatever letter case it was typed. */
  lemma MentionAnyCase(pre: string, typed: string, post: string, mention: string)
    requires Lower(typed) == Lower(mention)
    ensures ContainsNoCase(pre + typed + post, mention)
  {
    var s := pre + typed + post;
    var i := |pre|;
    assert Lower(s)[i..i + |typed|] == Lower(typed) by {
      forall j | 0 <= j < |typed|
        ensures Lower(s)[i..i + |typed|][j] == Lower(typed)[j]
      {
        assert s[i + j] == typed[j];
      }
    }
    assert OccursAt(Lower(s), Lower(mention), i);
  }

  /**
   * With AI_CONFIG_FILE unset, a signed message that mentions the bot ends
   * the script with no reply.
   */
  lemma UnsetConfigDies(vars: map<string, string>, w: Incoming, readFile: string -> Option<string>,
                        decode: string -> Option<LlmConfig>, call: ApiRequest -> ApiAnswer)
    requires w.signatureOk && ContainsNoCase(w.content, "@" + GetEnv(vars, "BOT_MENTION"))
    requires "AI_CONFIG_FILE" !in vars
    ensures Webhook(vars, w, readFile, decode, call) == Died
  {
  }

  /** The whole script: loadEnv on `/app/data/.env`, then the webhook. */
  method RunConnector(e: Environment, envFile: Option<string>, w: Incoming, readFile: string -> Option<string>,
                      decode: string -> Option<LlmConfig>, call: ApiRequest -> ApiAnswer)
    returns (out: WebhookOutcome)
    modifies e
    ensures envFile.None? ==> out == Died
    ensures envFile.Some? ==>
      var (vars, ok) := Load(old(e.vars), Effects(FileLines(envFile.value)));
      e.vars == vars && out == (if ok then Webhook(vars, w, readFile, decode, call) else Died)
  {
    var loaded := LoadEnv(e, envFile);
    if !loaded.Loaded? {
      return Died;
    }
    out := Webhook(e.vars, w, readFile, decode, call);
  }
}
