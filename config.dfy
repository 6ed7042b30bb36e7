/**
 * The shared helpers of public/config/config.php: the security constants,
 * input sanitising, the validators for branch names, application
 * directories and Git URLs, the directory-name generator, the session's
 * CSRF token, the login rate limit and the relative-time label.
 */
module Config {
  import opened Wrappers
  import opened Text
  import opened Php

  const AdminSessionTimeout := 3600
  const MaxLoginAttempts := 5
  const LoginLockoutTime := 300

  /** `sanitizeInput`: trim first, then htmlspecialchars with ENT_QUOTES. */
  function Sanitize(s: string): (r: string)
    ensures HtmlDecode(r) == TrimWs(s)
    ensures forall i :: 0 <= i < |r| ==> r[i] != '<' && r[i] != '>' && r[i] != '"' && r[i] != '\''
  {
    HtmlRoundTrip(TrimWs(s));
    HtmlEscape(TrimWs(s))
  }

  /** Every character of s satisfies p. */
  predicate AllOf(s: string, p: char -> bool)
  {
    forall i | 0 <= i < |s| :: p(s[i])
  }

  // ---------------------------------------------------------------- branch names

  predicate IsBranchChar(c: char)
  {
    IsAlnum(c) || c == '/' || c == '_' || c == '-' || c == '.'
  }

  /** `validateBranchName`. */
  predicate ValidateBranchName(b: string)
  {
    && MatchesWhole(b, IsBranchChar)
    && |b| <= 100
    && !StartsWith(b, ".") && !EndsWith(b, ".")
    && !Contains(b, "..")
  }

  /**
   * A valid branch name holds no shell-special character, except that the
   * `$` anchor lets one final newline through.
   */
  lemma ValidBranchShellSafe(b: string)
    requires ValidateBranchName(b)
    ensures forall i | 0 <= i < |b| - 1 :: IsBranchChar(b[i])
    ensures |b| > 0 && (IsBranchChar(b[|b| - 1]) || b[|b| - 1] == '\n')
    ensures |b| <= 100 && b[0] != '.'
  {
    assert b[..1] != ".";
  }

  /**
   * The final newline in question: a name of at most 99 branch characters
   * that does not start with `.` and has no `..` is accepted with a newline
   * after it, even when it ends in `.`, since the newline then is the last
   * character.
   */
  lemma BranchTrailingNewline(b: string)
    requires |b| > 0 && AllOf(b, IsBranchChar) && |b| <= 99 && b[0] != '.' && !Contains(b, "..")
    ensures ValidateBranchName(b + "\n")
  {
    var s := b + "\n";
    assert forall i | 0 <= i < |s| - 1 :: s[i] == b[i];
    assert MatchesWhole(s, IsBranchChar);
    assert !StartsWith(s, ".") by { assert s[..1][0] == b[0]; }
    assert !EndsWith(s, ".") by { assert s[|s| - 1..][0] == '\n'; }
    assert !Contains(s, "..") by {
      forall i | 0 <= i <= |s| - 2 ensures !OccursAt(s, "..", i) {
        if i + 2 <= |b| {
          assert !OccursAt(b, "..", i);
          assert s[i..i + 2] == b[i..i + 2];
        } else {
          assert s[i + 1] == '\n';
          assert s[i..i + 2][1] == '\n';
        }
      }
    }
  }

  /** A valid name has no ".." and does not end in ".". */
  lemma BranchNoDoubleDot(b: string, i: int)
    requires ValidateBranchName(b) && 0 <= i < |b| - 1 && b[i] == '.'
    ensures b[i + 1] != '.' && b[|b| - 1] != '.'
  {
    assert !OccursAt(b, "..", i);
    assert b[i..i + 2] == [b[i], b[i + 1]];
    assert b[|b| - 1..] == [b[|b| - 1]];
  }

  // ---------------------------------------------------------------- directories

  predicate IsDirChar(c: char)
  {
    IsAlnum(c) || c == '-' || c == '_'
  }

  /** `isValidAppDirectory`. */
  predicate IsValidAppDirectory(d: string)
  {
    MatchesWhole(d, IsDirChar) && |d| <= 50
  }

  /** The character `preg_replace('/[^a-zA-Z0-9\-_]/', '_', …)` leaves. */
  function Underscored(c: char): char
  {
    if IsDirChar(c) then c else '_'
  }

  /** Trimming keeps a property every character has. */
  lemma TrimKeeps(s: string, cs: set<char>, p: char -> bool)
    requires AllOf(s, p)
    ensures AllOf(Trim(s, cs), p)
  {
    var left := TrimLeft(s, cs);
    assert forall i | 0 <= i < |left| :: left[i] == s[|s| - |left| + i];
    var right := TrimRight(left, cs);
    assert forall i | 0 <= i < |right| :: right[i] == left[i];
  }

  /** The name after the replacement, before trimming. */
  function Replaced(name: string): (r: string)
    ensures |r| == |name| && forall i | 0 <= i < |r| :: r[i] == Underscored(name[i])
  {
    seq(|name|, i requires 0 <= i < |name| => Underscored(name[i]))
  }

  /** The cleaned name: replaced, trimmed of `_` and lowercased. */
  function CleanName(name: string): (r: string)
    ensures forall i | 0 <= i < |r| :: IsDirChar(r[i]) && !IsUpper(r[i])
    ensures |r| > 0 ==> r[0] != '_' && r[|r| - 1] != '_'
    ensures |r| <= |name|
  {
    TrimKeeps(Replaced(name), {'_'}, IsDirChar);
    Lower(Trim(Replaced(name), {'_'}))
  }

  /** Where the cleaned name starts in the original one. */
  function CleanStart(name: string): nat
  {
    |name| - |TrimLeft(Replaced(name), {'_'})|
  }

  /**
   * Character by character: the cleaned name is a stretch of the original
   * in which each character is kept when it is a letter, digit, `-` or `_`
   * (lowercased) and becomes `_` otherwise; every character outside the
   * stretch is one that becomes `_`.
   */
  lemma CleanNameExact(name: string)
    ensures CleanStart(name) + |CleanName(name)| <= |name|
    ensures forall i | 0 <= i < |CleanName(name)| ::
      CleanName(name)[i] == LowerChar(Underscored(name[CleanStart(name) + i]))
    ensures forall j | 0 <= j < |name| && (j < CleanStart(name) || j >= CleanStart(name) + |CleanName(name)|) ::
      Underscored(name[j]) == '_'
  {
    CleanNameIsLowerTrim(name);
    CleanStretch(name, Replaced(name), CleanName(name), CleanStart(name));
    CleanOutside(name, Replaced(name), CleanName(name), CleanStart(name));
  }

  lemma CleanNameIsLowerTrim(name: string)
    ensures CleanName(name) == Lower(Trim(Replaced(name), {'_'}))
  {
  }

  /** The stretch the trim keeps, read back on the name before the replacement. */
  lemma CleanStretch(name: string, rep: string, r: string, k: nat)
    requires |rep| == |name| && forall i | 0 <= i < |rep| :: rep[i] == Underscored(name[i])
    requires k == |rep| - |TrimLeft(rep, {'_'})|
    requires r == Lower(Trim(rep, {'_'}))
    ensures k + |r| <= |name|
    ensures forall i | 0 <= i < |r| :: r[i] == LowerChar(Underscored(name[k + i]))
  {
    TrimStretch(rep, {'_'}, k, Trim(rep, {'_'}));
  }

  /** Every character of the name outside that stretch is one that becomes `_`. */
  lemma CleanOutside(name: string, rep: string, r: string, k: nat)
    requires |rep| == |name| && forall i | 0 <= i < |rep| :: rep[i] == Underscored(name[i])
    requires k == |rep| - |TrimLeft(rep, {'_'})|
    requires r == Lower(Trim(rep, {'_'}))
    ensures forall j | 0 <= j < |name| && (j < k || j >= k + |r|) :: Underscored(name[j]) == '_'
  {
    TrimStretch(rep, {'_'}, k, Trim(rep, {'_'}));
  }

  /** Trimming leaves a stretch of s; every character outside it is in cs. */
  lemma TrimStretch(s: string, cs: set<char>, k: nat, r: string)
    requires k == |s| - |TrimLeft(s, cs)| && r == Trim(s, cs)
    ensures k + |r| <= |s|
    ensures forall i | 0 <= i < |r| :: r[i] == s[k + i]
    ensures forall j | 0 <= j < k :: s[j] in cs
    ensures forall j | k + |r| <= j < |s| :: s[j] in cs
  {
    var left := TrimLeft(s, cs);
    assert left == s[k..];
    assert r == left[..|r|];
    forall i | 0 <= i < |r|
      ensures r[i] == s[k + i]
    {
      assert r[i] == left[i] == s[k + i];
    }
    forall j | k + |r| <= j < |s|
      ensures s[j] in cs
    {
      assert s[j] == left[j - k];
    }
  }

  /**
   * `generateAppDirectory`: the cleaned name, `_` and the first eight
   * characters of md5(name . time()), which is given as `digest`.
   */
  function GenerateAppDirectory(name: string, digest: string): (r: string)
    requires |digest| == 32
    ensures |r| == |CleanName(name)| + 9
    ensures r[..|r| - 9] == CleanName(name) && r[|r| - 9] == '_' && r[|r| - 8..] == digest[..8]
  {
    CleanName(name) + "_" + digest[..8]
  }

  /**
   * With an md5 digest (hex digits), a generated directory always has the
   * allowed characters, and it passes `isValidAppDirectory` exactly when the
   * cleaned name has at most 41 characters.
   */
  lemma GeneratedDirectoryValid(name: string, digest: string)
    requires |digest| == 32 && forall i | 0 <= i < |digest| :: IsDigit(digest[i]) || 'a' <= digest[i] <= 'f'
    ensures MatchesWhole(GenerateAppDirectory(name, digest), IsDirChar)
    ensures IsValidAppDirectory(GenerateAppDirectory(name, digest)) <==> |CleanName(name)| <= 41
  {
    var r := GenerateAppDirectory(name, digest);
    var c := CleanName(name);
    assert forall i | 0 <= i < |r| :: IsDirChar(r[i]) by {
      forall i | 0 <= i < |r| ensures IsDirChar(r[i]) {
        if i < |c| {
          assert r[i] == c[i];
        } else if i > |c| {
          assert r[i] == digest[i - |c| - 1];
        }
      }
    }
  }

  // ---------------------------------------------------------------- Git URLs

  predicate IsHostChar(c: char) { IsAlnum(c) || c == '-' || c == '.' }
  predicate IsSegmentChar(c: char) { IsWordChar(c) || c == '-' || c == '.' }
  predicate IsPathChar(c: char) { IsSegmentChar(c) || c == '/' }

  /**
   * The four patterns of `validateGitUrl`: three for a named host with an
   * owner and a repository segment, and the generic one. `(?:\.git)?` adds
   * nothing to either, since `.git` is made of segment characters.
   */
  datatype GitPattern = Hosted(host: string) | Generic

  const GitPatterns: seq<GitPattern> := [Hosted("github.com"), Hosted("gitlab.com"), Hosted("bitbucket.org"), Generic]

  /** The pattern matches the whole of s, up to the `$` anchor. */
  predicate BodyMatches(p: GitPattern, s: string)
  {
    match p
    case Hosted(h) =>
      && |s| > 9 + |h| && s[..9 + |h|] == "https://" + h + "/"
      && exists k | 9 + |h| < k < |s| - 1 ::
           s[k] == '/' && AllOf(s[9 + |h|..k], IsSegmentChar) && AllOf(s[k + 1..], IsSegmentChar)
    case Generic =>
      && |s| > 8 && s[..8] == "https://"
      && exists k | 8 < k < |s| - 1 ::
           s[k] == '/' && AllOf(s[8..k], IsHostChar) && AllOf(s[k + 1..], IsPathChar)
  }

  /** `preg_match`: `$` also matches before one final newline. */
  predicate PatternMatches(p: GitPattern, url: string)
  {
    || BodyMatches(p, url)
    || (|url| > 0 && url[|url| - 1] == '\n' && BodyMatches(p, url[..|url| - 1]))
  }

  predicate GitUrlValid(url: string)
  {
    exists i | 0 <= i < |GitPatterns| :: PatternMatches(GitPatterns[i], url)
  }

  /** `validateGitUrl`: the foreach over the patterns, returning on the first match. */
  method ValidateGitUrl(url: string) returns (ok: bool)
    ensures ok <==> GitUrlValid(url)
  {
    var i := 0;
    while i < |GitPatterns|
      invariant 0 <= i <= |GitPatterns|
      invariant forall j | 0 <= j < i :: !PatternMatches(GitPatterns[j], url)
    {
      if PatternMatches(GitPatterns[i], url) {
        return true;
      }
      i := i + 1;
    }
    return false;
  }

  /** The named hosts are made of host-name characters. */
  lemma NamedHostsAreHostNames(h: string)
    requires h == "github.com" || h == "gitlab.com" || h == "bitbucket.org"
    ensures AllOf(h, IsHostChar)
  {
  }

  /** Two segments joined by a slash form a path. */
  lemma SegmentsArePath(s: string, a: int, k: int)
    requires 0 <= a < k < |s| && s[k] == '/'
    requires AllOf(s[a..k], IsSegmentChar) && AllOf(s[k + 1..], IsSegmentChar)
    ensures AllOf(s[a..], IsPathChar)
  {
    forall i | a <= i < |s| ensures IsPathChar(s[i]) {
      if i < k {
        assert s[a..k][i - a] == s[i];
      } else if i > k {
        assert s[k + 1..][i - (k + 1)] == s[i];
      }
    }
    assert forall i | 0 <= i < |s[a..]| :: s[a..][i] == s[a + i];
  }

  /** A URL of a named host also matches the generic pattern. */
  lemma HostedIsGeneric(h: string, s: string)
    requires h == "github.com" || h == "gitlab.com" || h == "bitbucket.org"
    requires BodyMatches(Hosted(h), s)
    ensures BodyMatches(Generic, s)
  {
    var k :| 9 + |h| < k < |s| - 1 && s[k] == '/' && AllOf(s[9 + |h|..k], IsSegmentChar) && AllOf(s[k + 1..], IsSegmentChar);
    var m := 8 + |h|;
    var pre := s[..9 + |h|];
    assert pre == "https://" + h + "/";
    assert s[..8] == pre[..8] == "https://";
    assert s[8..m] == pre[8..m] == h;
    assert s[m] == pre[m] == '/';
    NamedHostsAreHostNames(h);
    SegmentsArePath(s, m + 1, k);
    assert 8 < m < |s| - 1 && s[m] == '/' && AllOf(s[8..m], IsHostChar) && AllOf(s[m + 1..], IsPathChar);
  }

  /**
   * The first three patterns add nothing: a URL is accepted exactly when the
   * generic pattern matches it, and every accepted URL starts with https://.
   */
  lemma GitUrlValidIffGeneric(url: string)
    ensures GitUrlValid(url) <==> PatternMatches(Generic, url)
    ensures GitUrlValid(url) ==> StartsWith(url, "https://")
  {
    if GitUrlValid(url) {
      var i :| 0 <= i < |GitPatterns| && PatternMatches(GitPatterns[i], url);
      if i < 3 {
        var h := GitPatterns[i].host;
        if BodyMatches(Hosted(h), url) {
          HostedIsGeneric(h, url);
        } else {
          HostedIsGeneric(h, url[..|url| - 1]);
        }
      }
      if !BodyMatches(Generic, url) {
        assert url[..|url| - 1][..8] == url[..8];
      }
    }
    if PatternMatches(Generic, url) {
      assert PatternMatches(GitPatterns[3], url);
    }
  }

  /** Any URL the generic pattern matches is still accepted with a newline after it: the anchor lets it through. */
  lemma GitUrlTrailingNewline(url: string)
    requires BodyMatches(Generic, url)
    ensures GitUrlValid(url + "\n")
  {
    var s := url + "\n";
    assert s[..|s| - 1] == url;
    assert PatternMatches(GitPatterns[3], s);
  }

  // ---------------------------------------------------------------- session

  /** The `$_SESSION` keys the admin area uses. */
  class Session {
    var userId: Option<int>
    var username: Option<string>
    var loginTime: Option<int>
    var csrfToken: Option<string>
    /** `setup_success`, set after the first admin is created and shown once on the login form. */
    var setupSuccess: bool

    constructor ()
      ensures userId.None? && username.None? && loginTime.None? && csrfToken.None? && !setupSuccess
    {
      userId, username, loginTime, csrfToken := None, None, None, None;
      setupSuccess := false;
    }

    /**
     * `generateCSRFToken`: the stored token, set from `randomHex`
     * (bin2hex(random_bytes(32))) when the session has none yet.
     */
    method GenerateCSRFToken(randomHex: string) returns (token: string)
      modifies this
      ensures old(csrfToken).Some? ==> token == old(csrfToken).value && csrfToken == old(csrfToken)
      ensures old(csrfToken).None? ==> token == randomHex && csrfToken == Some(randomHex)
      ensures userId == old(userId) && username == old(username) && loginTime == old(loginTime)
      ensures setupSuccess == old(setupSuccess)
      ensures ValidateCSRFToken(token)
    {
      if csrfToken.None? {
        csrfToken := Some(randomHex);
      }
      token := csrfToken.value;
    }

    /** `validateCSRFToken`: a token is stored and equal to the one given. */
    predicate ValidateCSRFToken(token: string)
      reads this
    {
      csrfToken.Some? && csrfToken.value == token
    }
  }

  /** A session token is fixed once set: the second call returns the first token. */
  method GenerateTwice(s: Session, r1: string, r2: string) returns (t1: string, t2: string)
    modifies s
    ensures t1 == t2 && s.ValidateCSRFToken(t2)
    ensures old(s.csrfToken).None? ==> t1 == r1
  {
    t1 := s.GenerateCSRFToken(r1);
    t2 := s.GenerateCSRFToken(r2);
  }

  // ---------------------------------------------------------------- rate limit

  /** The `activity_log` columns the rate limit counts over; times in seconds. */
  datatype Attempt = Attempt(ip: string, action: string, createdAt: int)

  /** `COUNT(*) … WHERE ip_address = ? AND action = ? AND created_at > NOW() - window`. */
  function RecentCount(rows: seq<Attempt>, ip: string, action: string, now: int, window: int): (n: nat)
    ensures n <= |rows|
    decreases |rows|
  {
    if |rows| == 0 then 0
    else
      var last := rows[|rows| - 1];
      RecentCount(rows[..|rows| - 1], ip, action, now, window)
      + (if last.ip == ip && last.action == action && last.createdAt > now - window then 1 else 0)
  }

  /**
   * `checkRateLimit`: allowed while fewer than `limit` attempts fall in the
   * window; `rows` is None when the query raises, and then it allows.
   */
  function CheckRateLimit(rows: Option<seq<Attempt>>, ip: string, action: string, limit: int, window: int, now: int): (ok: bool)
    ensures rows.None? ==> ok
    ensures rows.Some? ==> (ok <==> RecentCount(rows.value, ip, action, now, window) < limit)
  {
    match rows
    case None => true
    case Some(rs) => RecentCount(rs, ip, action, now, window) < limit
  }

  /** Each recorded attempt in the window counts once. */
  lemma {:induction false} RecentCountAppend(rows: seq<Attempt>, a: Attempt, now: int, window: int)
    requires a.createdAt > now - window
    ensures RecentCount(rows + [a], a.ip, a.action, now, window) == RecentCount(rows, a.ip, a.action, now, window) + 1
  {
    assert (rows + [a])[..|rows + [a]| - 1] == rows;
  }

  /**
   * Five failed logins from one address within the lockout window block the
   * sixth, whatever came before, as long as the count query succeeds.
   */
  lemma {:induction false} LoginLockout(rows: seq<Attempt>, ip: string, t: seq<int>, now: int)
    requires |t| == MaxLoginAttempts
    requires forall i | 0 <= i < |t| :: t[i] > now - LoginLockoutTime
    ensures var all := rows + seq(|t|, i requires 0 <= i < |t| => Attempt(ip, "login_attempt", t[i]));
      !CheckRateLimit(Some(all), ip, "login_attempt", MaxLoginAttempts, LoginLockoutTime, now)
  {
    var extra := seq(|t|, i requires 0 <= i < |t| => Attempt(ip, "login_attempt", t[i]));
    var acc := rows;
    var k := 0;
    while k < |t|
      invariant 0 <= k <= |t|
      invariant acc == rows + extra[..k]
      invariant RecentCount(acc, ip, "login_attempt", now, LoginLockoutTime) >= k
    {
      RecentCountAppend(acc, extra[k], now, LoginLockoutTime);
      assert extra[..k + 1] == extra[..k] + [extra[k]];
      acc := acc + [extra[k]];
      k := k + 1;
    }
    assert extra[..|t|] == extra;
  }

  /** How the count statement writes its window. */
  datatype WindowSyntax =
    | IntervalParameter  // `NOW() - INTERVAL ? SECOND`, as config.php has it
    | IntervalProduct    // `NOW() - ? * INTERVAL '1 second'`

  /**
   * The rows the count statement sees, or None when it raises. With native
   * prepares a parameter cannot stand for the string literal that
   * PostgreSQL's `INTERVAL '…' SECOND` form needs, so that statement is a
   * syntax error at every call.
   */
  function CountRows(syntax: WindowSyntax, rows: seq<Attempt>): (r: Option<seq<Attempt>>)
    ensures r.Some? <==> syntax == IntervalProduct
    ensures r.Some? ==> r.value == rows
  {
    match syntax
    case IntervalParameter => None
    case IntervalProduct => Some(rows)
  }

  /** As written, the rate limit allows every attempt, however many came before. */
  lemma RateLimitNeverBlocksAsWritten(rows: seq<Attempt>, ip: string, action: string, limit: int, window: int, now: int)
    ensures CheckRateLimit(CountRows(IntervalParameter, rows), ip, action, limit, window, now)
  {
  }

  /** With the window written as a product, five recent failed logins block the sixth. */
  lemma LoginLockoutFixed(rows: seq<Attempt>, ip: string, t: seq<int>, now: int)
    requires |t| == MaxLoginAttempts
    requires forall i | 0 <= i < |t| :: t[i] > now - LoginLockoutTime
    ensures var all := rows + seq(|t|, i requires 0 <= i < |t| => Attempt(ip, "login_attempt", t[i]));
      !CheckRateLimit(CountRows(IntervalProduct, all), ip, "login_attempt", MaxLoginAttempts, LoginLockoutTime, now)
  {
    LoginLockout(rows, ip, t, now);
  }

  // ---------------------------------------------------------------- timeAgo

  /**
   * `timeAgo` for `elapsed` = time() - strtotime($datetime) seconds;
   * `date` is date('M j, Y', …), used from 30 days on.
   */
  function TimeAgo(elapsed: int, date: string): (r: string)
    ensures elapsed < 60 ==> r == "just now"
    ensures 60 <= elapsed < 3600 ==>
      exists n: nat | 1 <= n < 60 :: n * 60 <= elapsed < (n + 1) * 60 && r == NatToString(n) + " minutes ago"
    ensures 3600 <= elapsed < 86400 ==>
      exists n: nat | 1 <= n < 24 :: n * 3600 <= elapsed < (n + 1) * 3600 && r == NatToString(n) + " hours ago"
    ensures 86400 <= elapsed < 2592000 ==>
      exists n: nat | 1 <= n < 30 :: n * 86400 <= elapsed < (n + 1) * 86400 && r == NatToString(n) + " days ago"
    ensures 2592000 <= elapsed ==> r == date
  {
    if elapsed < 60 then "just now"
    else if elapsed < 3600 then NatToString(elapsed / 60) + " minutes ago"
    else if elapsed < 86400 then NatToString(elapsed / 3600) + " hours ago"
    else if elapsed < 2592000 then NatToString(elapsed / 86400) + " days ago"
    else date
  }
}
