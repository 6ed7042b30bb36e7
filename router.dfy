/**
 * The admin area's entry point, admin/index.php: which page a request
 * reaches, the session test, the first-admin setup form, login behind the
 * rate limit, and logout.
 */
module AdminRouter {
  import opened Wrappers
  import opened Text
  import opened Php
  import opened Records
  import opened Store
  import opened Config

  // ---------------------------------------------------------------- routing

  datatype Page = Setup | Login | Logout | Dashboard | Applications | DatabasePage | SettingsPage | Deploy

  /** The switch: the named pages, and the dashboard for every other action. */
  function PageOf(action: string): Page
  {
    match action
    case "setup" => Setup
    case "login" => Login
    case "logout" => Logout
    case "applications" => Applications
    case "database" => DatabasePage
    case "settings" => SettingsPage
    case "deploy" => Deploy
    case _ => Dashboard
  }

  /** The actions that need no session. */
  predicate Public(action: string)
  {
    action in ["setup", "login", "logout"]
  }

  /**
   * `hasAdminUsers`: an active admin exists; `countOk` is false when the
   * count query raises, which also answers false.
   */
  predicate HasAdminUsers(t: Tables, countOk: bool)
  {
    countOk && exists i | 0 <= i < |t.admins| :: t.admins[i].active
  }

  /**
   * The action actually served: `requested` is `$_GET['action']`. Without
   * an admin every action becomes setup; with one, a request without a
   * session for anything but setup, login or logout becomes login.
   */
  function Route(initialSetup: bool, requested: Option<string>, loggedIn: bool): Page
  {
    var action := requested.GetOr("dashboard");
    var action := if initialSetup && action != "setup" then "setup" else action;
    var action := if !initialSetup && !Public(action) && !loggedIn then "login" else action;
    PageOf(action)
  }

  /** Without an action the dashboard is served to a logged-in admin. */
  lemma DefaultIsDashboard()
    ensures Route(false, None, true) == Dashboard
  {
  }

  /** Before the first admin exists, every request gets the setup page. */
  lemma SetupForcedFirst(requested: Option<string>, loggedIn: bool)
    ensures Route(true, requested, loggedIn) == Setup
  {
  }

  /** Without a session only setup, login and logout are served. */
  lemma AnonymousPages(requested: Option<string>)
    ensures Route(false, requested, false) in {Setup, Login, Logout}
    ensures requested.Some? && !Public(requested.value) ==> Route(false, requested, false) == Login
  {
  }

  /** The setup page stays reachable without a session once admins exist. */
  lemma SetupStaysReachable(loggedIn: bool)
    ensures Route(false, Some("setup"), loggedIn) == Setup
  {
  }

  /** An unknown action, `debug` among them, shows the dashboard. */
  lemma UnknownActionDashboard(action: string)
    requires action !in ["setup", "login", "logout", "applications", "database", "settings", "deploy"]
    ensures Route(false, Some(action), true) == Dashboard
    ensures Route(false, Some("debug"), true) == Dashboard
  {
  }

  /** When the admin count query fails, the installation looks new and all requests go to setup. */
  lemma CountFailureForcesSetup(t: Tables, requested: Option<string>, loggedIn: bool)
    ensures Route(!HasAdminUsers(t, false), requested, loggedIn) == Setup
  {
  }

  /** `isLoggedIn`: a user id and a login time are set, and less than the timeout has passed. */
  predicate IsLoggedIn(s: Session, now: int)
    reads s
  {
    s.userId.Some? && s.loginTime.Some? && now - s.loginTime.value < AdminSessionTimeout
  }

  lemma SessionExpires(s: Session, now: int)
    requires s.loginTime.Some? && now >= s.loginTime.value + AdminSessionTimeout
    ensures !IsLoggedIn(s, now)
  {
  }

  // ---------------------------------------------------------------- what a handler shows

  datatype Outcome =
    | Redirect(location: string)
    | SetupForm(errors: seq<string>)
    | LoginForm(error: Option<string>, setupSuccess: bool)

  // ---------------------------------------------------------------- handleInitialSetup

  /** The posted setup fields; a missing one is ''. */
  datatype SetupPost = SetupPost(username: string, password: string, confirmPassword: string, email: string)

  const UsernameShort := "Username must be at least 3 characters long"
  const PasswordShort := "Password must be at least 6 characters long"
  const PasswordsDiffer := "Passwords do not match"
  const EmailInvalid := "Invalid email address"

  /**
   * The errors, in the order they are checked: `username` and `email` are
   * already sanitized, `emailValid` is filter_var(…, FILTER_VALIDATE_EMAIL).
   */
  function SetupErrors(username: string, password: string, confirm: string, email: string,
                       emailValid: string -> bool): seq<string>
  {
    (if Empty(username) || |username| < 3 then [UsernameShort] else [])
    + (if Empty(password) || |password| < 6 then [PasswordShort] else [])
    + (if password != confirm then [PasswordsDiffer] else [])
    + (if !Empty(email) && !emailValid(email) then [EmailInvalid] else [])
  }

  /** Each check adds its message exactly when it fails; an empty email is not checked. */
  lemma SetupErrorsExact(username: string, password: string, confirm: string, email: string,
                         emailValid: string -> bool)
    ensures var errs := SetupErrors(username, password, confirm, email, emailValid);
      && (UsernameShort in errs <==> |username| < 3)
      && (PasswordShort in errs <==> |password| < 6)
      && (PasswordsDiffer in errs <==> password != confirm)
      && (EmailInvalid in errs <==> email != "" && email != "0" && !emailValid(email))
  {
    assert UsernameShort != PasswordShort && UsernameShort != PasswordsDiffer && UsernameShort != EmailInvalid;
    assert PasswordShort != PasswordsDiffer && PasswordShort != EmailInvalid && PasswordsDiffer != EmailInvalid;
  }

  /** No message appears twice, and the form passes exactly when every check does. */
  lemma SetupErrorsDistinct(username: string, password: string, confirm: string, email: string,
                            emailValid: string -> bool)
    ensures var errs := SetupErrors(username, password, confirm, email, emailValid);
      && (forall i, j | 0 <= i < j < |errs| :: errs[i] != errs[j])
      && (errs == [] <==> |username| >= 3 && |password| >= 6 && password == confirm && (Empty(email) || emailValid(email)))
  {
    assert UsernameShort != PasswordShort && UsernameShort != PasswordsDiffer && UsernameShort != EmailInvalid;
    assert PasswordShort != PasswordsDiffer && PasswordShort != EmailInvalid && PasswordsDiffer != EmailInvalid;
  }

  /** The `$errors[] = …` appends, one check after the other. */
  method CollectSetupErrors(username: string, password: string, confirm: string, email: string,
                            emailValid: string -> bool) returns (errors: seq<string>)
    ensures errors == SetupErrors(username, password, confirm, email, emailValid)
  {
    errors := [];
    if Empty(username) || |username| < 3 {
      errors := errors + [UsernameShort];
    }
    if Empty(password) || |password| < 6 {
      errors := errors + [PasswordShort];
    }
    if password != confirm {
      errors := errors + [PasswordsDiffer];
    }
    if !Empty(email) && !emailValid(email) {
      errors := errors + [EmailInvalid];
    }
  }

  /**
   * A setup POST over the tables, with the sanitized username and email:
   * the tables after it, whether `setup_success` is set, and what is shown.
   * `insertError` is PDO's message when the INSERT raises.
   */
  function SetupResult(t: Tables, username: string, p: SetupPost, email: string,
                       emailValid: string -> bool, insertError: Option<string>): (Tables, bool, Outcome)
  {
    var errors := SetupErrors(username, p.password, p.confirmPassword, email, emailValid);
    if errors != [] then (t, false, SetupForm(errors))
    else match insertError
      case Some(msg) => (t, false, SetupForm(["Failed to create admin user: " + msg]))
      case None =>
        var id := t.nextAdminId;
        (t.(admins := t.admins + [AdminUser(id, username, email, true)], nextAdminId := id + 1,
            activity := t.activity + [Activity(None, "admin_setup", "Initial admin user created")]),
         true, Redirect("/server-admin/?action=login"))
  }

  /** An admin is created exactly when no check failed and the INSERT went through. */
  lemma SetupCreatesOnlyWhenValid(t: Tables, username: string, p: SetupPost, email: string,
                                  emailValid: string -> bool, insertError: Option<string>)
    ensures var (t2, ok, out) := SetupResult(t, username, p, email, emailValid, insertError);
      && (ok <==> SetupErrors(username, p.password, p.confirmPassword, email, emailValid) == [] && insertError.None?)
      && (ok ==> |t2.admins| == |t.admins| + 1 && t2.admins[|t.admins|] == AdminUser(t.nextAdminId, username, email, true)
                 && out == Redirect("/server-admin/?action=login"))
      && (!ok ==> t2 == t && out.SetupForm? && out.errors != [])
  {
  }

  /**
   * Once an admin exists, a visitor without a session still reaches the
   * setup handler, and a valid form creates a further active admin.
   */
  lemma AnotherAdminWithoutLogin(t: Tables, username: string, p: SetupPost, email: string, emailValid: string -> bool)
    requires HasAdminUsers(t, true)
    requires |username| >= 3 && |p.password| >= 6 && p.password == p.confirmPassword && email == ""
    ensures Route(!HasAdminUsers(t, true), Some("setup"), false) == Setup
    ensures var t2 := SetupResult(t, username, p, email, emailValid, None).0;
      |t2.admins| == |t.admins| + 1 && t2.admins[|t.admins|].active
  {
  }

  /** The POST branch of `handleInitialSetup`, given the sanitized username and email. */
  method SubmitSetup(db: Database, s: Session, username: string, p: SetupPost, email: string,
                     emailValid: string -> bool, insertError: Option<string>) returns (out: Outcome)
    requires db.Valid()
    modifies db, s
    ensures db.Valid()
    ensures var r := SetupResult(old(db.Snapshot()), username, p, email, emailValid, insertError);
      db.Snapshot() == r.0 && s.setupSuccess == (r.1 || old(s.setupSuccess)) && out == r.2
    ensures s.userId == old(s.userId) && s.username == old(s.username) && s.loginTime == old(s.loginTime)
    ensures s.csrfToken == old(s.csrfToken)
  {
    var errors := CollectSetupErrors(username, p.password, p.confirmPassword, email, emailValid);
    if errors != [] {
      return SetupForm(errors);
    }
    if insertError.Some? {
      return SetupForm(errors + ["Failed to create admin user: " + insertError.value]);
    }
    var id := db.InsertAdmin(username, email);
    db.LogActivity(None, "admin_setup", "Initial admin user created");
    s.setupSuccess := true;
    out := Redirect("/server-admin/?action=login");
  }

  /** `handleInitialSetup`: `post` is None for a GET. */
  method HandleInitialSetup(db: Database, s: Session, post: Option<SetupPost>, emailValid: string -> bool,
                            insertError: Option<string>) returns (out: Outcome)
    requires db.Valid()
    modifies db, s
    ensures db.Valid()
    ensures post.None? ==> out == SetupForm([]) && db.Snapshot() == old(db.Snapshot()) && s.setupSuccess == old(s.setupSuccess)
    ensures post.Some? ==>
      var r := SetupResult(old(db.Snapshot()), Sanitize(post.value.username), post.value, Sanitize(post.value.email),
                           emailValid, insertError);
      db.Snapshot() == r.0 && s.setupSuccess == (r.1 || old(s.setupSuccess)) && out == r.2
    ensures s.userId == old(s.userId) && s.username == old(s.username) && s.loginTime == old(s.loginTime)
    ensures s.csrfToken == old(s.csrfToken)
  {
    if post.None? {
      return SetupForm([]);
    }
    out := SubmitSetup(db, s, Sanitize(post.value.username), post.value, Sanitize(post.value.email),
                       emailValid, insertError);
  }

  // ---------------------------------------------------------------- handleLogin

  /** `SELECT … FROM admin_users WHERE username = ? AND active = true`: the first such row. */
  function FindActiveAdmin(admins: seq<AdminUser>, username: string): (r: Option<AdminUser>)
    ensures r.Some? ==> r.value in admins && r.value.active && r.value.username == username
    ensures r.None? ==> forall i | 0 <= i < |admins| :: !(admins[i].active && admins[i].username == username)
    decreases |admins|
  {
    if |admins| == 0 then None
    else if admins[0].active && admins[0].username == username then Some(admins[0])
    else FindActiveAdmin(admins[1..], username)
  }

  const TooManyAttempts := "Too many login attempts. Please wait before trying again."

  /**
   * A login POST with the sanitized username: the tables after it, the
   * admin now logged in, if any, and the error shown otherwise. `attempts`
   * are the rate-limit rows (None when the count raises),
   * `lookupFails` that the user query raises, `passwordMatches`
   * password_verify of the posted password against a user's hash.
   */
  function LoginResult(t: Tables, username: string, attempts: Option<seq<Attempt>>, ip: string, now: int,
                       lookupFails: bool, passwordMatches: AdminUser -> bool): (Tables, Option<AdminUser>, Option<string>)
  {
    if !CheckRateLimit(attempts, ip, "login_attempt", MaxLoginAttempts, LoginLockoutTime, now) then
      (t, None, Some(TooManyAttempts))
    else if lookupFails then (t, None, Some("Login failed. Please try again."))
    else
      var user := FindActiveAdmin(t.admins, username);
      if user.Some? && passwordMatches(user.value) then
        (t.(activity := t.activity + [Activity(Some(user.value.id), "login_success", "")]), user, None)
      else
        (t.(activity := t.activity + [Activity(None, "login_attempt", "Failed login: " + username)]),
         None, Some("Invalid username or password"))
  }

  /** Over the rate limit, the user is neither looked up nor logged in, and nothing is recorded. */
  lemma RateLimitedLogin(t: Tables, username: string, attempts: seq<Attempt>, ip: string, now: int,
                         lookupFails: bool, passwordMatches: AdminUser -> bool)
    requires RecentCount(attempts, ip, "login_attempt", now, LoginLockoutTime) >= MaxLoginAttempts
    ensures LoginResult(t, username, Some(attempts), ip, now, lookupFails, passwordMatches) == (t, None, Some(TooManyAttempts))
  {
  }

  /** A login succeeds only for an active admin of that name whose password matches. */
  lemma LoginNeedsPassword(t: Tables, username: string, attempts: Option<seq<Attempt>>, ip: string, now: int,
                           lookupFails: bool, passwordMatches: AdminUser -> bool)
    ensures var (t2, user, error) := LoginResult(t, username, attempts, ip, now, lookupFails, passwordMatches);
      && (user.Some? <==> error.None?)
      && (user.Some? ==> user.value in t.admins && user.value.active && user.value.username == username
                         && passwordMatches(user.value))
      && |t2.activity| <= |t.activity| + 1
  {
  }

  /** `handleLogin`: `post` is the sanitized username, None for a GET; `now` is time(). */
  method HandleLogin(db: Database, s: Session, post: Option<string>, attempts: Option<seq<Attempt>>, ip: string,
                     now: int, lookupFails: bool, passwordMatches: AdminUser -> bool) returns (out: Outcome)
    modifies db, s
    ensures db.Valid() == old(db.Valid())
    ensures post.None? ==>
      && db.Snapshot() == old(db.Snapshot()) && out == LoginForm(None, old(s.setupSuccess)) && !s.setupSuccess
      && s.userId == old(s.userId) && s.loginTime == old(s.loginTime)
    ensures post.Some? ==>
      var (t2, user, error) := LoginResult(old(db.Snapshot()), post.value, attempts, ip, now, lookupFails, passwordMatches);
      && db.Snapshot() == t2
      && (user.Some? ==> s.userId == Some(user.value.id) && s.username == Some(user.value.username)
                         && s.loginTime == Some(now) && out == Redirect("/server-admin/")
                         && s.setupSuccess == old(s.setupSuccess))
      && (user.None? ==> s.userId == old(s.userId) && s.loginTime == old(s.loginTime)
                         && out == LoginForm(error, old(s.setupSuccess)) && !s.setupSuccess)
    ensures s.csrfToken == old(s.csrfToken)
  {
    var error: Option<string> := None;
    if post.Some? {
      var username := post.value;
      if !CheckRateLimit(attempts, ip, "login_attempt", MaxLoginAttempts, LoginLockoutTime, now) {
        error := Some(TooManyAttempts);
      } else if lookupFails {
        error := Some("Login failed. Please try again.");
      } else {
        var user := FindActiveAdmin(db.admins, username);
        if user.Some? && passwordMatches(user.value) {
          s.userId, s.username, s.loginTime := Some(user.value.id), Some(user.value.username), Some(now);
          db.LogActivity(Some(user.value.id), "login_success", "");
          return Redirect("/server-admin/");
        }
        db.LogActivity(None, "login_attempt", "Failed login: " + username);
        error := Some("Invalid username or password");
      }
    }
    out := LoginForm(error, s.setupSuccess);
    s.setupSuccess := false;
  }

  // ---------------------------------------------------------------- handleLogout

  /** `handleLogout`: the logout is recorded for a logged-in user, then the session is emptied. */
  method HandleLogout(db: Database, s: Session) returns (out: Outcome)
    modifies db, s
    ensures db.Valid() == old(db.Valid())
    ensures db.Snapshot() == old(db.Snapshot()).(activity := old(db.activity) +
      (if old(s.userId).Some? then [Activity(old(s.userId), "logout", "")] else []))
    ensures s.userId.None? && s.username.None? && s.loginTime.None? && s.csrfToken.None? && !s.setupSuccess
    ensures out == Redirect("/server-admin/?action=login")
  {
    if s.userId.Some? {
      db.LogActivity(s.userId, "logout", "");
    }
    s.userId, s.username, s.loginTime, s.csrfToken, s.setupSuccess := None, None, None, None, false;
    out := Redirect("/server-admin/?action=login");
  }
}
