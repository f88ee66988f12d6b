/**
 * Tasking_project/django_project/apps/authentication/views.py: login, logout
 * and self-registration. Django's `authenticate` (password checking) is a
 * parameter: the key of the account it accepts, or `None`.
 */
module Authentication {
  import opened Common
  import Text
  import opened Accounts

  /** How `login_view` ends. */
  datatype LoginOutcome =
    | LoginPage              // a GET, or a POST that was refused (the page again, with an error)
    | Welcome(name: string)  // logged in, redirected to the dashboard with this greeting name

  /** Django's `get_full_name()`: first and last name joined by a space, stripped. */
  function FullName(a: Account): string
  {
    Text.Strip(a.firstName + " " + a.lastName)
  }

  /** The name of the greeting: the full name, or the username when that is empty. */
  function GreetingName(a: Account): (r: string)
    ensures r == "" ==> a.username == ""
    ensures FullName(a) != "" ==> r == FullName(a)
  {
    if FullName(a) != "" then FullName(a) else a.username
  }

  /**
   * `login_view`: a POST that `authenticate` accepts logs the user in, gives it
   * a profile if it has none, and greets it; anything else shows the page and
   * changes nothing.
   */
  method Login(d: Directory, isPost: bool, authenticated: Option<nat>) returns (o: LoginOutcome)
    modifies d
    ensures o.Welcome? <==> isPost && authenticated.Some? && authenticated.value in old(d.accounts)
    ensures o.Welcome? ==>
              var pk := authenticated.value;
              var a := old(d.accounts)[pk];
              o.name == GreetingName(a)
              && d.accounts == old(d.accounts)[pk := a.(profile := Some(a.profile.GetOr(DefaultProfile())))]
    ensures o.LoginPage? ==> d.accounts == old(d.accounts)
    ensures d.nextPk == old(d.nextPk)
  {
    if !isPost || authenticated.None? || authenticated.value !in d.accounts {
      return LoginPage;
    }
    var pk := authenticated.value;
    var a := d.accounts[pk];
    d.accounts := d.accounts[pk := a.(profile := Some(a.profile.GetOr(DefaultProfile())))];
    return Welcome(GreetingName(a));
  }

  /** After a login every account that had a profile keeps it, and the one that logged in has one. */
  lemma LoginKeepsProfiles(accounts: map<nat, Account>, pk: nat)
    requires pk in accounts
    ensures var a := accounts[pk];
            var after := accounts[pk := a.(profile := Some(a.profile.GetOr(DefaultProfile())))];
            after[pk].profile.Some?
            && (a.profile.Some? ==> after == accounts)
            && (a.profile.None? ==> after[pk].profile == Some(DefaultProfile()) && !IsStaff(after[pk]))
  {
    var a := accounts[pk];
    if a.profile.Some? {
      assert a.(profile := Some(a.profile.GetOr(DefaultProfile()))) == a;
    }
  }

  /** The name `logout_view` logs: the user's, or `'Anonymous'` when nobody is logged in. */
  function LogoutName(user: Option<Account>): (r: string)
    ensures user.None? ==> r == "Anonymous"
    ensures user.Some? ==> r == user.value.username
  {
    match user
    case None => "Anonymous"
    case Some(a) => a.username
  }

  /** The fields of the registration form. */
  datatype RegisterForm = RegisterForm(
    username: string, email: string, firstName: string, lastName: string, password1: string, password2: string)

  /** How `register_view` ends. */
  datatype RegisterOutcome =
    | RegisterPage       // a GET: the empty form
    | PasswordsDiffer
    | UsernameExists
    | EmailExists
    | CreateFailed       // `create_user` raised (an empty username); the page again, with the error
    | Registered         // redirected to the login page

  /**
   * The checks of `register_view`, in order: passwords, then username, then
   * email; `create_user` itself then refuses an empty username with a
   * `ValueError`, which the view catches.
   */
  function RegisterDecision(accounts: map<nat, Account>, isPost: bool, f: RegisterForm): RegisterOutcome
  {
    if !isPost then RegisterPage
    else if f.password1 != f.password2 then PasswordsDiffer
    else if UsernameTaken(accounts, f.username) then UsernameExists
    else if EmailTaken(accounts, f.email) then EmailExists
    else if f.username == "" then CreateFailed
    else Registered
  }

  /**
   * The account a registration creates: active, with the `'user'` role; the
   * names are not stripped, and the email is stored as `create_user`
   * normalises it.
   */
  function Registrant(f: RegisterForm): (r: Account)
    ensures r.profile.Some? && !IsStaff(r) && !IsAdmin(r)
    ensures r.username == f.username && r.firstName == f.firstName && r.lastName == f.lastName
    ensures r.email == NormalizeEmail(f.email) && r.isActive
  {
    Account(f.username, NormalizeEmail(f.email), f.firstName, f.lastName, f.password1, true,
            Some(Profile(UserRole, "", "", "", None)))
  }

  /**
   * A registration succeeds exactly when the two passwords agree, the username
   * is not empty and neither the username nor the email is taken; with an
   * empty username that passes the checks, `create_user` fails instead. The
   * same form posted again is then refused because the username exists.
   */
  lemma RegisterGuards(accounts: map<nat, Account>, isPost: bool, f: RegisterForm, pk: nat)
    ensures RegisterDecision(accounts, isPost, f) == Registered
            <==> isPost && f.password1 == f.password2 && f.username != ""
                 && !UsernameTaken(accounts, f.username) && !EmailTaken(accounts, f.email)
    ensures RegisterDecision(accounts, isPost, f) == CreateFailed
            <==> isPost && f.password1 == f.password2 && f.username == ""
                 && !UsernameTaken(accounts, f.username) && !EmailTaken(accounts, f.email)
    ensures RegisterDecision(accounts, isPost, f) == Registered
            ==> RegisterDecision(accounts[pk := Registrant(f)], isPost, f) == UsernameExists
  {
    CreatedIsTaken(accounts, pk, Registrant(f));
  }

  /**
   * The email check compares the address as posted with the stored, normalised
   * ones: once an address with an upper-case domain letter is registered, the
   * same address posted under another username passes the check again.
   */
  lemma DomainCaseEscapesEmailCheck(f: RegisterForm, name: string, domain: string, other: string, pk: nat)
    requires f.email == name + "@" + domain && '@' !in domain && Text.Lower(domain) != domain
    requires name == [] || name[0] !in Text.Whitespace
    requires domain == [] || domain[|domain| - 1] !in Text.Whitespace
    requires f.password1 == f.password2 && other != "" && other != f.username
    ensures RegisterDecision(map[pk := Registrant(f)], true, f.(username := other)) == Registered
  {
    NormalizedDiffers(name, domain);
    OnlyAccountTaken(pk, Registrant(f), other, f.email);
  }

  /** In a table of one account, exactly its own username and email are taken. */
  lemma OnlyAccountTaken(pk: nat, a: Account, username: string, email: string)
    ensures UsernameTaken(map[pk := a], username) <==> a.username == username
    ensures EmailTaken(map[pk := a], email) <==> a.email == email
  {
    assert map[pk := a][pk] == a;
  }

  /** An address whose domain has an upper-case letter is not stored as posted. */
  lemma NormalizedDiffers(name: string, domain: string)
    requires '@' !in domain && Text.Lower(domain) != domain
    requires name == [] || name[0] !in Text.Whitespace
    requires domain == [] || domain[|domain| - 1] !in Text.Whitespace
    ensures NormalizeEmail(name + "@" + domain) != name + "@" + domain
  {
    NormalizeEmailSplits(name, domain);
    var stored := name + "@" + Text.Lower(domain);
    assert stored[|name| + 1..] == Text.Lower(domain);
    assert (name + "@" + domain)[|name| + 1..] == domain;
  }

  /** `register_view`: the account is created only when every check passes. */
  method Register(d: Directory, isPost: bool, f: RegisterForm) returns (o: RegisterOutcome, pk: Option<nat>)
    requires d.Valid()
    modifies d
    ensures d.Valid()
    ensures o == RegisterDecision(old(d.accounts), isPost, f)
    ensures o == Registered ==> pk.Some? && pk.value !in old(d.accounts) && d.accounts == old(d.accounts)[pk.value := Registrant(f)]
    ensures o != Registered ==> pk.None? && d.accounts == old(d.accounts)
  {
    pk := None;
    if !isPost {
      return RegisterPage, None;
    }
    if f.password1 != f.password2 {
      return PasswordsDiffer, None;
    }
    if UsernameTaken(d.accounts, f.username) {
      return UsernameExists, None;
    }
    if EmailTaken(d.accounts, f.email) {
      return EmailExists, None;
    }
    if f.username == "" {
      return CreateFailed, None;
    }
    var key := d.Create(Registrant(f));
    return Registered, Some(key);
  }
}
