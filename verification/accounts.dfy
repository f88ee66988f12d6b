/**
 * The user accounts the Django views of Tasking_project work on: Django's
 * `User` rows and the `UserProfile` attached to each (its role decides what a
 * user may manage). The database is a map from primary key to account; a
 * password is kept as the text it was set to, since Django's hashing is not
 * part of this model.
 */
module Accounts {
  import opened Common
  import Text

  const AdminRole: string := "admin"
  const ManagerRole: string := "manager"
  const UserRole: string := "user"

  /** A `UserProfile`: its role and the free-text fields the forms edit. */
  datatype Profile = Profile(role: string, department: string, position: string, phone: string, hireDate: Option<string>)

  /** A Django `User` with its profile, or `None` when the user has no profile row. */
  datatype Account = Account(
    username: string, email: string, firstName: string, lastName: string,
    password: string, isActive: bool, profile: Option<Profile>)

  /** The profile `get_or_create` makes for a user without one: the model's defaults. */
  function DefaultProfile(): Profile
  {
    Profile(UserRole, "", "", "", None)
  }

  /** `hasattr(user, 'userprofile') and user.userprofile.is_admin`. */
  predicate IsAdmin(a: Account)
  {
    a.profile.Some? && a.profile.value.role == AdminRole
  }

  /** `hasattr(user, 'userprofile') and (is_manager or is_admin)`. */
  predicate IsStaff(a: Account)
  {
    a.profile.Some? && (a.profile.value.role == ManagerRole || a.profile.value.role == AdminRole)
  }

  /** `User.objects.filter(username=username).exists()`. */
  predicate UsernameTaken(accounts: map<nat, Account>, username: string)
  {
    exists pk :: pk in accounts && accounts[pk].username == username
  }

  /** `User.objects.filter(email=email).exists()`. */
  predicate EmailTaken(accounts: map<nat, Account>, email: string)
  {
    exists pk :: pk in accounts && accounts[pk].email == email
  }

  /** Where Python's `s.rsplit(c, 1)` splits: the index of the last `c` in `s`, if there is one. */
  function LastIndexOf(s: string, c: char): (r: Option<nat>)
    ensures r.None? <==> c !in s
    ensures r.Some? ==> r.value < |s| && s[r.value] == c && c !in s[r.value + 1..]
  {
    if |s| == 0 then None
    else if s[|s| - 1] == c then Some(|s| - 1)
    else
      var r := LastIndexOf(s[..|s| - 1], c);
      assert s == s[..|s| - 1] + [s[|s| - 1]];
      if r.Some? then assert s[r.value + 1..] == s[..|s| - 1][r.value + 1..] + [s[|s| - 1]]; r else r
  }

  /**
   * Django's `normalize_email`, which `create_user` applies: the stripped address
   * split at its last `@`, with the domain part lower-cased; an address without
   * `@` is stored exactly as given (not even stripped).
   */
  function NormalizeEmail(e: string): string
  {
    var s := Text.Strip(e);
    match LastIndexOf(s, '@')
    case None => e
    case Some(i) => s[..i] + "@" + Text.Lower(s[i + 1..])
  }

  /** An address with its blanks trimmed keeps its local part and gets a lower-case domain. */
  lemma NormalizeEmailSplits(name: string, domain: string)
    requires '@' !in domain
    requires name == [] || name[0] !in Text.Whitespace
    requires domain == [] || domain[|domain| - 1] !in Text.Whitespace
    ensures NormalizeEmail(name + "@" + domain) == name + "@" + Text.Lower(domain)
  {
    TrimmedAddress(name, domain);
    LastIndexAfter(name, '@', domain);
    NormalizeEmailAt(name + "@" + domain, |name|);
  }

  /** An address whose local part and domain have no blanks at its ends is its own strip and splits back. */
  lemma TrimmedAddress(name: string, domain: string)
    requires name == [] || name[0] !in Text.Whitespace
    requires domain == [] || domain[|domain| - 1] !in Text.Whitespace
    ensures Text.Strip(name + "@" + domain) == name + "@" + domain
    ensures (name + "@" + domain)[..|name|] == name && (name + "@" + domain)[|name| + 1..] == domain
  {
    var s := name + "@" + domain;
    assert s[0] !in Text.Whitespace && s[|s| - 1] !in Text.Whitespace;
    Text.StripOfNoop(s, Text.Whitespace);
    assert s[..|name|] == name;
    assert s[|name| + 1..] == domain;
  }

  /** How an address is normalised around the last `@` of its strip. */
  lemma NormalizeEmailAt(e: string, i: nat)
    requires LastIndexOf(Text.Strip(e), '@') == Some(i)
    ensures NormalizeEmail(e) == Text.Strip(e)[..i] + "@" + Text.Lower(Text.Strip(e)[i + 1..])
  { }

  /** The last `c` of `a + [c] + b` is the one after `a` when `b` has none. */
  lemma {:induction false} LastIndexAfter(a: string, c: char, b: string)
    requires c !in b
    ensures LastIndexOf(a + [c] + b, c) == Some(|a|)
    decreases |b|
  {
    if |b| > 0 {
      var s := a + [c] + b;
      assert s[..|s| - 1] == a + [c] + b[..|b| - 1];
      LastIndexAfter(a, c, b[..|b| - 1]);
    }
  }

  /** An address without `@` is kept whole. */
  lemma NormalizeEmailNoAt(e: string)
    requires '@' !in e
    ensures NormalizeEmail(e) == e
  {
    Text.StripOfKeeps(e, Text.Whitespace, {'@'});
    assert '@' !in Text.Strip(e);
  }

  /** Normalising a normalised address changes nothing. */
  lemma NormalizeEmailIdempotent(e: string)
    ensures NormalizeEmail(NormalizeEmail(e)) == NormalizeEmail(e)
  {
    var s := Text.Strip(e);
    match LastIndexOf(s, '@')
    case None => {}
    case Some(i) => {
      Text.StripOfEnds(e, Text.Whitespace);
      var name, domain := s[..i], s[i + 1..];
      NormalizeEmailAt(e, i);
      LowerDomainSplits(s, i);
      NormalizeEmailSplits(name, Text.Lower(domain));
      Text.LowerIdempotent(domain);
    }
  }

  /** The lower-cased domain of a stripped address still has no `@` and no blank at its end. */
  lemma LowerDomainSplits(s: string, i: nat)
    requires i < |s| && '@' !in s[i + 1..]
    requires s[0] !in Text.Whitespace && s[|s| - 1] !in Text.Whitespace
    ensures '@' !in Text.Lower(s[i + 1..])
    ensures s[..i] == [] || s[..i][0] !in Text.Whitespace
    ensures Text.Lower(s[i + 1..]) == [] || Text.Lower(s[i + 1..])[|s| - i - 2] !in Text.Whitespace
  {
    var domain := s[i + 1..];
    forall k | 0 <= k < |domain| ensures Text.Lower(domain)[k] != '@' {
      Text.LowerCharOnlyLetters(domain[k]);
      assert domain[k] in s[i + 1..];
    }
    if |domain| > 0 {
      Text.LowerCharOnlyLetters(domain[|domain| - 1]);
      assert domain[|domain| - 1] == s[|s| - 1];
    }
  }

  /** The user table: the accounts by primary key, and the next key the database hands out. */
  class Directory {
    var accounts: map<nat, Account>
    var nextPk: nat

    /** Every stored key was handed out before. */
    predicate Valid()
      reads this
    {
      forall pk :: pk in accounts ==> pk < nextPk
    }

    /** A directory holding the given accounts. */
    constructor (accounts: map<nat, Account>, nextPk: nat)
      requires forall pk :: pk in accounts ==> pk < nextPk
      ensures Valid() && this.accounts == accounts && this.nextPk == nextPk
    {
      this.accounts := accounts;
      this.nextPk := nextPk;
    }

    /** `User.objects.create_user(...)`: stores the account under a new key. */
    method Create(a: Account) returns (pk: nat)
      requires Valid()
      modifies this
      ensures Valid()
      ensures pk !in old(accounts) && accounts == old(accounts)[pk := a]
      ensures UsernameTaken(accounts, a.username) && EmailTaken(accounts, a.email)
    {
      CreatedIsTaken(accounts, nextPk, a);
      pk := nextPk;
      accounts := accounts[pk := a];
      nextPk := nextPk + 1;
    }
  }

  /** A created account makes its username and email taken. */
  lemma CreatedIsTaken(accounts: map<nat, Account>, pk: nat, a: Account)
    ensures UsernameTaken(accounts[pk := a], a.username)
    ensures EmailTaken(accounts[pk := a], a.email)
  {
    assert accounts[pk := a][pk] == a;
  }
}
