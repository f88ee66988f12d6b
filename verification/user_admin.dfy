/**
 * Tasking_project/django_project/apps/users/views.py: the user-management
 * views. Each view checks its guards in a fixed order (the requester's role,
 * the target's existence, self-targeting, the target's role, the form) and
 * changes the user table only when every guard passes on a POST.
 *
 * A view's outcome names the message or redirect it ends with; the request is
 * its method (POST or not) and its form fields, and the requester is the key
 * of the logged-in account (`@login_required` lets no one else in). Messages,
 * logging, rendering and pagination are not part of this model.
 */
module UserAdmin {
  import opened Common
  import Text
  import Seqs
  import opened Accounts

  /** How a view ends. */
  datatype Outcome =
    | PermissionDenied   // the requester's role is not enough
    | NoSuchUser         // `get_object_or_404` raises `Http404`
    | OwnAccount         // "You cannot delete your own account."
    | AdminAccount       // admins are never deleted for good
    | RequiredMissing    // username, email or password empty
    | UsernameExists
    | EmailExists
    | PasswordTooShort   // empty or fewer than eight characters
    | PasswordsDiffer
    | ShowPage           // a GET: the form or confirmation page is rendered
    | Succeeded          // the change was made

  // ------------------------------------------------------------ user_list

  /** The status filter of the list: `'active'` when the request gives none. */
  function StatusFilter(status: Option<string>): string
  {
    status.GetOr("active")
  }

  /** `field__icontains=query`. */
  predicate IContains(field: string, query: string)
  {
    Text.Contains(Text.Lower(field), Text.Lower(query))
  }

  /** The search, role and status filters of `user_list`, applied to one account. */
  predicate Listed(a: Account, search: string, role: string, status: string)
  {
    (search == "" || IContains(a.username, search) || IContains(a.firstName, search)
                  || IContains(a.lastName, search) || IContains(a.email, search))
    && (role == "" || (a.profile.Some? && a.profile.value.role == role))
    && (status == "active" ==> a.isActive)
    && (status == "inactive" ==> !a.isActive)
  }

  /**
   * `user_list`: the accounts (already in username order) that pass the
   * filters, or `None` (a redirect) when the requester is neither a manager
   * nor an admin.
   */
  function UserList(requester: Account, users: seq<Account>, search: string, role: string, status: Option<string>)
    : (r: Option<seq<Account>>)
    ensures r.Some? <==> IsStaff(requester)
  {
    if !IsStaff(requester) then None
    else Some(Seqs.Filter(users, a => Listed(a, search, role, StatusFilter(status))))
  }

  /**
   * Without a status the list shows active users only; `'inactive'` shows
   * inactive users only; any other status hides nobody for being active or
   * not. The list keeps every account that passes, in order, and no other.
   */
  lemma UserListFilters(requester: Account, users: seq<Account>, search: string, role: string, status: Option<string>)
    requires IsStaff(requester)
    ensures var shown := UserList(requester, users, search, role, status).value;
            (status.None? || status == Some("active")) ==> forall k :: 0 <= k < |shown| ==> shown[k].isActive
    ensures var shown := UserList(requester, users, search, role, status).value;
            status == Some("inactive") ==> forall k :: 0 <= k < |shown| ==> !shown[k].isActive
    ensures var shown := UserList(requester, users, search, role, status).value;
            forall a :: a in shown <==> a in users && Listed(a, search, role, StatusFilter(status))
  {
    var p := a => Listed(a, search, role, StatusFilter(status));
    forall a ensures a in Seqs.Filter(users, p) <==> a in users && p(a) {
      Seqs.FilterMembers(users, p, a);
    }
  }

  /** With no search, role or status filter other than `'all'`, every account is listed. */
  lemma UserListAll(requester: Account, users: seq<Account>)
    requires IsStaff(requester)
    ensures UserList(requester, users, "", "", Some("all")).value == users
  {
    var p := a => Listed(a, "", "", "all");
    Seqs.FilterAll(users, p);
  }

  // ------------------------------------------------------------ add_user

  /** The fields of the add-user form, as posted (missing fields read as their defaults). */
  datatype NewUserForm = NewUserForm(
    username: string, email: string, firstName: string, lastName: string, password: string,
    role: Option<string>, department: string, position: string, phone: string)

  /**
   * The account `add_user` creates: stripped names and contacts, the email as
   * `create_user` normalises it, the raw password, the role asked for or `'user'`.
   */
  function NewAccount(f: NewUserForm): Account
  {
    Account(Text.Strip(f.username), NormalizeEmail(Text.Strip(f.email)), Text.Strip(f.firstName), Text.Strip(f.lastName),
            f.password, true,
            Some(Profile(f.role.GetOr(UserRole), Text.Strip(f.department), Text.Strip(f.position), Text.Strip(f.phone), None)))
  }

  /** The guards of `add_user`, in the order the view checks them. */
  function AddUserDecision(accounts: map<nat, Account>, requester: Account, isPost: bool, f: NewUserForm): Outcome
  {
    if !IsAdmin(requester) then PermissionDenied
    else if !isPost then ShowPage
    else if Text.Strip(f.username) == "" || Text.Strip(f.email) == "" || f.password == "" then RequiredMissing
    else if UsernameTaken(accounts, Text.Strip(f.username)) then UsernameExists
    else if EmailTaken(accounts, Text.Strip(f.email)) then EmailExists
    else Succeeded
  }

  /**
   * A user is added exactly when an admin posts a form with a username, an
   * email and a password, and neither the username nor the email is taken;
   * adding the same form again then fails because the username exists.
   */
  lemma AddUserGuards(accounts: map<nat, Account>, requester: Account, isPost: bool, f: NewUserForm, pk: nat)
    ensures AddUserDecision(accounts, requester, isPost, f) == Succeeded
            <==> IsAdmin(requester) && isPost && Text.Strip(f.username) != "" && Text.Strip(f.email) != ""
                 && f.password != "" && !UsernameTaken(accounts, Text.Strip(f.username))
                 && !EmailTaken(accounts, Text.Strip(f.email))
    ensures AddUserDecision(accounts, requester, isPost, f) == Succeeded
            ==> AddUserDecision(accounts[pk := NewAccount(f)], requester, isPost, f) == UsernameExists
  {
    CreatedIsTaken(accounts, pk, NewAccount(f));
  }

  /** `add_user`: the user and its profile are created only when every guard passes. */
  method AddUser(d: Directory, requester: Account, isPost: bool, f: NewUserForm) returns (o: Outcome, pk: Option<nat>)
    requires d.Valid()
    modifies d
    ensures d.Valid()
    ensures o == AddUserDecision(old(d.accounts), requester, isPost, f)
    ensures o == Succeeded ==> pk.Some? && pk.value !in old(d.accounts) && d.accounts == old(d.accounts)[pk.value := NewAccount(f)]
    ensures o != Succeeded ==> pk.None? && d.accounts == old(d.accounts)
  {
    pk := None;
    if !IsAdmin(requester) {
      return PermissionDenied, None;
    }
    if !isPost {
      return ShowPage, None;
    }
    var username := Text.Strip(f.username);
    var email := Text.Strip(f.email);
    if username == "" || email == "" || f.password == "" {
      o := RequiredMissing;
    } else if UsernameTaken(d.accounts, username) {
      o := UsernameExists;
    } else if EmailTaken(d.accounts, email) {
      o := EmailExists;
    } else {
      var key := d.Create(NewAccount(f));
      o, pk := Succeeded, Some(key);
    }
  }

  // ------------------------------------------------------------ edit_user

  /** Python's `str()` of a boolean. */
  function BoolText(b: bool): string
  {
    if b then "True" else "False"
  }

  /** The changes `edit_user` logs: role, then active flag, then email, each only when it differs. */
  function Changes(oldRole: string, newRole: string, oldActive: bool, newActive: bool, oldEmail: string, newEmail: string)
    : (r: seq<string>)
    ensures |r| == Bit(oldRole != newRole) + Bit(oldActive != newActive) + Bit(oldEmail != newEmail)
  {
    (if oldRole != newRole then ["role: " + oldRole + " -> " + newRole] else [])
    + (if oldActive != newActive then ["active: " + BoolText(oldActive) + " -> " + BoolText(newActive)] else [])
    + (if oldEmail != newEmail then ["email: " + oldEmail + " -> " + newEmail] else [])
  }

  function Bit(b: bool): nat { if b then 1 else 0 }

  /** The change log: the changes joined by `", "`, or `"profile info"` when nothing logged changed. */
  function ChangeLog(oldRole: string, newRole: string, oldActive: bool, newActive: bool, oldEmail: string, newEmail: string)
    : string
  {
    var changes := Changes(oldRole, newRole, oldActive, newActive, oldEmail, newEmail);
    if |changes| == 0 then "profile info" else Text.Join(changes, ", ")
  }

  /**
   * The log reads `"profile info"` exactly when role, active flag and email
   * are all unchanged; otherwise it starts with the first change in the
   * order role, active, email.
   */
  lemma ChangeLogMeaning(oldRole: string, newRole: string, oldActive: bool, newActive: bool, oldEmail: string, newEmail: string)
    ensures ChangeLog(oldRole, newRole, oldActive, newActive, oldEmail, newEmail) == "profile info"
            <==> oldRole == newRole && oldActive == newActive && oldEmail == newEmail
    ensures oldRole != newRole ==> Text.StartsWith(ChangeLog(oldRole, newRole, oldActive, newActive, oldEmail, newEmail), "role: ")
    ensures oldRole == newRole && oldActive != newActive
            ==> Text.StartsWith(ChangeLog(oldRole, newRole, oldActive, newActive, oldEmail, newEmail), "active: ")
    ensures oldRole == newRole && oldActive == newActive && oldEmail != newEmail
            ==> ChangeLog(oldRole, newRole, oldActive, newActive, oldEmail, newEmail) == "email: " + oldEmail + " -> " + newEmail
  {
    var changes := Changes(oldRole, newRole, oldActive, newActive, oldEmail, newEmail);
    if |changes| > 0 {
      JoinStartsWithFirst(changes, ", ");
      var head := FirstChangeHead(oldRole, newRole, oldActive, newActive, oldEmail, newEmail);
      HeadOfLog(Text.Join(changes, ", "), changes[0], head);
    }
  }

  /** The head of the first logged change: `role: `, else `active: `, else `email: `. */
  lemma FirstChangeHead(oldRole: string, newRole: string, oldActive: bool, newActive: bool, oldEmail: string, newEmail: string)
    returns (head: string)
    requires |Changes(oldRole, newRole, oldActive, newActive, oldEmail, newEmail)| > 0
    ensures var first := Changes(oldRole, newRole, oldActive, newActive, oldEmail, newEmail)[0];
            |head| <= |first| && first[..|head|] == head
    ensures head in {"role: ", "active: ", "email: "}
    ensures oldRole != newRole ==> head == "role: "
    ensures oldRole == newRole && oldActive != newActive ==> head == "active: "
  {
    var first := Changes(oldRole, newRole, oldActive, newActive, oldEmail, newEmail)[0];
    if oldRole != newRole {
      head := "role: ";
      assert first == head + oldRole + " -> " + newRole;
      HeadPrefix(head, oldRole, " -> ", newRole);
    } else if oldActive != newActive {
      head := "active: ";
      assert first == head + BoolText(oldActive) + " -> " + BoolText(newActive);
      HeadPrefix(head, BoolText(oldActive), " -> ", BoolText(newActive));
    } else {
      head := "email: ";
      assert first == head + oldEmail + " -> " + newEmail;
      HeadPrefix(head, oldEmail, " -> ", newEmail);
    }
  }

  /** A head is a prefix of itself followed by anything. */
  lemma HeadPrefix(head: string, a: string, b: string, c: string)
    ensures |head| <= |head + a + b + c| && (head + a + b + c)[..|head|] == head
  {
    assert head + a + b + c == head + (a + b + c);
  }

  /** A log that starts with a change's head (`role: `, `active: `, `email: `) starts with that head and is not `profile info`. */
  lemma HeadOfLog(log: string, first: string, head: string)
    requires Text.StartsWith(log, first)
    requires |head| <= |first| && first[..|head|] == head
    requires head in {"role: ", "active: ", "email: "}
    ensures Text.StartsWith(log, head)
    ensures log != "profile info"
  {
    assert log[..|head|] == first[..|head|];
    assert log[0] == head[0];
    assert head[0] != 'p';
  }

  /** A join starts with its first part. */
  lemma JoinStartsWithFirst(parts: seq<string>, sep: string)
    requires |parts| > 0
    ensures Text.StartsWith(Text.Join(parts, sep), parts[0])
  {
    if |parts| > 1 {
      assert (parts[0] + sep + Text.Join(parts[1..], sep))[..|parts[0]|] == parts[0];
    }
  }

  /** The fields of the edit form; an unticked `is_active` box is absent. */
  datatype EditForm = EditForm(
    firstName: string, lastName: string, email: string, isActive: Option<string>,
    role: Option<string>, phone: string, department: string, position: string, hireDate: Option<string>)

  /** The account after an edit: the posted fields replace the old ones; an empty hire date keeps the old one. */
  function Edited(a: Account, f: EditForm): Account
  {
    var p := a.profile.GetOr(DefaultProfile());
    a.(firstName := f.firstName, lastName := f.lastName, email := f.email, isActive := f.isActive == Some("on"),
       profile := Some(p.(role := f.role.GetOr(UserRole), phone := f.phone, department := f.department, position := f.position,
                          hireDate := if f.hireDate.Some? && f.hireDate.value != "" then f.hireDate else p.hireDate)))
  }

  /**
   * `edit_user`: an admin's POST replaces the user's fields and logs what
   * changed; a user without a profile first gets the default one.
   */
  method EditUser(d: Directory, requester: Account, pk: nat, isPost: bool, f: EditForm) returns (o: Outcome, log: Option<string>)
    modifies d
    ensures o == (if !IsAdmin(requester) then PermissionDenied
                  else if pk !in old(d.accounts) then NoSuchUser
                  else if !isPost then ShowPage
                  else Succeeded)
    ensures o == Succeeded ==> d.accounts == old(d.accounts)[pk := Edited(old(d.accounts)[pk], f)]
    ensures o == ShowPage ==> d.accounts == old(d.accounts)[pk := old(d.accounts)[pk].(profile := Some(old(d.accounts)[pk].profile.GetOr(DefaultProfile())))]
    ensures o != Succeeded && o != ShowPage ==> d.accounts == old(d.accounts)
    ensures o == Succeeded ==>
              var before := old(d.accounts)[pk];
              var after := d.accounts[pk];
              log == Some(ChangeLog(before.profile.GetOr(DefaultProfile()).role, after.profile.value.role,
                                    before.isActive, after.isActive, before.email, after.email))
    ensures o != Succeeded ==> log.None?
    ensures d.nextPk == old(d.nextPk)
  {
    log := None;
    if !IsAdmin(requester) {
      return PermissionDenied, None;
    }
    if pk !in d.accounts {
      return NoSuchUser, None;
    }
    var user := d.accounts[pk];
    var profile := user.profile.GetOr(DefaultProfile());
    d.accounts := d.accounts[pk := user.(profile := Some(profile))];
    if !isPost {
      return ShowPage, None;
    }
    var edited := Edited(user, f);
    d.accounts := d.accounts[pk := edited];
    var changed := ChangeLog(profile.role, edited.profile.value.role, user.isActive, edited.isActive, user.email, edited.email);
    return Succeeded, Some(changed);
  }

  // ------------------------------------------------------------ delete_user and reactivate_user

  /** The guards of `delete_user`, in order: admin requester, existing target, not the requester, POST. */
  function DeleteDecision(accounts: map<nat, Account>, requester: Account, requesterPk: nat, pk: nat, isPost: bool): Outcome
  {
    if !IsAdmin(requester) then PermissionDenied
    else if pk !in accounts then NoSuchUser
    else if pk == requesterPk then OwnAccount
    else if !isPost then ShowPage
    else Succeeded
  }

  /** `delete_user`: a soft delete that only clears the target's active flag. */
  method DeleteUser(d: Directory, requester: Account, requesterPk: nat, pk: nat, isPost: bool) returns (o: Outcome)
    modifies d
    ensures o == DeleteDecision(old(d.accounts), requester, requesterPk, pk, isPost)
    ensures o == Succeeded ==> d.accounts == old(d.accounts)[pk := old(d.accounts)[pk].(isActive := false)]
    ensures o != Succeeded ==> d.accounts == old(d.accounts)
    ensures d.nextPk == old(d.nextPk)
  {
    if !IsAdmin(requester) {
      return PermissionDenied;
    }
    if pk !in d.accounts {
      return NoSuchUser;
    }
    if pk == requesterPk {
      return OwnAccount;
    }
    if !isPost {
      return ShowPage;
    }
    d.accounts := d.accounts[pk := d.accounts[pk].(isActive := false)];
    return Succeeded;
  }

  /** `reactivate_user`: an admin's POST sets the target's active flag, whoever the target is. */
  method ReactivateUser(d: Directory, requester: Account, pk: nat, isPost: bool) returns (o: Outcome)
    modifies d
    ensures o == (if !IsAdmin(requester) then PermissionDenied
                  else if pk !in old(d.accounts) then NoSuchUser
                  else if !isPost then ShowPage
                  else Succeeded)
    ensures o == Succeeded ==> d.accounts == old(d.accounts)[pk := old(d.accounts)[pk].(isActive := true)]
    ensures o != Succeeded ==> d.accounts == old(d.accounts)
    ensures d.nextPk == old(d.nextPk)
  {
    if !IsAdmin(requester) {
      return PermissionDenied;
    }
    if pk !in d.accounts {
      return NoSuchUser;
    }
    if !isPost {
      return ShowPage;
    }
    d.accounts := d.accounts[pk := d.accounts[pk].(isActive := true)];
    return Succeeded;
  }

  /**
   * Nobody deactivates their own account, and deactivating then reactivating
   * another user gives back the account as it was when it was active.
   */
  lemma DeleteThenReactivate(accounts: map<nat, Account>, requester: Account, requesterPk: nat, pk: nat, isPost: bool)
    ensures DeleteDecision(accounts, requester, requesterPk, requesterPk, isPost) != Succeeded
    ensures DeleteDecision(accounts, requester, requesterPk, pk, isPost) == Succeeded
            <==> IsAdmin(requester) && pk in accounts && pk != requesterPk && isPost
    ensures DeleteDecision(accounts, requester, requesterPk, pk, isPost) == Succeeded && accounts[pk].isActive
            ==> accounts[pk := accounts[pk].(isActive := false)][pk := accounts[pk].(isActive := false).(isActive := true)] == accounts
  {
    if pk in accounts && accounts[pk].isActive {
      var back := accounts[pk := accounts[pk].(isActive := false)][pk := accounts[pk].(isActive := false).(isActive := true)];
      assert accounts[pk].(isActive := false).(isActive := true) == accounts[pk];
      assert back.Keys == accounts.Keys;
    }
  }

  // ------------------------------------------------------------ reset_user_password

  /** The guards of `reset_user_password`, in order. */
  function ResetDecision(accounts: map<nat, Account>, requester: Account, pk: nat, isPost: bool, newPassword: string, confirm: string)
    : Outcome
  {
    if !IsAdmin(requester) then PermissionDenied
    else if pk !in accounts then NoSuchUser
    else if !isPost then ShowPage
    else if newPassword == "" || |newPassword| < 8 then PasswordTooShort
    else if newPassword != confirm then PasswordsDiffer
    else Succeeded
  }

  /**
   * A password is set exactly when an admin posts one of at least eight
   * characters that equals its confirmation; length is checked before the
   * confirmation.
   */
  lemma ResetGuards(accounts: map<nat, Account>, requester: Account, pk: nat, isPost: bool, newPassword: string, confirm: string)
    ensures ResetDecision(accounts, requester, pk, isPost, newPassword, confirm) == Succeeded
            <==> IsAdmin(requester) && pk in accounts && isPost && |newPassword| >= 8 && newPassword == confirm
    ensures IsAdmin(requester) && pk in accounts && isPost && |newPassword| < 8
            ==> ResetDecision(accounts, requester, pk, isPost, newPassword, confirm) == PasswordTooShort
  {
  }

  /** `reset_user_password`: only the target's password changes, and only when every guard passes. */
  method ResetUserPassword(d: Directory, requester: Account, pk: nat, isPost: bool, newPassword: string, confirm: string)
    returns (o: Outcome)
    modifies d
    ensures o == ResetDecision(old(d.accounts), requester, pk, isPost, newPassword, confirm)
    ensures o == Succeeded ==> d.accounts == old(d.accounts)[pk := old(d.accounts)[pk].(password := newPassword)]
    ensures o != Succeeded ==> d.accounts == old(d.accounts)
    ensures d.nextPk == old(d.nextPk)
  {
    if !IsAdmin(requester) {
      return PermissionDenied;
    }
    if pk !in d.accounts {
      return NoSuchUser;
    }
    if !isPost {
      return ShowPage;
    }
    if newPassword == "" || |newPassword| < 8 {
      return PasswordTooShort;
    } else if newPassword != confirm {
      return PasswordsDiffer;
    }
    d.accounts := d.accounts[pk := d.accounts[pk].(password := newPassword)];
    return Succeeded;
  }

  // ------------------------------------------------------------ hard_delete_user

  /** The guards of `hard_delete_user`, in order: admin requester, existing target, not the requester, not an admin, POST. */
  function HardDeleteDecision(accounts: map<nat, Account>, requester: Account, requesterPk: nat, pk: nat, isPost: bool): Outcome
  {
    if !IsAdmin(requester) then PermissionDenied
    else if pk !in accounts then NoSuchUser
    else if pk == requesterPk then OwnAccount
    else if IsAdmin(accounts[pk]) then AdminAccount
    else if !isPost then ShowPage
    else Succeeded
  }

  /**
   * An account is removed for good exactly when an admin posts the request
   * for another existing account that is not an admin's; a self-deletion is
   * refused as such even when the target is an admin.
   */
  lemma HardDeleteGuards(accounts: map<nat, Account>, requester: Account, requesterPk: nat, pk: nat, isPost: bool)
    ensures HardDeleteDecision(accounts, requester, requesterPk, pk, isPost) == Succeeded
            <==> IsAdmin(requester) && pk in accounts && pk != requesterPk && !IsAdmin(accounts[pk]) && isPost
    ensures IsAdmin(requester) && pk in accounts && pk == requesterPk
            ==> HardDeleteDecision(accounts, requester, requesterPk, pk, isPost) == OwnAccount
    ensures !IsAdmin(requester) ==> HardDeleteDecision(accounts, requester, requesterPk, pk, isPost) == PermissionDenied
  {
  }

  /** `hard_delete_user`: the target's row is removed, and nothing else changes. */
  method HardDeleteUser(d: Directory, requester: Account, requesterPk: nat, pk: nat, isPost: bool) returns (o: Outcome)
    requires d.Valid()
    modifies d
    ensures d.Valid()
    ensures o == HardDeleteDecision(old(d.accounts), requester, requesterPk, pk, isPost)
    ensures o == Succeeded ==> d.accounts == old(d.accounts) - {pk}
    ensures o != Succeeded ==> d.accounts == old(d.accounts)
    ensures d.nextPk == old(d.nextPk)
  {
    if !IsAdmin(requester) {
      return PermissionDenied;
    }
    if pk !in d.accounts {
      return NoSuchUser;
    }
    if pk == requesterPk {
      return OwnAccount;
    }
    if IsAdmin(d.accounts[pk]) {
      return AdminAccount;
    }
    if !isPost {
      return ShowPage;
    }
    d.accounts := d.accounts - {pk};
    return Succeeded;
  }
}
