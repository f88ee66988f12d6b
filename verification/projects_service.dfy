/**
 * The project service of the NestJS back end, reduced to its membership rules:
 * the users table (kept in creation order) and, for every project, its member
 * list.
 */
module ProjectsService {
  import opened Common
  import opened Entities
  import Text

  function ProjectNotFound(id: string): string { "Project with ID " + id + " not found" }
  const NoActiveUsers: string := "No active users found in database"
  function UsersNotFound(missing: seq<string>): string { "Users not found: " + Text.Join(missing, ", ") }

  function UserIds(us: seq<User>): set<string>
  {
    set i | 0 <= i < |us| :: us[i].id
  }

  predicate DistinctUserIds(us: seq<User>)
  {
    forall i, j :: 0 <= i < j < |us| ==> us[i].id != us[j].id
  }

  predicate Distinct(ids: seq<string>)
  {
    forall i, j :: 0 <= i < j < |ids| ==> ids[i] != ids[j]
  }

  /** `findBy({ id: In(ids) })`: the users whose id is requested, in table order. */
  function FindByIds(users: seq<User>, ids: seq<string>): (r: seq<User>)
    ensures forall u :: u in r <==> u in users && u.id in ids
  {
    if |users| == 0 then []
    else (if users[0].id in ids then [users[0]] else []) + FindByIds(users[1..], ids)
  }

  /** The requested ids that no found user carries, in request order. */
  function MissingIds(ids: seq<string>, found: seq<User>): (r: seq<string>)
    ensures forall x :: x in r <==> x in ids && x !in UserIds(found)
  {
    if |ids| == 0 then []
    else (if ids[0] !in UserIds(found) then [ids[0]] else []) + MissingIds(ids[1..], found)
  }

  /** The members after adding `found`: the old members, then the found users not already members. */
  function AddMembers(existing: seq<User>, found: seq<User>): seq<User>
  {
    existing + NotIn(found, UserIds(existing))
  }

  function NotIn(us: seq<User>, ids: set<string>): (r: seq<User>)
    ensures forall u :: u in r <==> u in us && u.id !in ids
    ensures |r| <= |us|
  {
    if |us| == 0 then []
    else (if us[0].id !in ids then [us[0]] else []) + NotIn(us[1..], ids)
  }

  /** The members whose id is not listed, in their original order. */
  function WithoutIds(members: seq<User>, ids: seq<string>): (r: seq<User>)
    ensures forall u :: u in r <==> u in members && u.id !in ids
    ensures |r| <= |members|
  {
    if |members| == 0 then []
    else (if members[0].id !in ids then [members[0]] else []) + WithoutIds(members[1..], ids)
  }

  function Active(users: seq<User>): (r: seq<User>)
    ensures forall u :: u in r <==> u in users && u.isActive
    ensures |r| <= |users|
  {
    if |users| == 0 then []
    else (if users[0].isActive then [users[0]] else []) + Active(users[1..])
  }

  function Ids(us: seq<User>): (r: seq<string>)
    ensures |r| == |us| && forall i :: 0 <= i < |us| ==> r[i] == us[i].id
  {
    seq(|us|, i requires 0 <= i < |us| => us[i].id)
  }

  lemma {:induction false} NotInKeepsDistinct(us: seq<User>, ids: set<string>)
    requires DistinctUserIds(us)
    ensures DistinctUserIds(NotIn(us, ids))
    decreases |us|
  {
    if |us| > 0 {
      NotInKeepsDistinct(us[1..], ids);
      var rest := NotIn(us[1..], ids);
      forall u | u in rest ensures u.id != us[0].id {
        var k :| 1 <= k < |us| && us[k] == u;
      }
    }
  }

  /** Adding users never introduces a duplicate id. */
  lemma {:induction false} AddMembersDistinct(existing: seq<User>, found: seq<User>)
    requires DistinctUserIds(existing) && DistinctUserIds(found)
    ensures DistinctUserIds(AddMembers(existing, found))
  {
    var added := NotIn(found, UserIds(existing));
    NotInKeepsDistinct(found, UserIds(existing));
    var r := existing + added;
    forall i, j | 0 <= i < j < |r| ensures r[i].id != r[j].id {
      if j >= |existing| && i < |existing| {
        assert r[j] == added[j - |existing|];
        assert r[j] in added;
        assert r[i].id in UserIds(existing);
      } else if i >= |existing| {
        assert r[i] == added[i - |existing|] && r[j] == added[j - |existing|];
      }
    }
  }

  /** After adding, the members' ids are the old members' ids and the found users' ids. */
  lemma {:induction false} AddMembersIds(existing: seq<User>, found: seq<User>)
    ensures UserIds(AddMembers(existing, found)) == UserIds(existing) + UserIds(found)
  {
    var added := NotIn(found, UserIds(existing));
    var r := existing + added;
    forall x | x in UserIds(found) ensures x in UserIds(r) {
      var k :| 0 <= k < |found| && found[k].id == x;
      if x !in UserIds(existing) {
        assert found[k] in added;
        var m :| 0 <= m < |added| && added[m] == found[k];
        assert r[|existing| + m].id == x;
      } else {
        var m :| 0 <= m < |existing| && existing[m].id == x;
        assert r[m].id == x;
      }
    }
    forall x | x in UserIds(r) ensures x in UserIds(existing) + UserIds(found) {
      var k :| 0 <= k < |r| && r[k].id == x;
      if k >= |existing| {
        assert r[k] == added[k - |existing|];
        assert r[k] in added;
        var m :| 0 <= m < |found| && found[m] == r[k];
        assert found[m].id == x;
      } else {
        assert existing[k].id == x;
      }
    }
    forall x | x in UserIds(existing) ensures x in UserIds(r) {
      var k :| 0 <= k < |existing| && existing[k].id == x;
      assert r[k].id == x;
    }
  }

  lemma {:induction false} NotInAllKnown(us: seq<User>, ids: set<string>)
    requires UserIds(us) <= ids
    ensures NotIn(us, ids) == []
    decreases |us|
  {
    if |us| > 0 {
      assert us[0].id in UserIds(us);
      assert UserIds(us[1..]) <= UserIds(us) by {
        forall x | x in UserIds(us[1..]) ensures x in UserIds(us) {
          var k :| 0 <= k < |us[1..]| && us[1..][k].id == x;
          assert us[k + 1].id == x;
        }
      }
      NotInAllKnown(us[1..], ids);
    }
  }

  /** Adding the same users a second time leaves the member list unchanged. */
  lemma {:induction false} AddMembersIdempotent(existing: seq<User>, found: seq<User>)
    ensures AddMembers(AddMembers(existing, found), found) == AddMembers(existing, found)
  {
    var once := AddMembers(existing, found);
    AddMembersIds(existing, found);
    NotInAllKnown(found, UserIds(once));
  }

  /** Removing members changes nothing exactly when no member's id is listed. */
  lemma {:induction false} WithoutIdsUnchangedIff(members: seq<User>, ids: seq<string>)
    ensures WithoutIds(members, ids) == members <==> forall i :: 0 <= i < |members| ==> members[i].id !in ids
  {
    if forall i :: 0 <= i < |members| ==> members[i].id !in ids {
      WithoutIdsKeepsAll(members, ids);
    } else {
      var i :| 0 <= i < |members| && members[i].id in ids;
      assert members[i] !in WithoutIds(members, ids);
    }
  }

  lemma {:induction false} WithoutIdsKeepsAll(members: seq<User>, ids: seq<string>)
    requires forall i :: 0 <= i < |members| ==> members[i].id !in ids
    ensures WithoutIds(members, ids) == members
    decreases |members|
  {
    if |members| > 0 {
      var rest := members[1..];
      assert forall i :: 0 <= i < |rest| ==> rest[i] == members[i + 1];
      WithoutIdsKeepsAll(rest, ids);
      assert members == [members[0]] + rest;
    }
  }

  /** A sequence has as many distinct elements as positions exactly when no element repeats. */
  lemma {:induction false} DistinctCard(ids: seq<string>)
    ensures |set x | x in ids| <= |ids|
    ensures |set x | x in ids| == |ids| <==> Distinct(ids)
    decreases |ids|
  {
    if |ids| > 0 {
      var rest := ids[1..];
      DistinctCard(rest);
      var s, s0 := set x | x in ids, set x | x in rest;
      if ids[0] in rest {
        assert s == s0;
        var k :| 0 <= k < |rest| && rest[k] == ids[0];
        assert ids[0] == ids[k + 1];
      } else {
        assert s == s0 + {ids[0]};
        if Distinct(rest) {
          forall i, j | 0 <= i < j < |ids| ensures ids[i] != ids[j] {
            if i > 0 { assert ids[i] == rest[i - 1] && ids[j] == rest[j - 1]; }
            else { assert ids[j] == rest[j - 1]; }
          }
        } else {
          var i, j :| 0 <= i < j < |rest| && rest[i] == rest[j];
          assert ids[i + 1] == ids[j + 1];
        }
      }
    }
  }

  /** The ids of a table are the first row's id and, apart from it, the ids of the other rows. */
  lemma {:induction false} UserIdsCons(users: seq<User>)
    requires |users| > 0 && DistinctUserIds(users)
    ensures UserIds(users) == {users[0].id} + UserIds(users[1..])
    ensures users[0].id !in UserIds(users[1..])
  {
    var rest := users[1..];
    forall x | x in UserIds(users) ensures x in {users[0].id} + UserIds(rest) {
      var k :| 0 <= k < |users| && users[k].id == x;
      if k > 0 { assert rest[k - 1].id == x; }
    }
    forall x | x in UserIds(rest) ensures x in UserIds(users) {
      var k :| 0 <= k < |rest| && rest[k].id == x;
      assert users[k + 1].id == x;
    }
  }

  /** The requested ids the table holds: the first user's id, when requested, and those of the rest. */
  lemma {:induction false} CommonIdsCons(req: set<string>, users: seq<User>)
    requires |users| > 0 && DistinctUserIds(users)
    ensures |req * UserIds(users)| == (if users[0].id in req then 1 else 0) + |req * UserIds(users[1..])|
  {
    var a := users[0].id;
    UserIdsCons(users);
    var common := req * UserIds(users[1..]);
    assert a !in common;
    if a in req {
      assert req * UserIds(users) == common + {a};
    } else {
      assert req * UserIds(users) == common;
    }
  }

  /** In a table with distinct ids, the users found for a request are as many as the requested
      ids that exist. */
  lemma {:induction false} FindByIdsCard(users: seq<User>, ids: seq<string>)
    requires DistinctUserIds(users)
    ensures |FindByIds(users, ids)| == |(set x | x in ids) * UserIds(users)|
    decreases |users|
  {
    var req := set x | x in ids;
    if |users| == 0 {
      assert req * UserIds(users) == {};
    } else {
      FindByIdsCard(users[1..], ids);
      CommonIdsCons(req, users);
    }
  }

  /** `addUsersToProject` goes ahead exactly when every requested id exists and no id is requested
      twice; a repeated id is refused even though nothing is missing. */
  lemma {:induction false} FoundAllIff(users: seq<User>, ids: seq<string>)
    requires DistinctUserIds(users)
    ensures |FindByIds(users, ids)| == |ids| <==> Distinct(ids) && (forall x :: x in ids ==> x in UserIds(users))
  {
    var req := set x | x in ids;
    FindByIdsCard(users, ids);
    DistinctCard(ids);
    if forall x :: x in ids ==> x in UserIds(users) {
      assert req * UserIds(users) == req;
    } else {
      var x :| x in ids && x !in UserIds(users);
      assert x in req && x !in req * UserIds(users);
      assert req * UserIds(users) <= req - {x};
      assert |req - {x}| == |req| - 1;
      SubsetCard(req * UserIds(users), req - {x});
    }
  }

  lemma {:induction false} SubsetCard(a: set<string>, b: set<string>)
    requires a <= b
    ensures |a| <= |b|
  {
    assert b == a + (b - a);
  }

  /** Users ordered by creation time, oldest first. */
  predicate OldestFirst(us: seq<User>)
  {
    forall i, j :: 0 <= i < j < |us| ==> us[i].createdAt <= us[j].createdAt
  }

  lemma {:induction false} ActiveKeepsOrder(users: seq<User>)
    requires OldestFirst(users)
    ensures OldestFirst(Active(users))
    decreases |users|
  {
    if |users| > 0 {
      ActiveKeepsOrder(users[1..]);
      forall u | u in Active(users[1..]) ensures users[0].createdAt <= u.createdAt {
        var k :| 0 <= k < |users[1..]| && users[1..][k] == u;
        assert users[k + 1] == u;
      }
    }
  }

  /** A prefix of a list ordered oldest first is ordered too, and is no younger than what it leaves out. */
  lemma {:induction false} OldestPrefix(us: seq<User>, n: nat)
    requires OldestFirst(us) && n <= |us|
    ensures OldestFirst(us[..n])
    ensures forall u, v :: u in us && u !in us[..n] && v in us[..n] ==> v.createdAt <= u.createdAt
  {
    var r := us[..n];
    assert forall k :: 0 <= k < |r| ==> r[k] == us[k];
    forall u, v | u in us && u !in r && v in r ensures v.createdAt <= u.createdAt {
      var i :| 0 <= i < |us| && us[i] == u;
      var j :| 0 <= j < |r| && r[j] == v;
      assert j < i;
    }
  }

  /** The users `addFiveUsersToProject` picks: at most five active users, oldest first. */
  function FiveOldestActive(users: seq<User>): (r: seq<User>)
    requires OldestFirst(users)
    ensures |r| <= 5 && (forall u :: u in r ==> u in users && u.isActive)
    ensures OldestFirst(r)
    ensures |r| == if |Active(users)| < 5 then |Active(users)| else 5
    ensures forall u :: u in Active(users) && u !in r ==> forall v :: v in r ==> v.createdAt <= u.createdAt
  {
    var act := Active(users);
    ActiveKeepsOrder(users);
    var n := if |act| < 5 then |act| else 5;
    OldestPrefix(act, n);
    assert forall u :: u in act[..n] ==> u in act;
    act[..n]
  }

  /** The users table and the member list of every project. */
  class ProjectStore {
    var users: seq<User>
    var members: map<string, seq<User>>

    ghost predicate Valid()
      reads this
    {
      DistinctUserIds(users) && OldestFirst(users)
      && forall p :: p in members ==> DistinctUserIds(members[p])
    }

    constructor (users: seq<User>, projectIds: set<string>)
      requires DistinctUserIds(users) && OldestFirst(users)
      ensures Valid() && this.users == users && members == map p | p in projectIds :: []
    {
      this.users := users;
      members := map p | p in projectIds :: [];
    }

    /** `findOne`: the project's member list, or NotFound. */
    function FindOne(projectId: string): (r: Result<seq<User>>)
      reads this
      ensures r.Ok? <==> projectId in members
      ensures r.Ok? ==> r.value == members[projectId]
      ensures r.Err? ==> r.message == ProjectNotFound(projectId)
    {
      if projectId in members then Ok(members[projectId]) else Err(ProjectNotFound(projectId))
    }

    /** `addUsersToProject`: NotFound for a missing project, then NotFound listing the missing ids when
        fewer users are found than ids requested; otherwise the found users not yet members are
        appended. Nothing changes on failure. */
    method AddUsersToProject(projectId: string, userIds: seq<string>) returns (r: Result<seq<User>>)
      requires Valid()
      modifies this`members
      ensures Valid()
      ensures projectId !in old(members) ==> r == Err(ProjectNotFound(projectId)) && members == old(members)
      ensures projectId in old(members) && |FindByIds(users, userIds)| != |userIds| ==>
        r == Err(UsersNotFound(MissingIds(userIds, FindByIds(users, userIds)))) && members == old(members)
      ensures projectId in old(members) && |FindByIds(users, userIds)| == |userIds| ==>
        var after := AddMembers(old(members)[projectId], FindByIds(users, userIds));
        r == Ok(after) && members == old(members)[projectId := after]
    {
      if projectId !in members {
        return Err(ProjectNotFound(projectId));
      }
      var found := FindByIds(users, userIds);
      if |found| != |userIds| {
        return Err(UsersNotFound(MissingIds(userIds, found)));
      }
      FindByIdsDistinct(users, userIds);
      AddMembersDistinct(members[projectId], found);
      var after := AddMembers(members[projectId], found);
      members := members[projectId := after];
      r := Ok(after);
    }

    /** `removeUsersFromProject`: an empty member list is returned as is; otherwise the listed ids
        are removed and the rest keep their order. */
    method RemoveUsersFromProject(projectId: string, userIds: seq<string>) returns (r: Result<seq<User>>)
      requires Valid()
      modifies this`members
      ensures Valid()
      ensures projectId !in old(members) ==> r == Err(ProjectNotFound(projectId)) && members == old(members)
      ensures projectId in old(members) ==>
        var after := WithoutIds(old(members)[projectId], userIds);
        r == Ok(after) && members == old(members)[projectId := after]
    {
      if projectId !in members {
        return Err(ProjectNotFound(projectId));
      }
      var current := members[projectId];
      if |current| == 0 {
        return Ok(current);
      }
      var after := WithoutIds(current, userIds);
      WithoutIdsDistinct(current, userIds);
      members := members[projectId := after];
      r := Ok(after);
    }

    /** `addFiveUsersToProject`: NotFound when no user is active; otherwise the five oldest active
        users (fewer when there are fewer) are added. */
    method AddFiveUsersToProject(projectId: string) returns (r: Result<seq<User>>)
      requires Valid()
      modifies this`members
      ensures Valid()
      ensures |Active(users)| == 0 ==> r == Err(NoActiveUsers) && members == old(members)
      ensures |Active(users)| > 0 && projectId !in old(members) ==> r == Err(ProjectNotFound(projectId)) && members == old(members)
      ensures |Active(users)| > 0 && projectId in old(members) ==>
        var after := AddMembers(old(members)[projectId], FindByIds(users, Ids(FiveOldestActive(users))));
        r == Ok(after) && members == old(members)[projectId := after]
    {
      var picked := FiveOldestActive(users);
      if |picked| == 0 {
        return Err(NoActiveUsers);
      }
      var ids := Ids(picked);
      PickedAreFound(users, picked);
      r := AddUsersToProject(projectId, ids);
    }

    /** `isUserInProject`: true exactly when a member has the id. */
    function IsUserInProject(projectId: string, userId: string): (r: Result<bool>)
      reads this
      ensures r.Err? <==> projectId !in members
      ensures r.Ok? ==> (r.value <==> userId in UserIds(members[projectId]))
    {
      if projectId !in members then Err(ProjectNotFound(projectId))
      else Ok(exists i :: 0 <= i < |members[projectId]| && members[projectId][i].id == userId)
    }

    /** `removeAllUsersFromProject`: the member list becomes empty. */
    method RemoveAllUsersFromProject(projectId: string) returns (r: Result<seq<User>>)
      requires Valid()
      modifies this`members
      ensures Valid()
      ensures projectId !in old(members) ==> r == Err(ProjectNotFound(projectId)) && members == old(members)
      ensures projectId in old(members) ==> r == Ok([]) && members == old(members)[projectId := []]
    {
      if projectId !in members {
        return Err(ProjectNotFound(projectId));
      }
      members := members[projectId := []];
      r := Ok([]);
    }
  }

  lemma {:induction false} FindByIdsDistinct(users: seq<User>, ids: seq<string>)
    requires DistinctUserIds(users)
    ensures DistinctUserIds(FindByIds(users, ids))
    decreases |users|
  {
    if |users| > 0 {
      FindByIdsDistinct(users[1..], ids);
      forall u | u in FindByIds(users[1..], ids) ensures u.id != users[0].id {
        var k :| 0 <= k < |users[1..]| && users[1..][k] == u;
        assert users[k + 1] == u;
      }
    }
  }

  lemma {:induction false} WithoutIdsDistinct(members: seq<User>, ids: seq<string>)
    requires DistinctUserIds(members)
    ensures DistinctUserIds(WithoutIds(members, ids))
    decreases |members|
  {
    if |members| > 0 {
      WithoutIdsDistinct(members[1..], ids);
      forall u | u in WithoutIds(members[1..], ids) ensures u.id != members[0].id {
        var k :| 0 <= k < |members[1..]| && members[1..][k] == u;
        assert members[k + 1] == u;
      }
    }
  }

  /** Users taken from a table with distinct ids find exactly themselves again. */
  lemma {:induction false} FoundAgain(users: seq<User>, picked: seq<User>)
    requires DistinctUserIds(users) && DistinctUserIds(picked)
    requires forall u :: u in picked ==> u in users
    ensures |FindByIds(users, Ids(picked))| == |Ids(picked)|
    ensures forall u :: u in FindByIds(users, Ids(picked)) <==> u in picked
  {
    var ids := Ids(picked);
    forall u | u in FindByIds(users, ids) ensures u in picked {
      assert u.id in ids;
      var k :| 0 <= k < |ids| && ids[k] == u.id;
      var a :| 0 <= a < |users| && users[a] == u;
      assert picked[k] in picked;
      var b :| 0 <= b < |users| && users[b] == picked[k];
      assert a == b;
    }
    assert Distinct(ids);
    forall x | x in ids ensures x in UserIds(users) {
      var k :| 0 <= k < |ids| && ids[k] == x;
      assert picked[k] in picked;
      var m :| 0 <= m < |users| && users[m] == picked[k];
      assert users[m].id == x;
    }
    FoundAllIff(users, ids);
  }

  /** The ids of the users picked from the table are distinct and find exactly those users again. */
  lemma {:induction false} PickedAreFound(users: seq<User>, picked: seq<User>)
    requires DistinctUserIds(users) && OldestFirst(users)
    requires picked == FiveOldestActive(users)
    ensures |FindByIds(users, Ids(picked))| == |Ids(picked)|
    ensures forall u :: u in FindByIds(users, Ids(picked)) <==> u in picked
  {
    ActiveDistinct(users);
    var act := Active(users);
    assert picked == act[..if |act| < 5 then |act| else 5];
    assert DistinctUserIds(picked);
    FoundAgain(users, picked);
  }

  lemma {:induction false} ActiveDistinct(users: seq<User>)
    requires DistinctUserIds(users)
    ensures DistinctUserIds(Active(users))
    decreases |users|
  {
    if |users| > 0 {
      ActiveDistinct(users[1..]);
      forall u | u in Active(users[1..]) ensures u.id != users[0].id {
        var k :| 0 <= k < |users[1..]| && users[1..][k] == u;
        assert users[k + 1] == u;
      }
    }
  }
}
