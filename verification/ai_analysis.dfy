/**
 * The post-processing step of `run_ai_analysis` in hackathon-be/ai_integration.py:
 * the legacy keys of every user/task mapping returned by the language model are
 * renamed in place, and one task-assignment entry is built per mapping by looking
 * the member up in the user document by name.
 */
module AiAnalysis {
  import opened Common
  import AiTaskAssignment

  // ------------------------------------------------------------ key renaming

  /** Python's `d.get(key, default)`. */
  function Get(m: Record, key: string, default: Scalar): Scalar
  {
    if key in m then m[key] else default
  }

  /**
   * `if legacy in m: m[key] = m.pop(legacy)`: the value under `legacy` moves to
   * `key`, overwriting whatever `key` held.
   */
  function RenameKey(m: Record, legacy: string, key: string): (r: Record)
    ensures legacy !in m ==> r == m
    ensures legacy in m ==> key in r && r[key] == m[legacy]
    ensures legacy != key ==> legacy !in r
    ensures forall k :: k != legacy && k != key ==> (k in r <==> k in m)
    ensures forall k :: k != legacy && k != key && k in m ==> r[k] == m[k]
  {
    if legacy in m then (m - {legacy})[key := m[legacy]] else m
  }

  /** Both renamings, task id first, as the loop over the mappings performs them. */
  function NormaliseKeys(m: Record): Record
  {
    var t := RenameKey(m, AiTaskAssignment.LegacyTaskIdKey, AiTaskAssignment.TaskIdKey);
    RenameKey(t, AiTaskAssignment.LegacyMemberNameKey, AiTaskAssignment.MemberNameKey)
  }

  /** The four key names are pairwise distinct. */
  lemma KeysDistinct()
    ensures AiTaskAssignment.LegacyTaskIdKey != AiTaskAssignment.TaskIdKey
    ensures AiTaskAssignment.LegacyTaskIdKey != AiTaskAssignment.MemberNameKey
    ensures AiTaskAssignment.LegacyTaskIdKey != AiTaskAssignment.LegacyMemberNameKey
    ensures AiTaskAssignment.LegacyMemberNameKey != AiTaskAssignment.TaskIdKey
    ensures AiTaskAssignment.LegacyMemberNameKey != AiTaskAssignment.MemberNameKey
    ensures AiTaskAssignment.TaskIdKey != AiTaskAssignment.MemberNameKey
  {
    assert AiTaskAssignment.LegacyTaskIdKey[0] == 'T' && AiTaskAssignment.TaskIdKey[0] == 't';
    assert AiTaskAssignment.MemberNameKey[0] == 'M';
    assert AiTaskAssignment.LegacyMemberNameKey[1] == 'h' && AiTaskAssignment.LegacyTaskIdKey[1] == 'a';
  }

  /**
   * After normalisation no legacy key is left; each new key holds the legacy
   * value when there was one and its own value otherwise; every other key is
   * untouched.
   */
  lemma NormaliseKeysSpec(m: Record)
    ensures AiTaskAssignment.LegacyTaskIdKey !in NormaliseKeys(m)
    ensures AiTaskAssignment.LegacyMemberNameKey !in NormaliseKeys(m)
    ensures Get(NormaliseKeys(m), AiTaskAssignment.TaskIdKey, Null)
         == Get(m, AiTaskAssignment.LegacyTaskIdKey, Get(m, AiTaskAssignment.TaskIdKey, Null))
    ensures Get(NormaliseKeys(m), AiTaskAssignment.MemberNameKey, Null)
         == Get(m, AiTaskAssignment.LegacyMemberNameKey, Get(m, AiTaskAssignment.MemberNameKey, Null))
    ensures AiTaskAssignment.TaskIdKey in NormaliseKeys(m)
        <==> AiTaskAssignment.TaskIdKey in m || AiTaskAssignment.LegacyTaskIdKey in m
    ensures AiTaskAssignment.MemberNameKey in NormaliseKeys(m)
        <==> AiTaskAssignment.MemberNameKey in m || AiTaskAssignment.LegacyMemberNameKey in m
    ensures forall k :: IsOtherKey(k) ==> (k in NormaliseKeys(m) <==> k in m)
    ensures forall k :: IsOtherKey(k) && k in m ==> NormaliseKeys(m)[k] == m[k]
  {
    KeysDistinct();
  }

  /** A key that normalisation neither reads nor writes. */
  predicate IsOtherKey(k: string)
  {
    k != AiTaskAssignment.TaskIdKey && k != AiTaskAssignment.LegacyTaskIdKey
    && k != AiTaskAssignment.MemberNameKey && k != AiTaskAssignment.LegacyMemberNameKey
  }

  /** Normalising an already normalised mapping changes nothing. */
  lemma NormaliseKeysIdempotent(m: Record)
    ensures NormaliseKeys(NormaliseKeys(m)) == NormaliseKeys(m)
  {
    NormaliseKeysSpec(m);
  }

  /**
   * Where a mapping carries both spellings with different texts, this step keeps
   * the legacy one while the back end's reader prefers the new one.
   */
  lemma LegacyPrecedenceDiffers(m: Record, current: string, legacy: string)
    requires AiTaskAssignment.TaskIdKey in m && m[AiTaskAssignment.TaskIdKey] == Str(current)
    requires AiTaskAssignment.LegacyTaskIdKey in m && m[AiTaskAssignment.LegacyTaskIdKey] == Str(legacy)
    ensures Get(NormaliseKeys(m), AiTaskAssignment.TaskIdKey, Null) == Str(legacy)
    ensures AiTaskAssignment.TaskRef(m) == current
  {
    NormaliseKeysSpec(m);
  }

  /** The renaming loop over the parsed mappings, updating each dictionary in place. */
  method NormaliseMappings(a: array<Record>)
    modifies a
    ensures forall i :: 0 <= i < a.Length ==> a[i] == NormaliseKeys(old(a[i]))
  {
    for i := 0 to a.Length
      invariant forall j :: 0 <= j < i ==> a[j] == NormaliseKeys(old(a[j]))
      invariant forall j :: i <= j < a.Length ==> a[j] == old(a[j])
    {
      a[i] := NormaliseKeys(a[i]);
    }
  }

  // ------------------------------------------------------------ assignment entries

  const NameKey: string := "Name"
  const IdKey: string := "Id"

  /** `user.get('Name')`: a user without a name compares as `None`. */
  function NameOf(user: Record): Scalar
  {
    Get(user, NameKey, Null)
  }

  /** The first user whose name equals `name`, as `next((user for user in users if ...), None)`. */
  function FirstWithName(users: seq<Record>, name: Scalar): (r: Option<nat>)
    ensures r.Some? ==> r.value < |users| && NameOf(users[r.value]) == name
    ensures r.Some? ==> forall j :: 0 <= j < r.value ==> NameOf(users[j]) != name
    ensures r.None? ==> forall j :: 0 <= j < |users| ==> NameOf(users[j]) != name
    decreases |users|
  {
    if |users| == 0 then None
    else if NameOf(users[0]) == name then Some(0)
    else match FirstWithName(users[1..], name)
      case None => None
      case Some(i) => Some(i + 1)
  }

  /** User `i` is the first one named `name`. */
  predicate IsFirstNamed(users: seq<Record>, name: Scalar, i: int)
  {
    0 <= i < |users| && NameOf(users[i]) == name && forall j :: 0 <= j < i ==> NameOf(users[j]) != name
  }

  /** One entry of `task_assignment`; the Python field `assigned` is `isAssigned` here. */
  datatype AssignmentEntry = AssignmentEntry(taskId: Scalar, userId: Scalar, userName: Scalar, isAssigned: bool)

  /**
   * The entry built for one mapping: the matched user's `Id` (empty when the
   * matched dictionary is empty, since an empty dictionary is falsy), else `''`.
   */
  function EntryFor(m: Record, users: seq<Record>): AssignmentEntry
  {
    var taskId := Get(m, AiTaskAssignment.TaskIdKey, Str(""));
    var userName := Get(m, AiTaskAssignment.MemberNameKey, Str(""));
    var userId := match FirstWithName(users, userName)
      case Some(i) => if users[i] != map[] then Get(users[i], IdKey, Str("")) else Str("")
      case None => Str("");
    AssignmentEntry(taskId, userId, userName, true)
  }

  /**
   * Every entry is marked assigned and echoes the mapping's task id and member
   * name; its user id is the `Id` of the first user with that name, or `''`
   * when there is none.
   */
  lemma EntryForSpec(m: Record, users: seq<Record>)
    ensures EntryFor(m, users).isAssigned
    ensures EntryFor(m, users).taskId == Get(m, AiTaskAssignment.TaskIdKey, Str(""))
    ensures EntryFor(m, users).userName == Get(m, AiTaskAssignment.MemberNameKey, Str(""))
    ensures (forall j :: 0 <= j < |users| ==> NameOf(users[j]) != EntryFor(m, users).userName)
        ==> EntryFor(m, users).userId == Str("")
    ensures forall i :: IsFirstNamed(users, EntryFor(m, users).userName, i) && NameKey in users[i]
                    ==> EntryFor(m, users).userId == Get(users[i], IdKey, Str(""))
  {
    var name := Get(m, AiTaskAssignment.MemberNameKey, Str(""));
    var r := FirstWithName(users, name);
    forall i | IsFirstNamed(users, name, i) && NameKey in users[i]
      ensures EntryFor(m, users).userId == Get(users[i], IdKey, Str(""))
    {
      assert NameKey in users[i];
    }
  }

  /** The loop that appends one entry per mapping. */
  method BuildTaskAssignment(mappings: seq<Record>, users: seq<Record>) returns (entries: seq<AssignmentEntry>)
    ensures |entries| == |mappings|
    ensures forall k :: 0 <= k < |mappings| ==> entries[k] == EntryFor(mappings[k], users)
  {
    entries := [];
    for i := 0 to |mappings|
      invariant |entries| == i
      invariant forall k :: 0 <= k < i ==> entries[k] == EntryFor(mappings[k], users)
    {
      entries := entries + [EntryFor(mappings[i], users)];
    }
  }

  /**
   * The whole step: rename the keys in place, then build the entries. An
   * entry's task id is the legacy `Task ID` value when the mapping had one.
   */
  method AssignFromMappings(a: array<Record>, users: seq<Record>) returns (entries: seq<AssignmentEntry>)
    modifies a
    ensures forall i :: 0 <= i < a.Length ==> a[i] == NormaliseKeys(old(a[i]))
    ensures |entries| == a.Length
    ensures forall k :: 0 <= k < a.Length ==> entries[k] == EntryFor(NormaliseKeys(old(a[k])), users)
    ensures forall k :: 0 <= k < a.Length ==>
      entries[k].taskId == Get(old(a[k]), AiTaskAssignment.LegacyTaskIdKey, Get(old(a[k]), AiTaskAssignment.TaskIdKey, Str("")))
  {
    NormaliseMappings(a);
    entries := BuildTaskAssignment(a[..], users);
    forall k | 0 <= k < a.Length
      ensures entries[k].taskId
        == Get(old(a[k]), AiTaskAssignment.LegacyTaskIdKey, Get(old(a[k]), AiTaskAssignment.TaskIdKey, Str("")))
    {
      NormalisedTaskId(old(a[k]));
    }
  }

  /** The task id an entry reads back after normalisation, in terms of the raw mapping. */
  lemma NormalisedTaskId(m: Record)
    ensures Get(NormaliseKeys(m), AiTaskAssignment.TaskIdKey, Str(""))
         == Get(m, AiTaskAssignment.LegacyTaskIdKey, Get(m, AiTaskAssignment.TaskIdKey, Str("")))
  {
    NormaliseKeysSpec(m);
  }
}
