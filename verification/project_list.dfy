/**
 * hackathon-fe/src/pages/project-list.tsx: the project list's search and
 * status filters and its sort orders. `filter` builds a new array and
 * `Array.prototype.sort` then orders it in place; here the sort is an
 * insertion sort over the same comparator.
 */
module ProjectList {
  import Text
  import Seqs

  /** A project card's data; `createdAt` is the instant `new Date(createdAt).getTime()` reads. */
  datatype Project = Project(
    id: string, name: string, description: string, status: string,
    taskCount: int, progressPercentage: int, createdAt: int)

  /** The page's filter state. */
  datatype Filters = Filters(search: string, status: string, sortBy: string)

  /** The filters the page starts with and `handleClearFilters` restores. */
  function ClearedFilters(): (f: Filters)
    ensures f.search == "" && f.status == "" && f.sortBy == "created_at"
  {
    Filters("", "", "created_at")
  }

  /** The test of `filter`: the search in the name or description, ignoring case, and the status. */
  predicate MatchesFilters(p: Project, f: Filters)
  {
    (f.search == "" || Text.Contains(Text.Lower(p.name), Text.Lower(f.search))
                    || Text.Contains(Text.Lower(p.description), Text.Lower(f.search)))
    && (f.status == "" || p.status == f.status)
  }

  /** The projects that pass the filters, in their original order. */
  function Filtered(projects: seq<Project>, f: Filters): seq<Project>
  {
    Seqs.Filter(projects, p => MatchesFilters(p, f))
  }

  /**
   * The filtered list keeps exactly the projects that pass, unchanged and no
   * more of them than there were; with no search and no status every
   * project passes.
   */
  lemma FilteredMeaning(projects: seq<Project>, f: Filters)
    ensures |Filtered(projects, f)| <= |projects|
    ensures forall p :: p in Filtered(projects, f) <==> p in projects && MatchesFilters(p, f)
    ensures f.search == "" && f.status == "" ==> Filtered(projects, f) == projects
  {
    var keep := p => MatchesFilters(p, f);
    forall p ensures p in Seqs.Filter(projects, keep) <==> p in projects && keep(p) {
      Seqs.FilterMembers(projects, keep, p);
    }
    if f.search == "" && f.status == "" {
      Seqs.FilterAll(projects, keep);
    }
  }

  // ------------------------------------------------------------ the sort orders

  /** Code-point order on strings: `s` comes no later than `t`. */
  predicate LexLe(s: string, t: string)
    decreases |s|
  {
    s == [] || (t != [] && (s[0] < t[0] || (s[0] == t[0] && LexLe(s[1..], t[1..]))))
  }

  lemma {:induction false} LexLeTotal(s: string, t: string)
    ensures LexLe(s, t) || LexLe(t, s)
    decreases |s|
  {
    if s != [] && t != [] && s[0] == t[0] {
      LexLeTotal(s[1..], t[1..]);
    }
  }

  lemma {:induction false} LexLeTransitive(s: string, t: string, u: string)
    requires LexLe(s, t) && LexLe(t, u)
    ensures LexLe(s, u)
    decreases |s|
  {
    if s != [] && s[0] == t[0] && t[0] == u[0] {
      LexLeTransitive(s[1..], t[1..], u[1..]);
    }
  }

  /**
   * Whether the comparator of `sortBy` lets `a` stay before `b` (it returns
   * at most 0): names ascending, task counts and progress descending, and
   * otherwise creation time newest first.
   */
  function Precedes(sortBy: string): (Project, Project) -> bool
  {
    (a: Project, b: Project) =>
      if sortBy == "name" then LexLe(a.name, b.name)
      else if sortBy == "task_count" then a.taskCount >= b.taskCount
      else if sortBy == "progress" then a.progressPercentage >= b.progressPercentage
      else a.createdAt >= b.createdAt
  }

  /** Any two elements are comparable one way or the other. */
  ghost predicate Total<T(!new)>(le: (T, T) -> bool)
  {
    forall x, y :: le(x, y) || le(y, x)
  }

  ghost predicate Transitive<T(!new)>(le: (T, T) -> bool)
  {
    forall x, y, z :: le(x, y) && le(y, z) ==> le(x, z)
  }

  /** Each sort order is a total preorder. */
  lemma PrecedesIsOrder(sortBy: string)
    ensures Total(Precedes(sortBy)) && Transitive(Precedes(sortBy))
  {
    var le := Precedes(sortBy);
    forall x, y ensures le(x, y) || le(y, x) {
      LexLeTotal(x.name, y.name);
    }
    forall x, y, z | le(x, y) && le(y, z) ensures le(x, z) {
      if sortBy == "name" {
        LexLeTransitive(x.name, y.name, z.name);
      }
    }
  }

  /** Each element may precede the next. */
  predicate Adjacent<T>(s: seq<T>, le: (T, T) -> bool)
  {
    forall k :: 0 < k < |s| ==> le(s[k - 1], s[k])
  }

  /** Under a transitive order, neighbours in order put every pair in order. */
  lemma {:induction false} AdjacentOrdersAll<T(!new)>(s: seq<T>, le: (T, T) -> bool)
    requires Transitive(le) && Adjacent(s, le)
    ensures forall k, l :: 0 <= k < l < |s| ==> le(s[k], s[l])
    decreases |s|
  {
    if |s| > 1 {
      var init := s[..|s| - 1];
      assert Adjacent(init, le) by {
        forall k | 0 < k < |init| ensures le(init[k - 1], init[k]) {
          assert init[k - 1] == s[k - 1] && init[k] == s[k];
        }
      }
      AdjacentOrdersAll(init, le);
      forall k, l | 0 <= k < l < |s| ensures le(s[k], s[l]) {
        if l < |s| - 1 {
          assert s[k] == init[k] && s[l] == init[l];
        } else if k < l - 1 {
          assert s[k] == init[k] && s[l - 1] == init[l - 1];
        }
      }
    }
  }

  lemma AdjacentCons<T>(x: T, s: seq<T>, le: (T, T) -> bool)
    requires Adjacent(s, le) && (|s| > 0 ==> le(x, s[0]))
    ensures Adjacent([x] + s, le)
  {
    var r := [x] + s;
    forall k | 0 < k < |r| ensures le(r[k - 1], r[k]) {
      if k > 1 {
        assert r[k - 1] == s[k - 2] && r[k] == s[k - 1];
      }
    }
  }

  lemma AdjacentJoin<T>(s: seq<T>, j: nat, le: (T, T) -> bool)
    requires 0 < j < |s| && Adjacent(s[..j], le) && Adjacent(s[j..], le) && le(s[j - 1], s[j])
    ensures Adjacent(s, le)
  {
    forall k | 0 < k < |s| ensures le(s[k - 1], s[k]) {
      if k < j {
        assert s[k - 1] == s[..j][k - 1] && s[k] == s[..j][k];
      } else if k > j {
        assert s[k - 1] == s[j..][k - 1 - j] && s[k] == s[j..][k - j];
      }
    }
  }

  // ------------------------------------------------------------ sorting in place

  /** One step of `Insert`: the element at `j` moves one place left, past an element it must precede. */
  method SwapDown<T(!new)>(a: array<T>, i: nat, j: nat, le: (T, T) -> bool)
    requires Total(le)
    requires 0 < j <= i < a.Length && !le(a[j - 1], a[j])
    requires Adjacent(a[..j], le) && Adjacent(a[j..i + 1], le)
    requires j < i ==> le(a[j - 1], a[j + 1])
    modifies a
    ensures Adjacent(a[..j - 1], le) && Adjacent(a[j - 1..i + 1], le)
    ensures 0 < j - 1 < i ==> le(a[j - 2], a[j])
    ensures a[i + 1..] == old(a[i + 1..])
    ensures multiset(a[..]) == multiset(old(a[..]))
  {
    ghost var before := a[..];
    a[j - 1], a[j] := a[j], a[j - 1];
    assert a[..] == before[j - 1 := before[j]][j := before[j - 1]];
    SwappedInOrder(before, a[..], i, j, le);
  }

  /** The facts `SwapDown` promises, for the sequence with positions j - 1 and j exchanged. */
  lemma SwappedInOrder<T(!new)>(before: seq<T>, after: seq<T>, i: nat, j: nat, le: (T, T) -> bool)
    requires Total(le)
    requires 0 < j <= i < |before| && !le(before[j - 1], before[j])
    requires Adjacent(before[..j], le) && Adjacent(before[j..i + 1], le)
    requires j < i ==> le(before[j - 1], before[j + 1])
    requires after == before[j - 1 := before[j]][j := before[j - 1]]
    ensures Adjacent(after[..j - 1], le) && Adjacent(after[j - 1..i + 1], le)
    ensures 0 < j - 1 < i ==> le(after[j - 2], after[j])
    ensures after[i + 1..] == before[i + 1..]
    ensures multiset(after) == multiset(before)
  {
    assert le(before[j], before[j - 1]);
    assert before[j..i + 1] == [before[j]] + before[j + 1..i + 1];
    AdjacentCons(before[j - 1], before[j + 1..i + 1], le);
    AdjacentCons(before[j], [before[j - 1]] + before[j + 1..i + 1], le);
    assert after[j - 1..i + 1] == [before[j]] + ([before[j - 1]] + before[j + 1..i + 1]);
    assert after[..j - 1] == before[..j - 1];
    if 0 < j - 1 {
      assert before[j - 2] == before[..j][j - 2] && before[j - 1] == before[..j][j - 1];
    }
  }

  /** Moves `a[i]` left past every element it must precede, `a[..i]` being in order already. */
  method Insert<T(!new)>(a: array<T>, i: nat, le: (T, T) -> bool)
    requires Total(le)
    requires i < a.Length && Adjacent(a[..i], le)
    modifies a
    ensures Adjacent(a[..i + 1], le)
    ensures a[i + 1..] == old(a[i + 1..])
    ensures multiset(a[..]) == multiset(old(a[..]))
  {
    var j := i;
    while j > 0 && !le(a[j - 1], a[j])
      invariant 0 <= j <= i
      invariant Adjacent(a[..j], le)
      invariant Adjacent(a[j..i + 1], le)
      invariant 0 < j < i ==> le(a[j - 1], a[j + 1])
      invariant a[i + 1..] == old(a[i + 1..])
      invariant multiset(a[..]) == multiset(old(a[..]))
    {
      SwapDown(a, i, j, le);
      j := j - 1;
    }
    if 0 < j < i + 1 {
      AdjacentJoin(a[..i + 1], j, le);
    }
    assert a[..i + 1][j..] == a[j..i + 1];
  }

  /** `array.sort(compare)`: the same elements, each one allowed to precede the next. */
  method Sort<T(!new)>(a: array<T>, le: (T, T) -> bool)
    requires Total(le)
    modifies a
    ensures Adjacent(a[..], le)
    ensures multiset(a[..]) == multiset(old(a[..]))
  {
    var i := 0;
    while i < a.Length
      invariant 0 <= i <= a.Length
      invariant Adjacent(a[..i], le)
      invariant multiset(a[..]) == multiset(old(a[..]))
    {
      Insert(a, i, le);
      i := i + 1;
    }
    assert a[..a.Length] == a[..];
  }

  /**
   * `filteredAndSortedProjects`: the projects passing the filters, in the
   * order `sortBy` asks for, so that every project may precede each one
   * after it.
   */
  method FilteredAndSortedProjects(projects: seq<Project>, f: Filters) returns (result: array<Project>)
    ensures fresh(result)
    ensures multiset(result[..]) == multiset(Filtered(projects, f))
    ensures forall k, l :: 0 <= k < l < result.Length ==> Precedes(f.sortBy)(result[k], result[l])
  {
    var filtered := Filtered(projects, f);
    result := new Project[|filtered|](k requires 0 <= k < |filtered| => filtered[k]);
    assert result[..] == filtered;
    PrecedesIsOrder(f.sortBy);
    Sort(result, Precedes(f.sortBy));
    AdjacentOrdersAll(result[..], Precedes(f.sortBy));
  }
}
