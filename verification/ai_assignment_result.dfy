/**
 * hackathon-fe/src/components/projects/ai-assignment-result.tsx: what the AI
 * assignment result card shows. The card is modelled as the data it
 * renders, not as markup.
 */
module AiAssignmentResult {
  import opened Common
  import Text
  import Seqs
  import ProjectDetail
  import Ratios

  /** One entry of `result.assignments`. */
  datatype Assignment = Assignment(taskId: string, userId: string, userName: string,
                                   isAssigned: bool, error: Option<string>)

  /** `result.analysis`: only the lengths of its two arrays are shown; `None` is a missing array. */
  datatype Analysis = Analysis(taskAnalysisLength: Option<nat>, userTaskMappingLength: Option<nat>)

  /** The `result` prop. */
  datatype AssignmentResult = AssignmentResult(analysis: Option<Analysis>,
                                               assignments: Option<seq<Assignment>>,
                                               error: Option<string>)

  /** The counts of the "AI Analysis Summary" panel. */
  datatype Summary = Summary(tasksAnalyzed: nat, assignmentsMade: nat)

  /** The card: nothing, the failure card, or the success card with its lists and figures. */
  datatype Card =
    | NoCard
    | FailedCard(message: string)
    | SuccessCard(successful: seq<Assignment>, failed: seq<Assignment>, total: nat,
                  successRate: real, shownPercent: int, headline: string,
                  summary: Option<Summary>)

  function IsSuccessful(a: Assignment): bool { a.isAssigned }
  function IsFailed(a: Assignment): bool { !a.isAssigned }

  /** `(successful / total) * 100`, or 0 without assignments; exact arithmetic stands for the float. */
  function SuccessRate(successful: nat, total: nat): (r: real)
    ensures total == 0 ==> r == 0.0
    ensures successful <= total ==> 0.0 <= r <= 100.0
    ensures total > 0 ==> (r == 100.0 <==> successful == total)
  {
    if total > 0 then
      Ratios.UnitShare(successful as real, total as real);
      (successful as real / total as real) * 100.0
    else 0.0
  }

  /** `x?.length || 0` for the two analysis arrays. */
  function SummaryOf(an: Analysis): (s: Summary)
    ensures an.taskAnalysisLength.Some? ==> s.tasksAnalyzed == an.taskAnalysisLength.value
    ensures an.taskAnalysisLength.None? ==> s.tasksAnalyzed == 0
    ensures an.userTaskMappingLength.Some? ==> s.assignmentsMade == an.userTaskMappingLength.value
    ensures an.userTaskMappingLength.None? ==> s.assignmentsMade == 0
  {
    Summary(if an.taskAnalysisLength.Some? then an.taskAnalysisLength.value else 0,
            if an.userTaskMappingLength.Some? then an.userTaskMappingLength.value else 0)
  }

  /** The success card's headline, `<successful> of <total> tasks assigned successfully`. */
  function Headline(successful: nat, total: nat): string
  {
    Text.NatToString(successful) + " of " + Text.NatToString(total) + " tasks assigned successfully"
  }

  /** The card the component renders for `result` (`None` is a falsy prop). */
  function CardFor(result: Option<AssignmentResult>): (c: Card)
    ensures result.None? ==> c == NoCard
    ensures result.Some? && result.value.error.Some? && result.value.error.value != ""
            ==> c == FailedCard(result.value.error.value)
    ensures c.SuccessCard? <==> result.Some? && (result.value.error.None? || result.value.error.value == "")
  {
    if result.None? then NoCard
    else
      var res := result.value;
      if res.error.Some? && res.error.value != "" then FailedCard(res.error.value)
      else
        var assignments := if res.assignments.Some? then res.assignments.value else [];
        var ok := Seqs.Filter(assignments, IsSuccessful);
        var bad := Seqs.Filter(assignments, IsFailed);
        SuccessCard(ok, bad, |assignments|,
                    SuccessRate(|ok|, |assignments|),
                    ProjectDetail.Percent(|ok|, |assignments|),
                    Headline(|ok|, |assignments|),
                    if res.analysis.Some? then Some(SummaryOf(res.analysis.value)) else None)
  }

  /**
   * On the success card the successful and failed lists partition the
   * assignments: each holds exactly the entries with and without
   * `assigned`, and their sizes add up to the total the headline shows.
   * A missing assignments array counts as empty, with a rate of 0.
   */
  lemma {:induction false} SuccessCardPartition(result: AssignmentResult, a: Assignment)
    requires result.error.None? || result.error.value == ""
    ensures var c := CardFor(Some(result));
            var all := if result.assignments.Some? then result.assignments.value else [];
            && c.total == |all|
            && |c.successful| + |c.failed| == c.total
            && (a in c.successful <==> a in all && a.isAssigned)
            && (a in c.failed <==> a in all && !a.isAssigned)
            && c.headline == Headline(|c.successful|, |all|)
            && 0.0 <= c.successRate <= 100.0
            && (c.total == 0 ==> c.successRate == 0.0 && c.shownPercent == 0)
  {
    var all := if result.assignments.Some? then result.assignments.value else [];
    Seqs.FilterMembers(all, IsSuccessful, a);
    Seqs.FilterMembers(all, IsFailed, a);
    Seqs.FilterLength(all, IsSuccessful);
    Seqs.FilterLength(all, IsFailed);
    Seqs.CountComplement(all, IsSuccessful, IsFailed);
  }

  /**
   * The percentage shown beside the progress bar is `Math.round` of the
   * success rate: the whole number within one half of it, 100 exactly when
   * every assignment succeeded.
   */
  lemma {:induction false} ShownPercentRounds(result: AssignmentResult)
    requires result.error.None? || result.error.value == ""
    requires result.assignments.Some? && |result.assignments.value| > 0
    ensures var c := CardFor(Some(result));
            && 2.0 * (c.shownPercent as real) - 1.0 <= 2.0 * c.successRate < 2.0 * (c.shownPercent as real) + 1.0
            && 0 <= c.shownPercent <= 100
            && (c.shownPercent == 100 <== |c.failed| == 0)
  {
    var all := result.assignments.value;
    var c := CardFor(Some(result));
    var s := |c.successful|;
    var n := |all|;
    Seqs.FilterLength(all, IsSuccessful);
    Seqs.FilterLength(all, IsFailed);
    Seqs.CountComplement(all, IsSuccessful, IsFailed);
    ProjectDetail.PercentNearest(s, n);
    var p := c.shownPercent;
    assert 2 * n * p - n <= 200 * s < 2 * n * p + n;
    RateWithinHalf(s, n, p);
  }

  /** Integer bounds on `200 * s` against `n` carry over to the exact rate `s / n * 100`. */
  lemma RateWithinHalf(s: nat, n: nat, p: int)
    requires n > 0
    requires 2 * n * p - n <= 200 * s < 2 * n * p + n
    ensures 2.0 * (p as real) - 1.0 <= 2.0 * SuccessRate(s, n) < 2.0 * (p as real) + 1.0
  {
    var nr, pr, sr := n as real, p as real, s as real;
    Ratios.ProductAsReal(n, p);
    assert 2.0 * ((n * p) as real) - nr <= 200.0 * sr < 2.0 * ((n * p) as real) + nr;
    Ratios.BetweenOverN(2.0 * pr - 1.0, 2.0 * pr + 1.0, 200.0 * sr, nr);
    Ratios.TwicePercent(sr, nr);
  }
}
