/**
 * hackathon-fe/src/components/projects/task-table.tsx: the status and
 * priority badges of the project task table and its description preview.
 */
module TaskTable {
  import opened Common
  import Text

  /** A badge: its colour name and its label. */
  datatype Badge = Badge(color: string, caption: string)

  /** `statusConfig`: backend status values followed by the front-end fallbacks. */
  const StatusConfig: map<string, Badge> := map[
    "todo" := Badge("default", "Todo"),
    "in_progress" := Badge("primary", "In Progress"),
    "review" := Badge("warning", "Review"),
    "done" := Badge("success", "Done"),
    "cancelled" := Badge("danger", "Cancelled"),
    "pending" := Badge("default", "Pending"),
    "completed" := Badge("success", "Completed")
  ]

  /** `priorityConfig`. */
  const PriorityConfig: map<string, Badge> := map[
    "low" := Badge("default", "Low"),
    "medium" := Badge("warning", "Medium"),
    "high" := Badge("danger", "High"),
    "urgent" := Badge("danger", "Urgent")
  ]

  /**
   * A reference reading of the labels: underscores become spaces and every
   * word starts with a capital letter.
   */
  function Humanize(s: string): (r: string)
    ensures |r| == |s|
  {
    HumanizeFrom(s, true)
  }

  /** Humanises `s`, where `atWordStart` says whether `s` begins a word. */
  function HumanizeFrom(s: string, atWordStart: bool): (r: string)
    ensures |r| == |s|
  {
    if s == [] then []
    else if s[0] == '_' then [' '] + HumanizeFrom(s[1..], true)
    else [if atWordStart then Text.UpperChar(s[0]) else s[0]] + HumanizeFrom(s[1..], false)
  }

  /** `getStatusBadge`: a configured status shows its badge, any other a grey badge with the raw value or `Unknown`. */
  function StatusBadge(status: string): (b: Badge)
    ensures b.caption != ""
    ensures status !in StatusConfig ==> b.color == "default"
    ensures status !in StatusConfig && status != "" ==> b.caption == status
    ensures status == "" ==> b == Badge("default", "Unknown")
  {
    if status in StatusConfig then StatusConfig[status]
    else Badge("default", if status == "" then "Unknown" else status)
  }

  /**
   * `getPriorityBadge`: a configured priority shows its badge; any other
   * value leaves `config` undefined and reading its colour throws, which is
   * `None` here.
   */
  function PriorityBadge(priority: string): (b: Option<Badge>)
    ensures b.Some? <==> priority in {"low", "medium", "high", "urgent"}
  {
    if priority in PriorityConfig then Some(PriorityConfig[priority]) else None
  }

  /** Inside a word (no underscore) only the first character may change. */
  lemma {:induction false} HumanizeWord(w: string, atWordStart: bool)
    requires Text.Avoids(w, {'_'})
    ensures !atWordStart ==> HumanizeFrom(w, atWordStart) == w
    ensures atWordStart && |w| > 0 ==> HumanizeFrom(w, atWordStart) == [Text.UpperChar(w[0])] + w[1..]
    decreases |w|
  {
    if |w| > 0 {
      HumanizeWord(w[1..], false);
    }
  }

  /** An underscore after a word becomes a space and starts a new word. */
  lemma {:induction false} HumanizeUnderscore(a: string, b: string, atWordStart: bool)
    requires Text.Avoids(a, {'_'})
    ensures HumanizeFrom(a + "_" + b, atWordStart) == HumanizeFrom(a, atWordStart) + " " + HumanizeFrom(b, true)
    decreases |a|
  {
    if |a| > 0 {
      HumanizeUnderscore(a[1..], b, false);
      assert (a + "_" + b)[1..] == a[1..] + "_" + b;
    } else {
      assert a + "_" + b == "_" + b;
    }
  }

  /** The label of a one-word key: its first letter upper-cased. */
  lemma OneWordLabel(key: string, caption: string)
    requires |key| > 0 && Text.Avoids(key, {'_'})
    requires caption == [Text.UpperChar(key[0])] + key[1..]
    ensures caption == Humanize(key)
  {
    HumanizeWord(key, true);
  }

  /** The label of a two-word key: both words capitalised, joined by a space. */
  lemma TwoWordLabel(key: string, first: string, second: string, caption: string)
    requires |first| > 0 && Text.Avoids(first, {'_'})
    requires |second| > 0 && Text.Avoids(second, {'_'})
    requires key == first + "_" + second
    requires caption == [Text.UpperChar(first[0])] + first[1..] + " " + [Text.UpperChar(second[0])] + second[1..]
    ensures caption == Humanize(key)
  {
    HumanizeUnderscore(first, second, true);
    HumanizeWord(first, true);
    HumanizeWord(second, true);
  }

  /** Every configured status label is the humanised status value. */
  lemma StatusLabelsAreHumanized(status: string)
    requires status in StatusConfig
    ensures StatusBadge(status).caption == Humanize(status)
  {
    if status == "in_progress" {
      InProgressLabel();
    } else if status == "todo" {
      TodoLabel();
    } else if status == "review" {
      ReviewLabel();
    } else if status == "done" {
      DoneLabel();
    } else if status == "cancelled" {
      CancelledLabel();
    } else if status == "pending" {
      PendingLabel();
    } else {
      CompletedLabel();
    }
  }

  /** The configured label of `status` is `caption`, the status with its first letter upper-cased. */
  lemma ConfiguredOneWord(status: string, caption: string)
    requires status in StatusConfig && StatusConfig[status].caption == caption
    requires |status| > 0 && Text.Avoids(status, {'_'})
    requires caption == [Text.UpperChar(status[0])] + status[1..]
    ensures StatusConfig[status].caption == Humanize(status)
  {
    OneWordLabel(status, caption);
  }

  /** The label of `in_progress` is its humanised value, the two words capitalised. */
  lemma InProgressLabel()
    ensures "in_progress" in StatusConfig && StatusConfig["in_progress"].caption == Humanize("in_progress")
  {
    var key, caption := "in_progress", StatusConfig["in_progress"].caption;
    assert key == "in" + "_" + "progress";
    TwoWordLabel(key, "in", "progress", caption);
  }

  /** The label of `todo` is its humanised value. */
  lemma TodoLabel()
    ensures "todo" in StatusConfig && StatusConfig["todo"].caption == Humanize("todo")
  {
    ConfiguredOneWord("todo", "Todo");
  }

  /** The label of `review` is its humanised value. */
  lemma ReviewLabel()
    ensures "review" in StatusConfig && StatusConfig["review"].caption == Humanize("review")
  {
    ConfiguredOneWord("review", "Review");
  }

  /** The label of `done` is its humanised value. */
  lemma DoneLabel()
    ensures "done" in StatusConfig && StatusConfig["done"].caption == Humanize("done")
  {
    ConfiguredOneWord("done", "Done");
  }

  /** The label of `cancelled` is its humanised value. */
  lemma CancelledLabel()
    ensures "cancelled" in StatusConfig && StatusConfig["cancelled"].caption == Humanize("cancelled")
  {
    ConfiguredOneWord("cancelled", "Cancelled");
  }

  /** The label of `pending` is its humanised value. */
  lemma PendingLabel()
    ensures "pending" in StatusConfig && StatusConfig["pending"].caption == Humanize("pending")
  {
    ConfiguredOneWord("pending", "Pending");
  }

  /** The label of `completed` is its humanised value. */
  lemma CompletedLabel()
    ensures "completed" in StatusConfig && StatusConfig["completed"].caption == Humanize("completed")
  {
    ConfiguredOneWord("completed", "Completed");
  }

  /** Every configured priority label is the humanised priority value. */
  lemma PriorityLabelsAreHumanized(priority: string)
    requires priority in PriorityConfig
    ensures PriorityBadge(priority).Some? && PriorityBadge(priority).value.caption == Humanize(priority)
  {
    if priority == "low" {
      OneWordLabel(priority, "Low");
    } else if priority == "medium" {
      OneWordLabel(priority, "Medium");
    } else if priority == "high" {
      OneWordLabel(priority, "High");
    } else {
      OneWordLabel(priority, "Urgent");
    }
  }

  const PreviewLength: nat := 50

  /** The description preview: more than 50 characters are cut to 50 followed by `...`. */
  function Preview(description: string): (r: string)
    ensures |r| <= PreviewLength + 3
    ensures |description| <= PreviewLength ==> r == description
    ensures |description| > PreviewLength ==>
              Text.StartsWith(r, description[..PreviewLength]) && Text.EndsWith(r, "...") && |r| == PreviewLength + 3
  {
    if |description| > PreviewLength then description[..PreviewLength] + "..." else description
  }

  /** Previewing a preview changes nothing: a cut preview is cut again at the same place. */
  lemma PreviewIdempotent(description: string)
    ensures Preview(Preview(description)) == Preview(description)
  {
    if |description| > PreviewLength {
      var p := Preview(description);
      assert p[..PreviewLength] == description[..PreviewLength];
    }
  }
}
