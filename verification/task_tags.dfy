/**
 * django_project/apps/tasks/templatetags/task_tags.py: the two template
 * filters of the task pages.
 */
module TaskTags {
  /**
   * `get_item`: the dictionary's value for the key, or an empty list when
   * the key is missing. The dictionaries it is used on map keys to lists.
   */
  function GetItem<K, V>(dictionary: map<K, seq<V>>, key: K): (r: seq<V>)
    ensures key in dictionary ==> r == dictionary[key]
    ensures key !in dictionary ==> r == []
  {
    if key in dictionary then dictionary[key] else []
  }

  /** A missing key and a key holding an empty list look the same to the template. */
  lemma GetItemEmpty<K, V>(dictionary: map<K, seq<V>>, key: K)
    ensures GetItem(dictionary, key) == [] <==> key !in dictionary || dictionary[key] == []
  {
  }

  /** The Bootstrap colour names the filter can produce. */
  const Colors: set<string> := {"secondary", "primary", "warning", "success", "danger"}

  /** `status_color`: the Bootstrap colour of a task status, `secondary` for any other value. */
  function StatusColor(status: string): (r: string)
    ensures r in Colors
    ensures status == "in_progress" ==> r == "primary"
    ensures status == "review" ==> r == "warning"
    ensures status == "completed" ==> r == "success"
    ensures status == "cancelled" ==> r == "danger"
  {
    var mapping := map["new" := "secondary", "in_progress" := "primary", "review" := "warning",
                       "completed" := "success", "cancelled" := "danger"];
    if status in mapping then mapping[status] else "secondary"
  }

  /**
   * Every colour but `secondary` belongs to exactly one status; `secondary`
   * is shared by `new` and every unknown status.
   */
  lemma StatusColorInverse(status: string)
    ensures StatusColor(status) == "secondary" <==> status !in {"in_progress", "review", "completed", "cancelled"}
    ensures StatusColor(status) == "primary" <==> status == "in_progress"
    ensures StatusColor(status) == "warning" <==> status == "review"
    ensures StatusColor(status) == "success" <==> status == "completed"
    ensures StatusColor(status) == "danger" <==> status == "cancelled"
  {
  }
}
