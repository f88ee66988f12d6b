/**
 * hackathon-fe/src/components/tasks/team-members.tsx: the avatar initials
 * shown for each team member.
 */
module TeamMembers {
  import Text

  /** JavaScript `s.charAt(0)`: the first character, or `""` for an empty string. */
  function FirstChar(s: string): (r: string)
    ensures |r| <= 1
    ensures |s| > 0 ==> r == [s[0]]
  {
    if |s| > 0 then s[..1] else ""
  }

  /**
   * `getInitials`: split the name at single spaces; with two or more pieces,
   * the first characters of the first and the last piece, otherwise the first
   * character of the name, upper-cased.
   */
  function Initials(name: string): (r: string)
    ensures |r| <= 2
    ensures name == "" ==> r == ""
  {
    var names := Text.Split(name, {' '});
    if |names| >= 2 then Text.Upper(FirstChar(names[0]) + FirstChar(names[|names| - 1]))
    else Text.Upper(FirstChar(name))
  }

  /** A one-word name gives its first character, upper-cased. */
  lemma OneWordInitial(word: string)
    requires |word| > 0 && Text.Avoids(word, {' '})
    ensures Initials(word) == [Text.UpperChar(word[0])]
  {
    Text.SplitNoSeparator(word, {' '});
  }

  /** A name of two space-free words gives the upper-cased first letters of both. */
  lemma TwoWordInitials(first: string, last: string)
    requires |first| > 0 && Text.Avoids(first, {' '})
    requires |last| > 0 && Text.Avoids(last, {' '})
    ensures Initials(first + " " + last) == [Text.UpperChar(first[0]), Text.UpperChar(last[0])]
  {
    Text.SplitAt(first, ' ', last, {' '});
    Text.SplitNoSeparator(last, {' '});
  }

  /**
   * With three or more words only the first and the last count: the middle
   * name does not show.
   */
  lemma MiddleNameSkipped(first: string, middle: string, last: string)
    requires |first| > 0 && Text.Avoids(first, {' '})
    requires Text.Avoids(middle, {' '})
    requires |last| > 0 && Text.Avoids(last, {' '})
    ensures Initials(first + " " + middle + " " + last) == Initials(first + " " + last)
  {
    var three := first + " " + middle + " " + last;
    var two := first + " " + last;
    Text.SplitNoSeparator(last, {' '});
    Text.SplitAt(middle, ' ', last, {' '});
    assert three == first + [' '] + (middle + [' '] + last);
    Text.SplitAt(first, ' ', middle + [' '] + last, {' '});
    assert Text.Split(three, {' '}) == [first, middle, last];
    assert two == first + [' '] + last;
    Text.SplitAt(first, ' ', last, {' '});
    assert Text.Split(two, {' '}) == [first, last];
  }

  /**
   * A leading space makes the first piece empty, so only the last word's
   * initial shows: `" Ann Lee"` gives `"L"`.
   */
  lemma LeadingSpaceDropsFirst(first: string, last: string)
    requires Text.Avoids(first, {' '})
    requires |last| > 0 && Text.Avoids(last, {' '})
    ensures Initials(" " + first + " " + last) == [Text.UpperChar(last[0])]
  {
    Text.SplitAt(first, ' ', last, {' '});
    Text.SplitNoSeparator(last, {' '});
    assert " " + first + " " + last == "" + [' '] + (first + [' '] + last);
    Text.SplitAt("", ' ', first + [' '] + last, {' '});
  }
}
