/**
 * Tasking_project/django_project/static/js/custom.js: the page helpers with
 * logic of their own. `getCookie` reads a value out of the `Cookie` header
 * string (`document.cookie`, the `cookie-string` of section 4.2.1 of
 * RFC 6265), `validateForm` marks the required fields of a form, and
 * `animateValue` keeps the `/…` part of a counter's text while the number
 * counts up.
 */
module CustomJs {
  import opened Common
  import Text
  import Seqs

  // ------------------------------------------------------------ getCookie

  /** A piece of the cookie string, trimmed, starts with `name=`. */
  predicate Matches(piece: string, name: string)
  {
    Text.StartsWith(Text.Strip(piece), name + "=")
  }

  /** The test `getCookie` applies to each piece. */
  function MatchesName(name: string): string -> bool
  {
    piece => Matches(piece, name)
  }

  /**
   * What `getCookie(name)` returns for the cookie string `cookie`: nothing
   * for an empty string; otherwise the decoded text after `name=` in the
   * first `;`-separated piece that starts with it once trimmed.
   * `decodeURIComponent` is the parameter `decode`.
   */
  function CookieValue(cookie: string, name: string, decode: string -> string): Option<string>
  {
    if cookie == "" then None
    else
      var pieces := Text.Split(cookie, {';'});
      match Seqs.FirstIndex(pieces, MatchesName(name))
      case None => None
      case Some(i) => Some(decode(Text.Strip(pieces[i])[|name| + 1..]))
  }

  /** JavaScript's `s.substring(0, n)`: at most the first `n` characters. */
  function Prefix(s: string, n: nat): (r: string)
    ensures r == s[..if n < |s| then n else |s|]
  {
    if n < |s| then s[..n] else s
  }

  /** The text after `name=` in a piece that matches `name`. */
  method PieceValue(cookie: string, name: string) returns (value: Option<string>)
    ensures value.Some? <==> Matches(cookie, name)
    ensures value.Some? ==> value.value == Text.Strip(cookie)[|name| + 1..]
  {
    var piece := Text.Strip(cookie);
    if Prefix(piece, |name| + 1) == name + "=" {
      value := Some(piece[|name| + 1..]);
    } else {
      value := None;
    }
  }

  /** `getCookie`: scans the pieces in order and stops at the first match. */
  method GetCookie(cookie: string, name: string, decode: string -> string) returns (value: Option<string>)
    ensures value == CookieValue(cookie, name, decode)
    ensures cookie == "" ==> value.None?
  {
    value := None;
    if cookie != "" {
      var cookies := Text.Split(cookie, {';'});
      var i := 0;
      while i < |cookies|
        invariant 0 <= i <= |cookies|
        invariant forall j :: 0 <= j < i ==> !MatchesName(name)(cookies[j])
      {
        var found := PieceValue(cookies[i], name);
        if found.Some? {
          value := Some(decode(found.value));
          Seqs.FirstIndexAt(cookies, MatchesName(name), i);
          return;
        }
        assert !MatchesName(name)(cookies[i]);
        i := i + 1;
      }
      Seqs.FirstIndexNone(cookies, MatchesName(name));
    }
  }

  /** A cookie name or value as section 4.1.1 of RFC 6265 allows it: no `;`, `=` in names, or whitespace. */
  predicate IsCookieName(s: string) { Text.Avoids(s, Text.Whitespace + {';', '='}) }
  predicate IsCookieValue(s: string) { Text.Avoids(s, Text.Whitespace + {';'}) }

  /** One `name=value` pair of a cookie string. */
  function PairText(p: (string, string)): string
  {
    p.0 + "=" + p.1
  }

  /** The cookie string a browser builds from its pairs: `name=value` joined by `"; "`. */
  function CookieString(pairs: seq<(string, string)>): string
  {
    Text.Join(Seqs.Map(pairs, PairText), "; ")
  }

  /**
   * Reading a cookie string built from well-formed pairs finds a value exactly
   * when some pair has the name, and then it is the decoded value of the first
   * such pair: a longer name such as `csrftokenX` never answers for
   * `csrftoken`.
   */
  lemma GetCookieFindsFirstPair(pairs: seq<(string, string)>, name: string, decode: string -> string)
    requires forall k :: 0 <= k < |pairs| ==> IsCookieName(pairs[k].0) && IsCookieValue(pairs[k].1)
    requires '=' !in name
    ensures CookieValue(CookieString(pairs), name, decode).Some? <==> exists k :: 0 <= k < |pairs| && pairs[k].0 == name
    ensures forall k :: 0 <= k < |pairs| && pairs[k].0 == name && (forall j :: 0 <= j < k ==> pairs[j].0 != name)
              ==> CookieValue(CookieString(pairs), name, decode) == Some(decode(pairs[k].1))
  {
    if |pairs| > 0 {
      CookiePieces(pairs);
      var pieces := Text.Split(CookieString(pairs), {';'});
      forall k | 0 <= k < |pairs|
        ensures MatchesName(name)(pieces[k]) <==> pairs[k].0 == name
        ensures pairs[k].0 == name ==> Text.Strip(pieces[k])[|name| + 1..] == pairs[k].1
      {
        PairMatches(pairs[k], name);
      }
      var first := Seqs.FirstIndex(pieces, MatchesName(name));
      if first.Some? {
        assert pairs[first.value].0 == name;
      }
      forall k | 0 <= k < |pairs| && pairs[k].0 == name && (forall j :: 0 <= j < k ==> pairs[j].0 != name)
        ensures first == Some(k)
      {
        Seqs.FirstIndexAt(pieces, MatchesName(name), k);
      }
    }
  }

  /** The pieces of a cookie string built from well-formed pairs strip to the pairs' texts. */
  lemma CookiePieces(pairs: seq<(string, string)>)
    requires |pairs| > 0
    requires forall k :: 0 <= k < |pairs| ==> IsCookieName(pairs[k].0) && IsCookieValue(pairs[k].1)
    ensures CookieString(pairs) != ""
    ensures |Text.Split(CookieString(pairs), {';'})| == |pairs|
    ensures forall k :: 0 <= k < |pairs| ==> Text.Strip(Text.Split(CookieString(pairs), {';'})[k]) == PairText(pairs[k])
  {
    var texts := Seqs.Map(pairs, PairText);
    forall k | 0 <= k < |texts| ensures Text.Avoids(texts[k], {';'}) {
      PairAvoids(pairs[k]);
    }
    SplitSpaced(texts);
    var pieces := Text.Split(CookieString(pairs), {';'});
    forall k | 0 <= k < |pairs| ensures Text.Strip(pieces[k]) == PairText(pairs[k]) {
      PieceStrips(pairs[k], k > 0, pieces[k]);
    }
    assert |PairText(pairs[0])| > 0;
  }

  lemma PairAvoids(p: (string, string))
    requires IsCookieName(p.0) && IsCookieValue(p.1)
    ensures Text.Avoids(PairText(p), {';'})
  {
    var t := PairText(p);
    forall j | 0 <= j < |t| ensures t[j] != ';' {
      if j < |p.0| {
        assert t[j] == p.0[j];
      } else if j > |p.0| {
        assert t[j] == p.1[j - |p.0| - 1];
      }
    }
  }

  /** A piece of a cookie string, with or without its leading space, strips to its pair. */
  lemma PieceStrips(p: (string, string), spaced: bool, piece: string)
    requires IsCookieName(p.0) && IsCookieValue(p.1)
    requires piece == if spaced then " " + PairText(p) else PairText(p)
    ensures Text.Strip(piece) == PairText(p)
  {
    var t := PairText(p);
    assert t[0] !in Text.Whitespace by {
      if |p.0| > 0 {
        assert t[0] == p.0[0];
      }
    }
    assert t[|t| - 1] !in Text.Whitespace by {
      if |p.1| > 0 {
        assert t[|t| - 1] == p.1[|p.1| - 1];
      }
    }
    if spaced {
      assert piece[1..] == t;
      assert Text.LeadingCount(piece, Text.Whitespace) == 1;
    }
    assert Text.TrimStart(piece, Text.Whitespace) == t;
    assert Text.TrailingCount(t, Text.Whitespace) == 0;
  }

  /** A pair's text starts with `name=` exactly when the pair's name is `name`. */
  lemma PairMatches(p: (string, string), name: string)
    requires IsCookieName(p.0)
    requires '=' !in name
    ensures Text.StartsWith(PairText(p), name + "=") <==> p.0 == name
    ensures p.0 == name ==> PairText(p)[|name| + 1..] == p.1
  {
    var t := PairText(p);
    if Text.StartsWith(t, name + "=") {
      assert forall j :: 0 <= j < |name| ==> t[j] == name[j];
      assert t[|name|] == '=';
      assert forall j :: 0 <= j < |p.0| ==> t[j] == p.0[j];
      assert t[|p.0|] == '=';
      assert |p.0| == |name|;
      assert t[..|name|] == p.0;
    }
    if p.0 == name {
      assert t[..|name| + 1] == name + "=";
    }
  }

  /**
   * Splitting texts joined by `"; "` at `;` gives the first text and then
   * each following text with its leading space.
   */
  lemma {:induction false} SplitSpaced(texts: seq<string>)
    requires |texts| > 0
    requires forall k :: 0 <= k < |texts| ==> Text.Avoids(texts[k], {';'})
    ensures var r := Text.Split(Text.Join(texts, "; "), {';'});
            |r| == |texts| && r[0] == texts[0] && forall k :: 1 <= k < |texts| ==> r[k] == " " + texts[k]
    decreases |texts|
  {
    if |texts| == 1 {
      Text.SplitNoSeparator(texts[0], {';'});
    } else {
      var rest := texts[1..];
      var j := Text.Join(rest, "; ");
      SplitSpaced(rest);
      var inner := Text.Split(j, {';'});
      JoinSpacedCons(texts);
      Text.SplitAt(texts[0], ';', [' '] + j, {';'});
      Text.SplitCons(' ', j, {';'});
      SpacedPieces(texts, inner, Text.Split(Text.Join(texts, "; "), {';'}));
    }
  }

  /** Joining with `"; "` puts `;`, then a space, between the first text and the rest. */
  lemma JoinSpacedCons(texts: seq<string>)
    requires |texts| > 1
    ensures Text.Join(texts, "; ") == texts[0] + [';'] + ([' '] + Text.Join(texts[1..], "; "))
  {
    var j := Text.Join(texts[1..], "; ");
    assert Text.Join(texts, "; ") == texts[0] + "; " + j;
    assert "; " == [';'] + [' '];
  }

  /** The pieces `r` of the first text and the spaced pieces of the rest are the first text, then the spaced rest. */
  lemma SpacedPieces(texts: seq<string>, inner: seq<string>, r: seq<string>)
    requires |texts| > 1 && |inner| == |texts| - 1 && inner[0] == texts[1]
    requires forall k :: 1 <= k < |inner| ==> inner[k] == " " + texts[k + 1]
    requires r == [texts[0]] + ([[' '] + inner[0]] + inner[1..])
    ensures |r| == |texts| && r[0] == texts[0] && forall k :: 1 <= k < |texts| ==> r[k] == " " + texts[k]
  {
    forall k | 1 <= k < |texts| ensures r[k] == " " + texts[k] {
      if k == 1 {
        assert r[k] == [' '] + inner[0];
      } else {
        assert r[k] == inner[k - 1];
      }
    }
  }

  /** With the cookie string `csrftokenX=…`, `getCookie('csrftoken')` finds nothing. */
  lemma LongerNameDoesNotMatch(name: string, extra: string, value: string, decode: string -> string)
    requires IsCookieName(name + extra) && IsCookieValue(value) && |extra| > 0
    ensures CookieValue(CookieString([(name + extra, value)]), name, decode).None?
  {
    assert '=' !in name by {
      forall j | 0 <= j < |name| ensures name[j] != '=' {
        assert name[j] == (name + extra)[j];
      }
    }
    GetCookieFindsFirstPair([(name + extra, value)], name, decode);
  }

  // ------------------------------------------------------------ validateForm

  /** A required field's value is missing when it is empty after trimming. */
  predicate Blank(value: string)
  {
    Text.Strip(value) == ""
  }

  /** The classes of a required field after validation: `is-invalid` added, or removed and `is-valid` added. */
  function Marked(classes: set<string>, value: string): (r: set<string>)
    ensures "is-invalid" in r <==> Blank(value)
    ensures !Blank(value) ==> "is-valid" in r
    ensures Blank(value) ==> ("is-valid" in r <==> "is-valid" in classes)
  {
    if Blank(value) then classes + {"is-invalid"} else classes - {"is-invalid"} + {"is-valid"}
  }

  /** The check of one required field: its new classes, and whether it is blank. */
  method MarkField(classes: set<string>, value: string) returns (marked: set<string>, blank: bool)
    ensures marked == Marked(classes, value) && blank == Blank(value)
  {
    if Text.Strip(value) == "" {
      marked, blank := classes + {"is-invalid"}, true;
    } else {
      marked, blank := classes - {"is-invalid"} + {"is-valid"}, false;
    }
  }

  /**
   * `validateForm`: every required field is marked, and the form is valid
   * exactly when no required field is blank. A blank field keeps an
   * `is-valid` class it had from an earlier validation.
   */
  method ValidateForm(values: seq<string>, classes: array<set<string>>) returns (isValid: bool)
    requires classes.Length == |values|
    modifies classes
    ensures isValid <==> forall k :: 0 <= k < |values| ==> !Blank(values[k])
    ensures isValid <==> Seqs.Count(values, Blank) == 0
    ensures forall k :: 0 <= k < |values| ==> classes[k] == Marked(old(classes[k]), values[k])
  {
    isValid := true;
    for i := 0 to |values|
      invariant isValid <==> forall k :: 0 <= k < i ==> !Blank(values[k])
      invariant forall k :: 0 <= k < i ==> classes[k] == Marked(old(classes[k]), values[k])
      invariant forall k :: i <= k < |values| ==> classes[k] == old(classes[k])
    {
      var marked, blank := MarkField(classes[i], values[i]);
      classes[i] := marked;
      if blank {
        isValid := false;
      }
    }
    BlankCount(values);
  }

  /** No blank value exactly when the blank count is zero. */
  lemma BlankCount(values: seq<string>)
    ensures Seqs.Count(values, Blank) == 0 <==> forall k :: 0 <= k < |values| ==> !Blank(values[k])
  {
    Seqs.CountAll(values, (v: string) => !Blank(v));
    Seqs.CountComplement(values, Blank, (v: string) => !Blank(v));
  }

  // ------------------------------------------------------------ animateValue

  /** A string holding `/` splits into at least two parts at `/`. */
  lemma SlashSplits(s: string)
    requires Text.Contains(s, "/")
    ensures |Text.Split(s, {'/'})| >= 2
  {
    Text.ContainsIff(s, "/");
    var i :| Text.OccursAt(s, "/", i);
    assert s[i] == '/';
    var first := Text.Split(s, {'/'})[0];
    Text.SplitFirstIsPrefix(s, {'/'});
    Text.SplitPiecesAvoid(s, {'/'});
    assert Text.Avoids(first, {'/'});
    assert s[i..i + 1][0] == s[i];
    assert s == first + ['/'] + s[|first| + 1..];
    Text.SplitAt(first, '/', s[|first| + 1..], {'/'});
  }

  /**
   * The text a counter shows for `value`: with a `/` in its original text,
   * the value, `/`, and the original text between the first and second
   * `/`; otherwise the value alone.
   */
  function CounterText(value: int, original: string): string
  {
    if Text.Contains(original, "/") then
      SlashSplits(original);
      Text.IntToString(value) + "/" + Text.Split(original, {'/'})[1]
    else Text.IntToString(value)
  }

  /** After a first `/`, the counter shows the value, `/` and the text up to the next `/`. */
  lemma CounterAfterSlash(value: int, a: string, rest: string)
    requires Text.Avoids(a, {'/'})
    ensures CounterText(value, a + "/" + rest) == Text.IntToString(value) + "/" + Text.Split(rest, {'/'})[0]
  {
    var original := a + "/" + rest;
    assert Text.OccursAt(original, "/", |a|);
    Text.ContainsIff(original, "/");
    assert original == a + ['/'] + rest;
    Text.SplitAt(a, '/', rest, {'/'});
  }

  /**
   * A counter reading `a/b` (or `a/b/c`) counts up as `value/b`; one without
   * a `/` shows the value alone.
   */
  lemma CounterKeepsDenominator(value: int, a: string, b: string, c: Option<string>)
    requires Text.Avoids(a, {'/'}) && Text.Avoids(b, {'/'})
    ensures var original := if c.Some? then a + "/" + b + "/" + c.value else a + "/" + b;
            CounterText(value, original) == Text.IntToString(value) + "/" + b
    ensures CounterText(value, a) == Text.IntToString(value)
  {
    if c.Some? {
      assert a + "/" + b + "/" + c.value == a + "/" + (b + "/" + c.value);
      CounterAfterSlash(value, a, b + "/" + c.value);
      assert b + "/" + c.value == b + ['/'] + c.value;
      Text.SplitAt(b, '/', c.value, {'/'});
    } else {
      CounterAfterSlash(value, a, b);
      Text.SplitNoSeparator(b, {'/'});
    }
    AvoidsNotContains(a, '/');
  }

  /** A string without `c` does not contain it. */
  lemma {:induction false} AvoidsNotContains(s: string, c: char)
    requires Text.Avoids(s, {c})
    ensures !Text.Contains(s, [c])
    decreases |s|
  {
    if |s| > 0 {
      AvoidsNotContains(s[1..], c);
      assert s[..1] == [s[0]];
    }
  }
}
