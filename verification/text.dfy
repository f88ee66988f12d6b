/**
 * String helpers shared by the Python, TypeScript and JavaScript parts of the model:
 * whitespace trimming, ASCII-and-Vietnamese case mapping, splitting on separator
 * characters, joining, substring search and decimal rendering of naturals.
 */
module Text {

  /** The whitespace characters that `str.strip()`, `String.prototype.trim()` and `\s` remove or match. */
  const Whitespace: set<char> := {' ', '\t', '\n', '\r', '\U{000B}', '\U{000C}'}

  predicate IsSpace(c: char) { c in Whitespace }

  predicate IsDigit(c: char) { '0' <= c <= '9' }

  predicate IsAsciiUpper(c: char) { 'A' <= c <= 'Z' }

  predicate IsAsciiLower(c: char) { 'a' <= c <= 'z' }

  /** A letter as `str.isalpha` sees it, restricted to the Latin blocks Vietnamese and English names use. */
  predicate IsLetter(c: char)
  {
    IsAsciiUpper(c) || IsAsciiLower(c)
    || ('\U{00C0}' <= c <= '\U{00FF}' && c != '\U{00D7}' && c != '\U{00F7}')
    || ('\U{0100}' <= c <= '\U{024F}')
    || ('\U{1E00}' <= c <= '\U{1EFF}')
  }

  /** `\w` of a regular expression: letters, digits and the underscore. */
  predicate IsWordChar(c: char) { IsLetter(c) || IsDigit(c) || c == '_' }

  /** Python's `s.isalpha()`: non-empty and every character a letter. */
  predicate IsAlpha(s: string) { |s| > 0 && forall i :: 0 <= i < |s| ==> IsLetter(s[i]) }

  /** Python's `s.isdigit()`: non-empty and every character a digit. */
  predicate IsDigits(s: string) { |s| > 0 && forall i :: 0 <= i < |s| ==> IsDigit(s[i]) }

  /** Is `c` an upper-case letter of one of the two-case pairs the model maps? */
  predicate HasLower(c: char)
  {
    IsAsciiUpper(c)
    || ('\U{00C0}' <= c <= '\U{00DE}' && c != '\U{00D7}')
    || c == '\U{0102}' || c == '\U{0110}' || c == '\U{0128}' || c == '\U{0168}'
    || c == '\U{01A0}' || c == '\U{01AF}'
    || ('\U{1EA0}' <= c <= '\U{1EF8}' && (c as int) % 2 == 0)
  }

  /** Lower-case mapping of one character (ASCII, Latin-1 and the Vietnamese letters). */
  function LowerChar(c: char): (r: char)
    ensures IsAsciiUpper(c) ==> IsAsciiLower(r)
    ensures !HasLower(c) ==> r == c
  {
    if !HasLower(c) then c
    else if c == '\U{01AF}' then '\U{01B0}'
    else if IsAsciiUpper(c) || c <= '\U{00DE}' then (c as int + 32) as char
    else (c as int + 1) as char
  }

  predicate HasUpper(c: char)
  {
    IsAsciiLower(c)
    || ('\U{00E0}' <= c <= '\U{00FE}' && c != '\U{00F7}')
    || c == '\U{0103}' || c == '\U{0111}' || c == '\U{0129}' || c == '\U{0169}'
    || c == '\U{01A1}' || c == '\U{01B0}'
    || ('\U{1EA1}' <= c <= '\U{1EF9}' && (c as int) % 2 == 1)
  }

  /** Upper-case mapping of one character, the inverse of `LowerChar` on the mapped pairs. */
  function UpperChar(c: char): (r: char)
    ensures IsAsciiLower(c) ==> IsAsciiUpper(r)
    ensures !HasUpper(c) ==> r == c
  {
    if !HasUpper(c) then c
    else if c == '\U{01B0}' then '\U{01AF}'
    else if IsAsciiLower(c) || c <= '\U{00FE}' then (c as int - 32) as char
    else (c as int - 1) as char
  }

  function Lower(s: string): (r: string)
    ensures |r| == |s|
    ensures forall i :: 0 <= i < |s| ==> r[i] == LowerChar(s[i])
  {
    seq(|s|, i requires 0 <= i < |s| => LowerChar(s[i]))
  }

  function Upper(s: string): (r: string)
    ensures |r| == |s|
    ensures forall i :: 0 <= i < |s| ==> r[i] == UpperChar(s[i])
  {
    seq(|s|, i requires 0 <= i < |s| => UpperChar(s[i]))
  }

  /** Lower-casing twice is lower-casing once. */
  lemma {:induction false} LowerIdempotent(s: string)
    ensures Lower(Lower(s)) == Lower(s)
  {
    forall i | 0 <= i < |s| ensures Lower(Lower(s))[i] == Lower(s)[i] {
      var c := s[i];
      assert !HasLower(LowerChar(c));
    }
  }

  /** Lower-casing changes only letters, and into letters. */
  lemma LowerCharOnlyLetters(c: char)
    ensures LowerChar(c) != c ==> IsLetter(c) && IsLetter(LowerChar(c))
  {
  }

  // ---------------------------------------------------------------- trimming

  /** How many leading characters of `s` belong to `cs`. */
  function LeadingCount(s: string, cs: set<char>): (k: nat)
    ensures k <= |s|
    ensures forall j :: 0 <= j < k ==> s[j] in cs
    ensures k < |s| ==> s[k] !in cs
  {
    if |s| > 0 && s[0] in cs then 1 + LeadingCount(s[1..], cs) else 0
  }

  /** How many trailing characters of `s` belong to `cs`. */
  function TrailingCount(s: string, cs: set<char>): (k: nat)
    ensures k <= |s|
    ensures forall j :: |s| - k <= j < |s| ==> s[j] in cs
    ensures k < |s| ==> s[|s| - 1 - k] !in cs
  {
    if |s| > 0 && s[|s| - 1] in cs then 1 + TrailingCount(s[..|s| - 1], cs) else 0
  }

  /** Removes the leading characters of `s` that belong to `cs`. */
  function TrimStart(s: string, cs: set<char>): string
  {
    s[LeadingCount(s, cs)..]
  }

  /** Removes the trailing characters of `s` that belong to `cs`. */
  function TrimEnd(s: string, cs: set<char>): string
  {
    s[..|s| - TrailingCount(s, cs)]
  }

  /** Python's `s.strip(chars)`: both ends trimmed of the characters in `cs`. */
  function StripOf(s: string, cs: set<char>): string
  {
    TrimEnd(TrimStart(s, cs), cs)
  }

  /** Python's `s.strip()` and JavaScript's `s.trim()`. */
  function Strip(s: string): string
  {
    StripOf(s, Whitespace)
  }

  /** A string whose ends are not in `cs` is its own strip. */
  lemma {:induction false} StripOfNoop(s: string, cs: set<char>)
    requires s == [] || (s[0] !in cs && s[|s| - 1] !in cs)
    ensures StripOf(s, cs) == s
  {
    assert TrimStart(s, cs) == s;
  }

  /** The strip is empty exactly when every character is in `cs`. */
  lemma {:induction false} StripOfEmpty(s: string, cs: set<char>)
    ensures StripOf(s, cs) == [] <==> forall k :: 0 <= k < |s| ==> s[k] in cs
  {
    var t := TrimStart(s, cs);
    if t != [] {
      assert t[0] == s[|s| - |t|];
      assert t[0] !in cs;
      assert TrimEnd(t, cs) != [];
    }
  }

  /** Neither end of a stripped string belongs to `cs`. */
  lemma {:induction false} StripOfEnds(s: string, cs: set<char>)
    ensures StripOf(s, cs) == [] || (StripOf(s, cs)[0] !in cs && StripOf(s, cs)[|StripOf(s, cs)| - 1] !in cs)
  {
    var t := TrimStart(s, cs);
    var r := TrimEnd(t, cs);
    if r != [] {
      assert r == t[..|r|];
      assert r[0] == t[0];
    }
  }

  /** A stripped string keeps only characters of the input. */
  lemma {:induction false} StripOfKeeps(s: string, cs: set<char>, avoid: set<char>)
    requires forall i :: 0 <= i < |s| ==> s[i] !in avoid
    ensures forall i :: 0 <= i < |StripOf(s, cs)| ==> StripOf(s, cs)[i] !in avoid
  {
    var t := TrimStart(s, cs);
    var r := TrimEnd(t, cs);
    forall k | 0 <= k < |r| ensures r[k] !in avoid {
      assert r[k] == t[k];
      assert t[k] == s[|s| - |t| + k];
    }
  }

  /** Stripping is idempotent. */
  lemma {:induction false} StripOfIdempotent(s: string, cs: set<char>)
    ensures StripOf(StripOf(s, cs), cs) == StripOf(s, cs)
  {
    StripOfEnds(s, cs);
    StripOfNoop(StripOf(s, cs), cs);
  }

  // ---------------------------------------------------------------- searching

  predicate StartsWith(s: string, prefix: string)
  {
    |prefix| <= |s| && s[..|prefix|] == prefix
  }

  predicate EndsWith(s: string, suffix: string)
  {
    |suffix| <= |s| && s[|s| - |suffix|..] == suffix
  }

  /** `needle` occurs in `s` at position `i`. */
  predicate OccursAt(s: string, needle: string, i: int)
  {
    0 <= i && i + |needle| <= |s| && s[i..i + |needle|] == needle
  }

  /** Substring search (`in` in Python, `includes` in JavaScript). */
  function Contains(s: string, needle: string): (b: bool)
    decreases |s|
  {
    StartsWith(s, needle) || (|s| > 0 && Contains(s[1..], needle))
  }

  /** `Contains` holds exactly when the needle occurs at some position. */
  lemma {:induction false} ContainsIff(s: string, needle: string)
    ensures Contains(s, needle) <==> exists i :: OccursAt(s, needle, i)
    decreases |s|
  {
    if StartsWith(s, needle) {
      assert OccursAt(s, needle, 0);
    } else if |s| > 0 {
      ContainsIff(s[1..], needle);
      if Contains(s[1..], needle) {
        var i :| OccursAt(s[1..], needle, i);
        assert s[i + 1..i + 1 + |needle|] == s[1..][i..i + |needle|];
        assert OccursAt(s, needle, i + 1);
      }
      if exists i :: OccursAt(s, needle, i) {
        var i :| OccursAt(s, needle, i);
        assert i != 0;
        assert s[1..][i - 1..i - 1 + |needle|] == s[i..i + |needle|];
        assert OccursAt(s[1..], needle, i - 1);
      }
    } else {
      assert |needle| > 0;
    }
  }

  /** The empty string occurs in every string. */
  lemma {:induction false} ContainsEmpty(s: string)
    ensures Contains(s, "")
  {
    assert StartsWith(s, "");
  }

  // ---------------------------------------------------------------- splitting and joining

  /** Splits `s` at every character of `seps` (`str.split(c)`, `re.split('[...]', s)`, JavaScript `split(c)`). */
  function Split(s: string, seps: set<char>): (r: seq<string>)
    ensures |r| >= 1
    decreases |s|
  {
    if |s| == 0 then [""]
    else if s[0] in seps then [""] + Split(s[1..], seps)
    else
      var rest := Split(s[1..], seps);
      [[s[0]] + rest[0]] + rest[1..]
  }

  /** Whether `s` holds no character of `cs`. */
  predicate Avoids(s: string, cs: set<char>)
  {
    forall i :: 0 <= i < |s| ==> s[i] !in cs
  }

  /** No piece of a split holds a separator. */
  lemma {:induction false} SplitPiecesAvoid(s: string, seps: set<char>)
    ensures forall i :: 0 <= i < |Split(s, seps)| ==> Avoids(Split(s, seps)[i], seps)
    decreases |s|
  {
    if |s| > 0 {
      var r := Split(s, seps);
      var rest := Split(s[1..], seps);
      SplitPiecesAvoid(s[1..], seps);
      if s[0] in seps {
        assert r == [""] + rest;
        forall i | 0 < i < |r| ensures Avoids(r[i], seps) {
          assert r[i] == rest[i - 1];
        }
      } else {
        var first := [s[0]] + rest[0];
        assert r == [first] + rest[1..];
        assert Avoids(rest[0], seps);
        assert Avoids(first, seps) by {
          forall j | 0 < j < |first| ensures first[j] !in seps {
            assert first[j] == rest[0][j - 1];
          }
        }
        forall i | 0 < i < |r| ensures Avoids(r[i], seps) {
          assert r[i] == rest[i];
        }
      }
    }
  }

  /** Joins `parts` with the separator `sep` between consecutive parts. */
  function Join(parts: seq<string>, sep: string): string
  {
    if |parts| == 0 then ""
    else if |parts| == 1 then parts[0]
    else parts[0] + sep + Join(parts[1..], sep)
  }

  /** Splitting on one character and joining with it gives the input back. */
  lemma {:induction false} JoinSplit(s: string, c: char)
    ensures Join(Split(s, {c}), [c]) == s
    decreases |s|
  {
    if |s| > 0 {
      var r := Split(s, {c});
      var rest := Split(s[1..], {c});
      JoinSplit(s[1..], c);
      assert s == [s[0]] + s[1..];
      if s[0] == c {
        assert r == [""] + rest;
        assert r[1..] == rest;
      } else if |rest| == 1 {
        assert r == [[s[0]] + rest[0]];
      } else {
        assert r == [[s[0]] + rest[0]] + rest[1..];
        assert r[1..] == rest[1..];
        assert Join(rest, [c]) == rest[0] + [c] + Join(rest[1..], [c]);
        assert Join(r, [c]) == [s[0]] + rest[0] + [c] + Join(rest[1..], [c]);
      }
    }
  }

  /** A string with no separator splits into itself alone. */
  lemma {:induction false} SplitNoSeparator(s: string, seps: set<char>)
    requires forall i :: 0 <= i < |s| ==> s[i] !in seps
    ensures Split(s, seps) == [s]
    decreases |s|
  {
    if |s| > 0 {
      SplitNoSeparator(s[1..], seps);
      assert s == [s[0]] + s[1..];
    }
  }

  /** A character that is not a separator joins the first piece. */
  lemma SplitCons(c: char, s: string, seps: set<char>)
    requires c !in seps
    ensures var r := Split(s, seps); Split([c] + s, seps) == [[c] + r[0]] + r[1..]
  {
    assert ([c] + s)[1..] == s;
  }

  /** A separator after a separator-free prefix ends the first piece. */
  lemma {:induction false} SplitAt(a: string, c: char, b: string, seps: set<char>)
    requires forall i :: 0 <= i < |a| ==> a[i] !in seps
    requires c in seps
    ensures Split(a + [c] + b, seps) == [a] + Split(b, seps)
    decreases |a|
  {
    var s := a + [c] + b;
    if |a| == 0 {
      assert s == [c] + b;
      assert s[1..] == b;
    } else {
      SplitAt(a[1..], c, b, seps);
      assert s[1..] == a[1..] + [c] + b;
      var rest := Split(s[1..], seps);
      assert rest == [a[1..]] + Split(b, seps);
      assert Split(s, seps) == [[a[0]] + a[1..]] + rest[1..];
      assert [a[0]] + a[1..] == a;
    }
  }

  /** Joining separator-free parts with one character and splitting on it gives the parts back. */
  lemma {:induction false} SplitJoin(parts: seq<string>, c: char)
    requires |parts| > 0
    requires forall i :: 0 <= i < |parts| ==> Avoids(parts[i], {c})
    ensures Split(Join(parts, [c]), {c}) == parts
    decreases |parts|
  {
    if |parts| == 1 {
      SplitNoSeparator(parts[0], {c});
    } else {
      SplitJoin(parts[1..], c);
      SplitAt(parts[0], c, Join(parts[1..], [c]), {c});
      assert parts == [parts[0]] + parts[1..];
    }
  }

  /** The first piece of a split is the longest prefix free of separators. */
  lemma {:induction false} SplitFirstIsPrefix(s: string, seps: set<char>)
    ensures StartsWith(s, Split(s, seps)[0])
    ensures |Split(s, seps)[0]| < |s| ==> s[|Split(s, seps)[0]|] in seps
    decreases |s|
  {
    if |s| > 0 && s[0] !in seps {
      SplitFirstIsPrefix(s[1..], seps);
    }
  }

  // ---------------------------------------------------------------- numbers

  function DigitChar(d: nat): char
    requires d < 10
  {
    ('0' as int + d) as char
  }

  function DigitValue(c: char): nat
    requires IsDigit(c)
  {
    c as int - '0' as int
  }

  /** Decimal rendering of a natural (`String(n)`, `str(n)`, `n.toString()`). */
  function NatToString(n: nat): (r: string)
    ensures IsDigits(r)
    ensures n >= 10 ==> |r| >= 2
    ensures r[0] == '0' <==> n == 0
    decreases n
  {
    if n < 10 then [DigitChar(n)] else NatToString(n / 10) + [DigitChar(n % 10)]
  }

  /** Decimal rendering of an integer, with a leading minus sign when negative. */
  function IntToString(n: int): (r: string)
    ensures |r| > 0
    ensures n >= 0 ==> r == NatToString(n)
  {
    if n >= 0 then NatToString(n) else "-" + NatToString(-n)
  }

  /** Reads a string of decimal digits as a natural. */
  function ParseDigits(s: string): nat
    requires forall i :: 0 <= i < |s| ==> IsDigit(s[i])
    decreases |s|
  {
    if |s| == 0 then 0 else ParseDigits(s[..|s| - 1]) * 10 + DigitValue(s[|s| - 1])
  }

  /** Rendering a natural and reading it back gives the natural. */
  lemma {:induction false} ParseNatToString(n: nat)
    ensures ParseDigits(NatToString(n)) == n
    decreases n
  {
    if n >= 10 {
      ParseNatToString(n / 10);
      var r := NatToString(n);
      assert r[..|r| - 1] == NatToString(n / 10);
    }
  }

  /** Distinct naturals render to distinct strings. */
  lemma {:induction false} NatToStringInjective(m: nat, n: nat)
    requires NatToString(m) == NatToString(n)
    ensures m == n
  {
    ParseNatToString(m);
    ParseNatToString(n);
  }

  /** JavaScript's `s.padStart(2, '0')`. */
  function PadStart2(s: string): (r: string)
    ensures |r| == if |s| >= 2 then |s| else 2
  {
    if |s| >= 2 then s else if |s| == 1 then "0" + s else "00"
  }

  /** Padding keeps the text as the tail and fills the head with zeros. */
  lemma PadStart2Pads(s: string)
    ensures EndsWith(PadStart2(s), s)
    ensures forall k :: 0 <= k < |PadStart2(s)| - |s| ==> PadStart2(s)[k] == '0'
  {
  }

  // ---------------------------------------------------------------- runs

  /** Length of the longest prefix of `s` whose characters satisfy `p` (a greedy `p+` or `p*`). */
  function Span(s: string, p: char -> bool): (k: nat)
    ensures k <= |s|
    ensures forall j :: 0 <= j < k ==> p(s[j])
    ensures k < |s| ==> !p(s[k])
    decreases |s|
  {
    if |s| > 0 && p(s[0]) then 1 + Span(s[1..], p) else 0
  }

  /** A run that satisfies `p` throughout, followed by a character that does not, spans exactly the run. */
  lemma {:induction false} SpanOf(a: string, b: string, p: char -> bool)
    requires forall j :: 0 <= j < |a| ==> p(a[j])
    requires |b| > 0 && !p(b[0])
    ensures Span(a + b, p) == |a|
    decreases |a|
  {
    if |a| > 0 {
      assert (a + b)[1..] == a[1..] + b;
      SpanOf(a[1..], b, p);
    } else {
      assert a + b == b;
    }
  }

  /** `\d{n}` at position `i` of `s`. */
  predicate DigitsAt(s: string, i: nat, n: nat)
  {
    i + n <= |s| && forall j :: i <= j < i + n ==> IsDigit(s[j])
  }

  /** A run that satisfies `p` throughout is spanned whole. */
  lemma {:induction false} SpanWhole(a: string, p: char -> bool)
    requires forall j :: 0 <= j < |a| ==> p(a[j])
    ensures Span(a, p) == |a|
    decreases |a|
  {
    if |a| > 0 {
      SpanWhole(a[1..], p);
    }
  }
}
