/**
 * `clean_member_name` of the Python analysis script: reduces a cell of the model's
 * assignment table (`"Minh (Senior, 3 years)"`, `"Lan - tester"`) to the member's name
 * by dropping bracketed notes, a trailing experience unit, everything after the first
 * `-`, `,` or `|`, and the words that name a role or are all digits.
 */
module MemberNames {
  import opened Text

  const Openers: set<char> := {'(', '[', '{'}
  const Closers: set<char> := {')', ']', '}'}

  /** The index of the first closing bracket of `s`, or `|s|` when there is none. */
  function FirstCloser(s: string): (k: nat)
    ensures k <= |s|
    ensures k < |s| ==> s[k] in Closers
    ensures forall j :: 0 <= j < k ==> s[j] !in Closers
  {
    if |s| == 0 || s[0] in Closers then 0 else 1 + FirstCloser(s[1..])
  }

  /**
   * `re.sub(r'[\(\[\{][^\)\]\}]*[\)\]\}]', '', s)`: from left to right, every opening
   * bracket that some closing bracket follows is removed together with everything up
   * to and including the first such closing bracket.
   */
  function RemoveBracketed(s: string): (r: string)
    ensures |r| <= |s|
    ensures Avoids(s, Openers) ==> r == s
    decreases |s|
  {
    if |s| == 0 then ""
    else if s[0] in Openers && FirstCloser(s[1..]) < |s| - 1 then
      RemoveBracketed(s[2 + FirstCloser(s[1..])..])
    else
      assert Avoids(s, Openers) ==> Avoids(s[1..], Openers);
      [s[0]] + RemoveBracketed(s[1..])
  }

  /** The removal never adds a character: what `s` avoids, the result avoids. */
  lemma {:induction false} RemoveBracketedAvoids(s: string, cs: set<char>)
    requires Avoids(s, cs)
    ensures Avoids(RemoveBracketed(s), cs)
    decreases |s|
  {
    if |s| > 0 {
      if s[0] in Openers && FirstCloser(s[1..]) < |s| - 1 {
        var rest := s[2 + FirstCloser(s[1..])..];
        assert forall i :: 0 <= i < |rest| ==> rest[i] == s[2 + FirstCloser(s[1..]) + i];
        RemoveBracketedAvoids(rest, cs);
      } else {
        assert forall i :: 0 <= i < |s| - 1 ==> s[1..][i] == s[i + 1];
        RemoveBracketedAvoids(s[1..], cs);
      }
    }
  }

  /** The first closing bracket after a note without closers is the one ending the note. */
  lemma {:induction false} FirstCloserAfter(note: string, c: char, d: string)
    requires Avoids(note, Closers) && c in Closers
    ensures FirstCloser(note + [c] + d) == |note|
    decreases |note|
  {
    if |note| > 0 {
      assert (note + [c] + d)[1..] == note[1..] + [c] + d;
      FirstCloserAfter(note[1..], c, d);
    }
  }

  /**
   * A bracketed note is removed with its brackets, the text before it (which opens
   * no bracket) is kept, and the removal goes on after it.
   */
  lemma {:induction false} RemoveBracketedNote(a: string, o: char, note: string, c: char, d: string)
    requires Avoids(a, Openers) && o in Openers && Avoids(note, Closers) && c in Closers
    ensures RemoveBracketed(a + [o] + note + [c] + d) == a + RemoveBracketed(d)
    decreases |a|
  {
    assert a + [o] + note + [c] + d == a + ([o] + note + [c] + d);
    KeepPlainPrefix(a, [o] + note + [c] + d);
    RemoveLeadingNote(o, note, c, d);
  }

  /** A prefix that opens no bracket is kept in front of what the rest becomes. */
  lemma {:induction false} KeepPlainPrefix(a: string, rest: string)
    requires Avoids(a, Openers)
    ensures RemoveBracketed(a + rest) == a + RemoveBracketed(rest)
    decreases |a|
  {
    if |a| == 0 {
      assert a + rest == rest;
    } else {
      var t := a[1..];
      assert a == [a[0]] + t;
      assert Avoids(t, Openers);
      Assoc([a[0]], t, rest);
      KeepPlainHead(a[0], t + rest);
      KeepPlainPrefix(t, rest);
      Assoc([a[0]], t, RemoveBracketed(rest));
    }
  }

  lemma Assoc(x: string, y: string, z: string)
    ensures x + y + z == x + (y + z)
  { }

  /** A note at the very start goes with its brackets. */
  lemma RemoveLeadingNote(o: char, note: string, c: char, d: string)
    requires o in Openers && Avoids(note, Closers) && c in Closers
    ensures RemoveBracketed([o] + note + [c] + d) == RemoveBracketed(d)
  {
    var s := [o] + note + [c] + d;
    assert s[1..] == note + [c] + d;
    FirstCloserAfter(note, c, d);
    assert s[2 + |note|..] == d;
  }

  /** A first character that opens no bracket is kept. */
  lemma KeepPlainHead(h: char, t: string)
    requires h !in Openers
    ensures RemoveBracketed([h] + t) == [h] + RemoveBracketed(t)
  {
    assert ([h] + t)[1..] == t;
  }

  /** After the removal no opening bracket is followed by a closing one: no bracketed note survives. */
  lemma {:induction false} NoBracketedNoteLeft(s: string)
    ensures forall i, j :: 0 <= i < j < |RemoveBracketed(s)| && RemoveBracketed(s)[i] in Openers ==> RemoveBracketed(s)[j] !in Closers
    decreases |s|
  {
    if |s| > 0 {
      if s[0] in Openers && FirstCloser(s[1..]) < |s| - 1 {
        NoBracketedNoteLeft(s[2 + FirstCloser(s[1..])..]);
        assert RemoveBracketed(s) == RemoveBracketed(s[2 + FirstCloser(s[1..])..]);
      } else {
        var tail := RemoveBracketed(s[1..]);
        NoBracketedNoteLeft(s[1..]);
        var r := RemoveBracketed(s);
        assert r == [s[0]] + tail;
        forall i, j | 0 <= i < j < |r| && r[i] in Openers ensures r[j] !in Closers {
          assert r[j] == tail[j - 1];
          if i > 0 {
            assert r[i] == tail[i - 1];
          } else {
            assert s[0] in Openers;
            assert Avoids(s[1..], Closers);
            RemoveBracketedAvoids(s[1..], Closers);
          }
        }
      }
    }
  }

  /** The experience units the suffix rule removes, lower-cased; `years` is tried before `year`. */
  const UnitWords: seq<string> := ["kn", "n\U{0103}m", "years", "year"]

  /** `t` ends with the unit `w`, ignoring case. */
  predicate EndsWithUnit(t: string, w: string)
  {
    |w| <= |t| && Lower(t[|t| - |w|..]) == w
  }

  /** The length of the unit word `t` ends with, or 0. */
  function UnitLength(t: string): (k: nat)
    ensures k <= |t|
    ensures k > 0 ==> exists u :: 0 <= u < |UnitWords| && |UnitWords[u]| == k && EndsWithUnit(t, UnitWords[u])
    ensures k == 0 ==> forall u :: 0 <= u < |UnitWords| ==> !EndsWithUnit(t, UnitWords[u])
  {
    if EndsWithUnit(t, UnitWords[0]) then 2
    else if EndsWithUnit(t, UnitWords[1]) then 3
    else if EndsWithUnit(t, UnitWords[2]) then 5
    else if EndsWithUnit(t, UnitWords[3]) then 4
    else 0
  }

  /**
   * `re.sub(r'\s*(KN|năm|years?)\s*\)?\s*$', '', s, flags=re.IGNORECASE)`: when `s`, less
   * trailing blanks, one closing parenthesis and blanks again, ends with a unit word, the
   * unit and the blanks before it go too.
   */
  function DropUnitSuffix(s: string): (r: string)
    ensures StartsWith(s, r)
    ensures r == s <==> UnitLength(UnitCore(s)) == 0
  {
    s[..UnitCut(s)]
  }

  /** `s` less trailing blanks, one closing parenthesis and blanks again: where the unit word must end. */
  function UnitCore(s: string): (t: string)
    ensures StartsWith(s, t)
  {
    TrimEnd(DropParen(TrimEnd(s, Whitespace)), Whitespace)
  }

  /** One closing parenthesis at the end removed, if there is one. */
  function DropParen(t: string): string
  {
    if |t| > 0 && t[|t| - 1] == ')' then t[..|t| - 1] else t
  }

  /** Where the suffix match of `DropUnitSuffix` starts, or `|s|` when there is none. */
  function UnitCut(s: string): (n: nat)
    ensures n <= |s|
    ensures n == |s| <==> UnitLength(UnitCore(s)) == 0
  {
    var t := UnitCore(s);
    var k := UnitLength(t);
    if k == 0 then |s| else |TrimEnd(t[..|t| - k], Whitespace)|
  }

  /** Blanks after a text that does not end in a blank are exactly what trimming removes. */
  lemma TrimEndOf(x: string, w: string)
    requires x == [] || x[|x| - 1] !in Whitespace
    requires forall i :: 0 <= i < |w| ==> w[i] in Whitespace
    ensures TrimEnd(x + w, Whitespace) == x
  {
    var s := x + w;
    assert forall j :: 0 <= j < |w| ==> s[|x| + j] == w[j];
    assert x != [] ==> s[|x| - 1] == x[|x| - 1];
    assert TrailingCount(s, Whitespace) == |w|;
    assert s[..|x|] == x;
  }

  /** A text ending in a unit word has that unit, whatever precedes it. */
  lemma UnitLengthOf(p: string, u: nat)
    requires u < |UnitWords|
    ensures UnitLength(p + UnitWords[u]) == |UnitWords[u]|
  {
    var t, w := p + UnitWords[u], UnitWords[u];
    assert t[|t| - |w|..] == w;
    assert Lower(w) == w;
    forall v | 0 <= v < u ensures !EndsWithUnit(t, UnitWords[v]) {
      var x := UnitWords[v];
      if |x| <= |t| {
        assert Lower(t[|t| - |x|..])[|x| - 1] == LowerChar(t[|t| - 1]);
        assert t[|t| - 1] == w[|w| - 1];
      }
    }
  }

  /**
   * The suffix rule removes exactly the blanks, the unit word, the optional closing
   * parenthesis and the blanks around it after a name.
   */
  lemma DropUnitSuffixOf(name: string, gap: string, u: nat, ws1: string, paren: bool, ws2: string)
    requires name == [] || name[|name| - 1] !in Whitespace
    requires forall i :: 0 <= i < |gap| ==> gap[i] in Whitespace
    requires forall i :: 0 <= i < |ws1| ==> ws1[i] in Whitespace
    requires forall i :: 0 <= i < |ws2| ==> ws2[i] in Whitespace
    requires u < |UnitWords|
    ensures DropUnitSuffix(name + gap + UnitWords[u] + ws1 + (if paren then ")" else "") + ws2) == name
  {
    var w := UnitWords[u];
    var core := name + gap + w;
    var s := core + ws1 + (if paren then ")" else "") + ws2;
    assert core[|core| - 1] == w[|w| - 1];
    UnitCoreOf(core, ws1, paren, ws2);
    UnitCutOf(s, name, gap, u);
    var p := if paren then ")" else "";
    PrefixOfPrefix(name + gap + w + ws1 + p, ws2, |name|);
    PrefixOfPrefix(name + gap + w + ws1, p, |name|);
    PrefixOfPrefix(name + gap + w, ws1, |name|);
    PrefixOfPrefix(name + gap, w, |name|);
    PrefixOfPrefix(name, gap, |name|);
  }

  /** A prefix within the first part of a concatenation is a prefix of that part. */
  lemma PrefixOfPrefix(x: string, y: string, k: nat)
    requires k <= |x|
    ensures (x + y)[..k] == x[..k]
  { }

  /** The cut falls right after the name when the core is the name, blanks and a unit word. */
  lemma UnitCutOf(s: string, name: string, gap: string, u: nat)
    requires name == [] || name[|name| - 1] !in Whitespace
    requires forall i :: 0 <= i < |gap| ==> gap[i] in Whitespace
    requires u < |UnitWords| && UnitCore(s) == name + gap + UnitWords[u]
    ensures UnitCut(s) == |name|
  {
    var core := name + gap + UnitWords[u];
    UnitLengthOf(name + gap, u);
    assert core[..|core| - |UnitWords[u]|] == name + gap;
    TrimEndOf(name, gap);
  }

  /** The core of a text that ends in neither a blank nor `)` is found again after blanks, `)` and blanks. */
  lemma UnitCoreOf(core: string, ws1: string, paren: bool, ws2: string)
    requires |core| > 0 && core[|core| - 1] !in Whitespace && core[|core| - 1] != ')'
    requires forall i :: 0 <= i < |ws1| ==> ws1[i] in Whitespace
    requires forall i :: 0 <= i < |ws2| ==> ws2[i] in Whitespace
    ensures UnitCore(core + ws1 + (if paren then ")" else "") + ws2) == core
  {
    if paren {
      var t := core + ws1 + ")";
      assert core + ws1 + (if paren then ")" else "") + ws2 == t + ws2;
      TrimEndOf(t, ws2);
      assert DropParen(t) == core + ws1;
      TrimEndOf(core, ws1);
    } else {
      assert core + ws1 + (if paren then ")" else "") + ws2 == core + (ws1 + ws2);
      TrimEndOf(core, ws1 + ws2);
      TrimEndOf(core, "");
      assert core + "" == core;
    }
  }

  const NameSeparators: set<char> := {'-', ',', '|'}

  /** `re.split(r'[\-,|]', cleaned)[0].strip()` after the two substitutions. */
  function FirstPart(s: string): string
  {
    var cleaned := Strip(DropUnitSuffix(Strip(RemoveBracketed(s))));
    Strip(Split(cleaned, NameSeparators)[0])
  }

  /** The first parts that are never names: a bare unit or "kinh nghiệm" (experience). */
  const NonNames: seq<string> := ["kn", "n\U{0103}m", "years", "kinh nghi\U{1EC7}m"]

  const RoleKeywords: seq<string> := ["fresher", "junior", "senior", "medium", "developer", "engineer", "tester", "qa"]

  /** Some role keyword occurs in the lower-cased word. */
  predicate HasRoleKeyword(w: string)
  {
    exists k :: 0 <= k < |RoleKeywords| && Contains(Lower(w), RoleKeywords[k])
  }

  /** `s.split()`: the non-empty runs of non-blank characters. */
  function Words(s: string): (ws: seq<string>)
    ensures forall i :: 0 <= i < |ws| ==> |ws[i]| > 0 && Avoids(ws[i], Whitespace)
  {
    SplitPiecesAvoid(s, Whitespace);
    NonEmpty(Split(s, Whitespace))
  }

  function NonEmpty(ps: seq<string>): (r: seq<string>)
    requires forall i :: 0 <= i < |ps| ==> Avoids(ps[i], Whitespace)
    ensures forall i :: 0 <= i < |r| ==> |r[i]| > 0 && Avoids(r[i], Whitespace)
    ensures forall w :: w in r <==> w in ps && |w| > 0
  {
    if |ps| == 0 then []
    else (if |ps[0]| > 0 then [ps[0]] else []) + NonEmpty(ps[1..])
  }

  /** A single non-empty blank-free piece is kept as the only word. */
  lemma NonEmptyOne(w: string)
    requires |w| > 0 && Avoids(w, Whitespace)
    ensures NonEmpty([w]) == [w]
  {
    assert [w][1..] == [];
  }

  /** A word the name filter keeps. */
  predicate IsNameWord(w: string)
  {
    !HasRoleKeyword(w) && !IsDigits(w)
  }

  /** The words kept by the `filtered_words` loop, in order. */
  function KeptWords(words: seq<string>): (r: seq<string>)
    ensures |r| <= |words|
    ensures forall w :: w in r <==> w in words && IsNameWord(w)
  {
    if |words| == 0 then []
    else KeptWords(words[..|words| - 1]) + (if IsNameWord(words[|words| - 1]) then [words[|words| - 1]] else [])
  }

  /** `clean_member_name`. */
  function CleanMemberName(s: string): string
  {
    if Strip(s) == "" then "" else NameFromFirstPart(FirstPart(s))
  }

  /** What `clean_member_name` makes of a non-blank input's first part. */
  function NameFromFirstPart(first: string): string
  {
    if first == "" then ""
    else if |first| == 1 && IsAlpha(first) then first
    else if Lower(first) in NonNames || IsDigits(first) then ""
    else NameFromWords(Words(first))
  }

  /** A single word naming no role is kept whole; otherwise the name words are joined by spaces. */
  function NameFromWords(words: seq<string>): string
  {
    if |words| == 1 && !HasRoleKeyword(words[0]) then words[0]
    else Strip(Join(KeptWords(words), " "))
  }

  // ---------------------------------------------------------------- what the cleaning guarantees

  lemma {:induction false} StripAvoids(s: string, cs: set<char>)
    requires Avoids(s, cs)
    ensures Avoids(Strip(s), cs)
  {
    StripOfKeeps(s, Whitespace, cs);
  }

  lemma {:induction false} SplitAvoids(s: string, seps: set<char>, cs: set<char>)
    requires Avoids(s, cs)
    ensures forall i :: 0 <= i < |Split(s, seps)| ==> Avoids(Split(s, seps)[i], cs)
    decreases |s|
  {
    if |s| > 0 {
      SplitAvoids(s[1..], seps, cs);
      if s[0] !in seps {
        var rest := Split(s[1..], seps);
        assert Avoids([s[0]] + rest[0], cs);
        var r := Split(s, seps);
        assert forall i :: 1 <= i < |r| ==> r[i] == rest[i];
      }
    }
  }

  lemma {:induction false} JoinAvoids(parts: seq<string>, sep: string, cs: set<char>)
    requires forall i :: 0 <= i < |parts| ==> Avoids(parts[i], cs)
    requires Avoids(sep, cs)
    ensures Avoids(Join(parts, sep), cs)
    decreases |parts|
  {
    if |parts| > 1 {
      JoinAvoids(parts[1..], sep, cs);
    }
  }

  lemma {:induction false} KeptWordsAvoid(words: seq<string>, cs: set<char>)
    requires forall i :: 0 <= i < |words| ==> Avoids(words[i], cs)
    ensures forall i :: 0 <= i < |KeptWords(words)| ==> Avoids(KeptWords(words)[i], cs)
  {
    var r := KeptWords(words);
    forall i | 0 <= i < |r| ensures Avoids(r[i], cs) {
      assert r[i] in words;
    }
  }

  /** The first part has none of the separators `-`, `,` and `|`. */
  lemma {:induction false} FirstPartHasNoSeparator(s: string)
    ensures Avoids(FirstPart(s), NameSeparators)
  {
    var cleaned := Strip(DropUnitSuffix(Strip(RemoveBracketed(s))));
    SplitPiecesAvoid(cleaned, NameSeparators);
    StripAvoids(Split(cleaned, NameSeparators)[0], NameSeparators);
  }

  /** The words of a string without separators have none either. */
  lemma {:induction false} WordsAvoid(first: string, cs: set<char>)
    requires Avoids(first, cs)
    ensures forall i :: 0 <= i < |Words(first)| ==> Avoids(Words(first)[i], cs)
  {
    var words := Words(first);
    SplitAvoids(first, Whitespace, cs);
    forall i | 0 <= i < |words| ensures Avoids(words[i], cs) {
      assert words[i] in Split(first, Whitespace);
    }
  }

  /** The filtered words, joined and stripped, have no separator and no blank at either end. */
  lemma {:induction false} JoinedNameShape(words: seq<string>)
    requires forall i :: 0 <= i < |words| ==> Avoids(words[i], NameSeparators)
    ensures var r := Strip(Join(KeptWords(words), " "));
      Avoids(r, NameSeparators) && (r == "" || (r[0] !in Whitespace && r[|r| - 1] !in Whitespace))
  {
    KeptWordsAvoid(words, NameSeparators);
    JoinAvoids(KeptWords(words), " ", NameSeparators);
    StripAvoids(Join(KeptWords(words), " "), NameSeparators);
    StripOfEnds(Join(KeptWords(words), " "), Whitespace);
  }

  /** The first part has no blank at either end. */
  lemma {:induction false} FirstPartStripped(s: string)
    ensures var f := FirstPart(s); f == "" || (f[0] !in Whitespace && f[|f| - 1] !in Whitespace)
  {
    var x := Split(Strip(DropUnitSuffix(Strip(RemoveBracketed(s)))), NameSeparators)[0];
    assert FirstPart(s) == Strip(x);
    StripOfEnds(x, Whitespace);
  }

  /** A first part without separators and blank ends gives a name without either. */
  lemma {:induction false} NameFromFirstPartShape(first: string)
    requires Avoids(first, NameSeparators)
    requires first == "" || (first[0] !in Whitespace && first[|first| - 1] !in Whitespace)
    ensures Avoids(NameFromFirstPart(first), NameSeparators)
    ensures var r := NameFromFirstPart(first); r == "" || (r[0] !in Whitespace && r[|r| - 1] !in Whitespace)
  {
    if first != "" && !(|first| == 1 && IsAlpha(first)) && !(Lower(first) in NonNames || IsDigits(first)) {
      WordsAvoid(first, NameSeparators);
      NameFromWordsShape(Words(first));
    }
  }

  /** Words without separators or blanks give a name without separators and with no blank at either end. */
  lemma {:induction false} NameFromWordsShape(words: seq<string>)
    requires forall i :: 0 <= i < |words| ==> Avoids(words[i], NameSeparators)
    requires forall i :: 0 <= i < |words| ==> |words[i]| > 0 && Avoids(words[i], Whitespace)
    ensures Avoids(NameFromWords(words), NameSeparators)
    ensures var r := NameFromWords(words); r == "" || (r[0] !in Whitespace && r[|r| - 1] !in Whitespace)
  {
    if !(|words| == 1 && !HasRoleKeyword(words[0])) {
      JoinedNameShape(words);
    }
  }

  /**
   * A cleaned name is empty for blank input; otherwise it has no separator `-`, `,` or
   * `|`, and it is empty or starts and ends with a non-blank character.
   */
  lemma {:induction false} CleanMemberNameShape(s: string)
    ensures Strip(s) == "" ==> CleanMemberName(s) == ""
    ensures Avoids(CleanMemberName(s), NameSeparators)
    ensures var r := CleanMemberName(s); r == "" || (r[0] !in Whitespace && r[|r| - 1] !in Whitespace)
  {
    FirstPartHasNoSeparator(s);
    FirstPartStripped(s);
    NameFromFirstPartShape(FirstPart(s));
  }

  /** A first part that is one word, names no role and is not a unit or a number comes back unchanged. */
  lemma {:induction false} OneWordNameKept(s: string)
    requires Strip(s) != ""
    requires var first := FirstPart(s);
      first != "" && Avoids(first, Whitespace) && !HasRoleKeyword(first)
      && Lower(first) !in NonNames && !IsDigits(first)
    ensures CleanMemberName(s) == FirstPart(s)
  {
    OneWordKept(FirstPart(s));
  }

  /** A one-word first part naming no role, unit or number is the name. */
  lemma OneWordKept(first: string)
    requires first != "" && Avoids(first, Whitespace) && !HasRoleKeyword(first)
    requires Lower(first) !in NonNames && !IsDigits(first)
    ensures NameFromFirstPart(first) == first
  {
    assert Words(first) == [first] by {
      SplitNoSeparator(first, Whitespace);
      NonEmptyOne(first);
    }
    OneWordName(first);
  }

  /** One word naming no role is kept whole. */
  lemma OneWordName(w: string)
    requires !HasRoleKeyword(w)
    ensures NameFromWords([w]) == w
  { }

  /**
   * A first part of several words keeps, in order and joined by single spaces, exactly
   * its words that name no role and are not all digits.
   */
  lemma {:induction false} SeveralWordsFiltered(s: string)
    requires Strip(s) != ""
    requires var first := FirstPart(s);
      first != "" && !(|first| == 1 && IsAlpha(first)) && Lower(first) !in NonNames && !IsDigits(first)
      && |Words(first)| >= 2
    ensures var kept := KeptWords(Words(FirstPart(s)));
      CleanMemberName(s) == Join(kept, " ")
      && forall w :: w in kept <==> w in Words(FirstPart(s)) && !HasRoleKeyword(w) && !IsDigits(w)
  {
    var kept := KeptWords(Words(FirstPart(s)));
    KeptWordsAvoid(Words(FirstPart(s)), Whitespace);
    JoinedWordsStripped(kept);
  }

  /** Non-empty blank-free words joined by spaces neither start nor end with a blank. */
  lemma {:induction false} JoinedWordsStripped(ws: seq<string>)
    requires forall i :: 0 <= i < |ws| ==> |ws[i]| > 0 && Avoids(ws[i], Whitespace)
    ensures Strip(Join(ws, " ")) == Join(ws, " ")
  {
    var j := Join(ws, " ");
    if |ws| > 0 {
      JoinEnds(ws);
      assert TrimStart(j, Whitespace) == j;
      assert TrimEnd(j, Whitespace) == j;
    }
  }

  lemma {:induction false} JoinEnds(ws: seq<string>)
    requires |ws| > 0
    requires forall i :: 0 <= i < |ws| ==> |ws[i]| > 0
    ensures |Join(ws, " ")| > 0
    ensures Join(ws, " ")[0] == ws[0][0]
    ensures Join(ws, " ")[|Join(ws, " ")| - 1] == ws[|ws| - 1][|ws[|ws| - 1]| - 1]
  {
    if |ws| > 1 {
      JoinEnds(ws[1..]);
    }
  }

  // ---------------------------------------------------------------- the filter loop

  /** The `filtered_words` loop. */
  method FilterNameWords(words: seq<string>) returns (filtered: seq<string>)
    ensures filtered == KeptWords(words)
  {
    filtered := [];
    for i := 0 to |words|
      invariant filtered == KeptWords(words[..i])
    {
      assert words[..i + 1][..i] == words[..i];
      if IsNameWord(words[i]) {
        filtered := filtered + [words[i]];
      }
    }
    assert words[..|words|] == words;
  }

  /** `clean_member_name` with its loop. */
  method CleanMember(s: string) returns (r: string)
    ensures r == CleanMemberName(s)
  {
    if Strip(s) == "" {
      return "";
    }
    var first := FirstPart(s);
    if first == "" {
      return "";
    }
    if |first| == 1 && IsAlpha(first) {
      return first;
    }
    if Lower(first) in NonNames || IsDigits(first) {
      return "";
    }
    var words := Words(first);
    if |words| == 1 && !HasRoleKeyword(words[0]) {
      return words[0];
    }
    var filtered := FilterNameWords(words);
    r := Strip(Join(filtered, " "));
  }
}
