/**
 * The JavaScript string built-ins the registration schema relies on:
 * `length` (UTF-16 code units), `trim`, `split` and `join` on a one-character
 * separator, `endsWith`, `toLowerCase` and `toLocaleUpperCase` of one
 * character. Strings are sequences of Unicode scalar values; case mapping
 * covers Basic Latin and the Latin-1 Supplement and leaves every other
 * character as it is.
 */
module JsString {

  /** How many UTF-16 code units a character takes in a JavaScript string. */
  function CodeUnits(c: char): nat
  {
    if c as int >= 0x1_0000 then 2 else 1
  }

  /** `s.length`: the number of UTF-16 code units. */
  function Utf16Length(s: string): (n: nat)
    ensures |s| <= n <= 2 * |s|
    ensures n == 0 <==> s == []
  {
    if s == [] then 0 else Utf16Length(s[..|s| - 1]) + CodeUnits(s[|s| - 1])
  }

  /** A string of characters from the Basic Multilingual Plane has one code unit per character. */
  lemma {:induction false} Utf16LengthBasic(s: string)
    requires forall k :: 0 <= k < |s| ==> s[k] as int < 0x1_0000
    ensures Utf16Length(s) == |s|
  {
    if s != [] {
      Utf16LengthBasic(s[..|s| - 1]);
    }
  }

  /** The characters `String.prototype.trim` removes: WhiteSpace and LineTerminator. */
  predicate IsWhitespace(c: char)
  {
    || c == '\t' || c == '\n' || c == '\U{B}' || c == '\U{C}' || c == '\r'
    || c == ' ' || c == '\U{A0}' || c == '\U{1680}'
    || ('\U{2000}' <= c <= '\U{200A}')
    || c == '\U{2028}' || c == '\U{2029}' || c == '\U{202F}' || c == '\U{205F}'
    || c == '\U{3000}' || c == '\U{FEFF}'
  }

  /** The first index at or after `i` that does not hold whitespace, or `|s|`. */
  function SkipLeading(s: string, i: nat): (a: nat)
    requires i <= |s|
    ensures i <= a <= |s|
    ensures a == |s| || !IsWhitespace(s[a])
    decreases |s| - i
  {
    if i == |s| || !IsWhitespace(s[i]) then i else SkipLeading(s, i + 1)
  }

  /** The end of `s[lo..j]` once its trailing whitespace is dropped. */
  function SkipTrailing(s: string, lo: nat, j: nat): (b: nat)
    requires lo <= j <= |s|
    ensures lo <= b <= j
    ensures b == lo || !IsWhitespace(s[b - 1])
  {
    if j == lo || !IsWhitespace(s[j - 1]) then j else SkipTrailing(s, lo, j - 1)
  }

  /**
   * `s.trim()`: the slice of `s` left once the leading and then the trailing
   * whitespace is skipped. It has no whitespace at either end, and it is `s`
   * itself when `s` has none.
   */
  function Trim(s: string): (r: string)
    ensures r == [] || (!IsWhitespace(r[0]) && !IsWhitespace(r[|r| - 1]))
    ensures s == [] || (!IsWhitespace(s[0]) && !IsWhitespace(s[|s| - 1])) ==> r == s
  {
    var a := SkipLeading(s, 0);
    var b := SkipTrailing(s, a, |s|);
    s[a..b]
  }

  /** Every index `SkipLeading` steps over holds whitespace. */
  lemma {:induction false} SkipLeadingWhitespace(s: string, i: nat)
    requires i <= |s|
    ensures forall k :: i <= k < SkipLeading(s, i) ==> IsWhitespace(s[k])
    decreases |s| - i
  {
    if i < |s| && IsWhitespace(s[i]) {
      SkipLeadingWhitespace(s, i + 1);
    }
  }

  /** Every index `SkipTrailing` steps over holds whitespace. */
  lemma {:induction false} SkipTrailingWhitespace(s: string, lo: nat, j: nat)
    requires lo <= j <= |s|
    ensures forall k :: SkipTrailing(s, lo, j) <= k < j ==> IsWhitespace(s[k])
  {
    if j > lo && IsWhitespace(s[j - 1]) {
      SkipTrailingWhitespace(s, lo, j - 1);
    }
  }

  /**
   * `s.trim()` drops only whitespace: it is the slice `s[a..b]` of `s`, and
   * everything before `a` and from `b` on is whitespace.
   */
  lemma TrimDropsWhitespace(s: string)
    ensures exists a, b ::
      && 0 <= a <= b <= |s| && Trim(s) == s[a..b]
      && (forall k :: 0 <= k < a ==> IsWhitespace(s[k]))
      && (forall k :: b <= k < |s| ==> IsWhitespace(s[k]))
  {
    var a := SkipLeading(s, 0);
    var b := SkipTrailing(s, a, |s|);
    SkipLeadingWhitespace(s, 0);
    SkipTrailingWhitespace(s, a, |s|);
    assert Trim(s) == s[a..b];
  }

  /** `s.trim()` is empty exactly when `s` is all whitespace. */
  lemma TrimEmptyIff(s: string)
    ensures Trim(s) == [] <==> forall k :: 0 <= k < |s| ==> IsWhitespace(s[k])
  {
    var a := SkipLeading(s, 0);
    var b := SkipTrailing(s, a, |s|);
    SkipLeadingWhitespace(s, 0);
    SkipTrailingWhitespace(s, a, |s|);
    if Trim(s) == [] {
      assert a == |s|;
    } else {
      assert s[a] == Trim(s)[0];
    }
  }

  /** The position of the last occurrence of `c` in `s`. */
  function LastIndexOf(s: string, c: char): (i: nat)
    requires c in s
    ensures i < |s| && s[i] == c && c !in s[i + 1..]
  {
    if s[|s| - 1] == c then |s| - 1
    else
      assert c in s[..|s| - 1] by {
        var j :| 0 <= j < |s| && s[j] == c;
        assert s[..|s| - 1][j] == c;
      }
      LastIndexOf(s[..|s| - 1], c)
  }

  /** `s.split(sep)` for a one-character separator: the pieces between the separators, empty pieces included. */
  function Split(s: string, sep: char): (r: seq<string>)
    ensures |r| >= 1
    ensures forall k :: 0 <= k < |r| ==> sep !in r[k]
  {
    if sep in s then
      var i := LastIndexOf(s, sep);
      Split(s[..i], sep) + [s[i + 1..]]
    else
      [s]
  }

  /** `words.join(sep)`. */
  function Join(words: seq<string>, sep: char): string
  {
    if |words| == 0 then ""
    else if |words| == 1 then words[0]
    else Join(words[..|words| - 1], sep) + [sep] + words[|words| - 1]
  }

  /** Joining the pieces of a split gives the string back. */
  lemma {:induction false} JoinSplit(s: string, sep: char)
    ensures Join(Split(s, sep), sep) == s
    decreases |s|
  {
    if sep in s {
      var i := LastIndexOf(s, sep);
      var init := s[..i];
      JoinSplit(init, sep);
      var words := Split(s, sep);
      assert words[..|words| - 1] == Split(init, sep);
      assert s == init + [sep] + s[i + 1..];
    }
  }

  /** The last occurrence of `c` is at `j` when `c` is at `j` and not after. */
  lemma LastIndexOfAt(s: string, c: char, j: nat)
    requires j < |s| && s[j] == c && c !in s[j + 1..]
    ensures LastIndexOf(s, c) == j
  {
    var i := LastIndexOf(s, c);
    assert forall k :: j < k < |s| ==> s[k] == s[j + 1..][k - (j + 1)];
    assert forall k :: i < k < |s| ==> s[k] == s[i + 1..][k - (i + 1)];
  }

  /** A non-empty sequence is its front followed by its last element. */
  lemma InitLast<T>(xs: seq<T>)
    requires xs != []
    ensures xs == xs[..|xs| - 1] + [xs[|xs| - 1]]
  {
  }

  /** Splitting at the last separator: the split of what comes before it, then the piece after it. */
  lemma SplitAtLast(s: string, sep: char, j: nat)
    requires j < |s| && s[j] == sep && sep !in s[j + 1..]
    ensures Split(s, sep) == Split(s[..j], sep) + [s[j + 1..]]
  {
    assert sep in s;
    LastIndexOfAt(s, sep, j);
  }

  /** Splitting a join of separator-free pieces gives the pieces back. */
  lemma {:induction false} SplitJoin(words: seq<string>, sep: char)
    requires |words| >= 1
    requires forall k :: 0 <= k < |words| ==> sep !in words[k]
    ensures Split(Join(words, sep), sep) == words
  {
    if |words| > 1 {
      var init, w := words[..|words| - 1], words[|words| - 1];
      var head := Join(init, sep);
      var s := head + [sep] + w;
      assert Join(words, sep) == s;
      assert forall k :: 0 <= k < |init| ==> init[k] == words[k];
      SplitJoin(init, sep);
      assert s[..|head|] == head && s[|head| + 1..] == w;
      SplitAtLast(s, sep, |head|);
      InitLast(words);
    }
  }

  /** A join starts with the first character of its first piece. */
  lemma {:induction false} JoinFirstChar(words: seq<string>, sep: char)
    requires |words| >= 1 && words[0] != []
    ensures var r, first := Join(words, sep), words[0];
      r != [] && r[0] == first[0]
  {
    if |words| > 1 {
      JoinFirstChar(words[..|words| - 1], sep);
    }
  }

  /** A join starts with the first character of its first piece and ends with the last character of its last piece. */
  lemma JoinEnds(words: seq<string>, sep: char)
    requires |words| >= 1 && words[0] != [] && words[|words| - 1] != []
    ensures var r, first, last := Join(words, sep), words[0], words[|words| - 1];
      r != [] && r[0] == first[0] && r[|r| - 1] == last[|last| - 1]
  {
    JoinFirstChar(words, sep);
  }

  /** When the first and the last piece of a split are non-empty, they begin and end the string. */
  lemma SplitEnds(s: string, sep: char)
    requires var words := Split(s, sep); words[0] != [] && words[|words| - 1] != []
    ensures var words := Split(s, sep);
      var first, last := words[0], words[|words| - 1];
      s != [] && s[0] == first[0] && s[|s| - 1] == last[|last| - 1]
  {
    JoinSplit(s, sep);
    JoinEnds(Split(s, sep), sep);
  }

  /** `s.endsWith(suffix)`, compared character by character from the end. */
  predicate EndsWith(s: string, suffix: string)
  {
    if suffix == [] then true
    else
      && s != []
      && s[|s| - 1] == suffix[|suffix| - 1]
      && EndsWith(s[..|s| - 1], suffix[..|suffix| - 1])
  }

  /** `s` ends with `suffix` exactly when its last `|suffix|` characters are `suffix`. */
  lemma {:induction false} EndsWithSlice(s: string, suffix: string)
    ensures EndsWith(s, suffix) <==> |suffix| <= |s| && s[|s| - |suffix|..] == suffix
  {
    if suffix != [] && s != [] {
      var s', suffix' := s[..|s| - 1], suffix[..|suffix| - 1];
      EndsWithSlice(s', suffix');
      if |suffix| <= |s| {
        var tail, tail' := s[|s| - |suffix|..], s'[|s'| - |suffix'|..];
        assert tail == tail' + [s[|s| - 1]];
        assert suffix == suffix' + [suffix[|suffix| - 1]];
      }
    }
  }

  /** The upper-case letters of the modelled repertoire: A-Z, and À-Ö, Ø-Þ. */
  predicate IsUpperCase(c: char)
  {
    ('A' <= c <= 'Z') || ('\U{C0}' <= c <= '\U{D6}') || ('\U{D8}' <= c <= '\U{DE}')
  }

  /** The lower-case letters that upper-case by moving down 0x20: a-z, and à-ö, ø-þ. */
  predicate IsShiftedLowerCase(c: char)
  {
    ('a' <= c <= 'z') || ('\U{E0}' <= c <= '\U{F6}') || ('\U{F8}' <= c <= '\U{FE}')
  }

  /** The lower-case mapping of one character. */
  function ToLowerChar(c: char): (r: char)
    ensures !IsUpperCase(r)
    ensures !IsUpperCase(c) ==> r == c
    ensures IsUpperCase(c) ==> IsShiftedLowerCase(r)
  {
    if IsUpperCase(c) then (c as int + 0x20) as char else c
  }

  /** `s.toLowerCase()`: maps every character and keeps the length. */
  function ToLowerCase(s: string): (r: string)
    ensures |r| == |s|
    ensures forall k :: 0 <= k < |r| ==> r[k] == ToLowerChar(s[k])
    ensures forall k :: 0 <= k < |r| ==> !IsUpperCase(r[k])
  {
    if s == [] then [] else ToLowerCase(s[..|s| - 1]) + [ToLowerChar(s[|s| - 1])]
  }

  /** Lower-casing twice is lower-casing once. */
  lemma ToLowerCaseIdempotent(s: string)
    ensures ToLowerCase(ToLowerCase(s)) == ToLowerCase(s)
  {
  }

  /**
   * `c.toLocaleUpperCase()` for one character, in a locale without special
   * rules. A character may upper-case to two (ß to "SS"). Characters outside
   * the Basic Multilingual Plane are left as they are: `word[0]` in the schema indexes
   * UTF-16 code units, so for such a character it upper-cases a lone
   * surrogate, which also stays as it is.
   */
  function ToUpperCase(c: char): (r: string)
    ensures 1 <= |r| <= 2
    ensures !IsShiftedLowerCase(c) && c != '\U{FF}' && c != '\U{B5}' && c != '\U{DF}' ==> r == [c]
  {
    if IsShiftedLowerCase(c) then [(c as int - 0x20) as char]
    else if c == '\U{FF}' then ['\U{178}']
    else if c == '\U{B5}' then ['\U{39C}']
    else if c == '\U{DF}' then "SS"
    else [c]
  }

  /** The two case tables are inverse on letters: an upper-case letter comes back from its lower case, and a shifted lower-case letter from its upper case. */
  lemma CaseRoundTrip(c: char)
    ensures IsUpperCase(c) ==> ToUpperCase(ToLowerChar(c)) == [c]
    ensures IsShiftedLowerCase(c) ==> ToLowerChar(ToUpperCase(c)[0]) == c
  {
  }

  /** Upper-casing brings in no whitespace: every character of the result is the input or is not whitespace. */
  lemma ToUpperCaseNoWhitespace(c: char)
    ensures forall k :: 0 <= k < |ToUpperCase(c)| ==> ToUpperCase(c)[k] == c || !IsWhitespace(ToUpperCase(c)[k])
  {
  }

  /** Upper-casing the first character of an upper-cased character changes nothing more. */
  lemma ToUpperCaseIdempotent(c: char)
    ensures ToUpperCase(ToUpperCase(c)[0]) == [ToUpperCase(c)[0]]
  {
  }
}
