/**
 * The `name` transform of the registration schema: trim, split on single
 * spaces, upper-case the first character of every word, join with single
 * spaces. A word that comes out empty (the name is all whitespace, or has two
 * spaces side by side inside the trimmed name) has no first character, and
 * the transform throws.
 */
module NameTransform {
  import opened Wrappers
  import opened JsString

  /** Every word has a first character. */
  predicate NoEmptyWord(words: seq<string>)
  {
    forall k :: 0 <= k < |words| ==> words[k] != []
  }

  /** No two spaces stand side by side. */
  predicate NoDoubleSpace(s: string)
  {
    forall k :: 0 <= k < |s| - 1 ==> !(s[k] == ' ' && s[k + 1] == ' ')
  }

  /** `word[0].toLocaleUpperCase().concat(word.substring(1))`. */
  function Capitalize(word: string): (r: string)
    requires word != []
    ensures |word| <= |r| <= |word| + 1
    ensures r[0] == ToUpperCase(word[0])[0]
    ensures |word| > 1 ==> r[|r| - 1] == word[|word| - 1]
  {
    ToUpperCase(word[0]) + word[1..]
  }

  /** The `.map(...)` over the words. */
  function CapitalizeAll(words: seq<string>): (r: seq<string>)
    requires NoEmptyWord(words)
    ensures |r| == |words|
    ensures forall k :: 0 <= k < |r| ==> r[k] == Capitalize(words[k])
    ensures NoEmptyWord(r)
  {
    if words == [] then [] else CapitalizeAll(words[..|words| - 1]) + [Capitalize(words[|words| - 1])]
  }

  /** The words the transform works on: the trimmed name split on `' '`. */
  function Words(name: string): (r: seq<string>)
    ensures |r| >= 1
  {
    Split(Trim(name), ' ')
  }

  /**
   * Splits `s` on `sep`, capitalizes every piece and joins the pieces again
   * with `sep`. `None` when some piece is empty and so has no first character.
   */
  function CapitalizeWords(s: string, sep: char): (r: Option<string>)
    ensures r.None? <==> !NoEmptyWord(Split(s, sep))
  {
    var words := Split(s, sep);
    if NoEmptyWord(words) then Some(Join(CapitalizeAll(words), sep)) else None
  }

  /**
   * The transform. `None` stands for the TypeError thrown when some word is
   * empty, so that `word[0]` is undefined.
   */
  function NormalizeName(name: string): (r: Option<string>)
    ensures r.None? <==> !NoEmptyWord(Words(name))
  {
    CapitalizeWords(Trim(name), ' ')
  }

  /** A string without the separator is its own single piece. */
  lemma NoEmptyWordWithoutSpace(s: string)
    requires ' ' !in s
    ensures NoEmptyWord(Split(s, ' ')) <==>
              s != [] && s[0] != ' ' && s[|s| - 1] != ' ' && NoDoubleSpace(s)
  {
    assert Split(s, ' ') == [s];
    assert forall k :: 0 <= k < |s| ==> s[k] in s;
    assert [s][0] == s;
  }

  /** Around its last space, `s` has no double space when the part before has none and does not end with a space. */
  lemma NoDoubleSpaceAround(s: string, i: nat)
    requires 0 < i < |s| - 1 && s[i] == ' ' && ' ' !in s[i + 1..]
    ensures NoDoubleSpace(s) <==> s[i - 1] != ' ' && NoDoubleSpace(s[..i])
  {
    var init, last := s[..i], s[i + 1..];
    assert forall k :: 0 <= k < i ==> s[k] == init[k];
    assert forall k :: i < k < |s| ==> s[k] != ' ' by {
      assert forall k :: i < k < |s| ==> s[k] == last[k - (i + 1)];
    }
  }

  /** Splitting yields no empty word exactly when the string is non-empty, has no space at either end and no two spaces side by side. */
  lemma {:induction false} NoEmptyWordIff(s: string)
    ensures NoEmptyWord(Split(s, ' ')) <==>
              s != [] && s[0] != ' ' && s[|s| - 1] != ' ' && NoDoubleSpace(s)
    decreases |s|
  {
    if ' ' !in s {
      NoEmptyWordWithoutSpace(s);
    } else {
      var i := LastIndexOf(s, ' ');
      var init, last := s[..i], s[i + 1..];
      NoEmptyWordIff(init);
      var words, front := Split(s, ' '), Split(init, ' ');
      assert words == front + [last];
      assert NoEmptyWord(words) <==> NoEmptyWord(front) && last != [] by {
        assert forall k :: 0 <= k < |front| ==> words[k] == front[k];
        assert words[|words| - 1] == last;
      }
      assert last != [] <==> s[|s| - 1] != ' ' by {
        if last != [] {
          assert s[|s| - 1] == last[|last| - 1];
          assert last[|last| - 1] in last;
        }
      }
      if init == [] {
        assert s[0] == ' ';
        assert Split(init, ' ') == [[]];
      } else if last != [] {
        assert s[0] == init[0];
        NoDoubleSpaceAround(s, i);
      }
    }
  }

  /** The transform is defined exactly when the trimmed name is non-empty and has no two spaces side by side. */
  lemma NormalizeNameDefinedIff(name: string)
    ensures NormalizeName(name).Some? <==> Trim(name) != [] && NoDoubleSpace(Trim(name))
  {
    NoEmptyWordIff(Trim(name));
  }

  /** Capitalizing a capitalized word changes nothing. */
  lemma CapitalizeIdempotent(word: string)
    requires word != []
    ensures Capitalize(Capitalize(word)) == Capitalize(word)
  {
    var u := ToUpperCase(word[0]);
    ToUpperCaseIdempotent(word[0]);
    assert Capitalize(word) == [u[0]] + (u[1..] + word[1..]);
  }

  /**
   * Only the first character of a word changes: every later character keeps
   * its place, shifted by one when the first character upper-cases to two.
   */
  lemma CapitalizeChangesOnlyFirst(word: string)
    requires word != []
    ensures var r, n := Capitalize(word), |ToUpperCase(word[0])|;
      && |r| == |word| + n - 1
      && r[..n] == ToUpperCase(word[0])
      && forall k :: 1 <= k < |word| ==> r[k + n - 1] == word[k]
    ensures |ToUpperCase(word[0])| == 1 ==>
              forall k :: 1 <= k < |word| ==> Capitalize(word)[k] == word[k]
  {
  }

  /** Capitalizing keeps a non-whitespace first or last character of a word non-whitespace. */
  lemma CapitalizeKeepsEnds(word: string)
    requires word != []
    ensures var r := Capitalize(word);
      && (!IsWhitespace(word[0]) ==> !IsWhitespace(r[0]))
      && (!IsWhitespace(word[|word| - 1]) ==> !IsWhitespace(r[|r| - 1]))
  {
    ToUpperCaseNoWhitespace(word[0]);
    if |word| == 1 {
      assert Capitalize(word) == ToUpperCase(word[0]);
    }
  }

  /** Capitalizing never brings in a whitespace separator the word did not hold. */
  lemma CapitalizeKeepsOut(word: string, sep: char)
    requires word != [] && IsWhitespace(sep) && sep !in word
    ensures sep !in Capitalize(word)
  {
    var r, u := Capitalize(word), ToUpperCase(word[0]);
    ToUpperCaseNoWhitespace(word[0]);
    assert r == u + word[1..];
    assert word[0] in word;
    assert forall k :: 1 <= k < |word| ==> word[1..][k - 1] == word[k];
  }

  /** The pieces of a split, capitalized, hold no whitespace separator. */
  lemma CapitalizeAllKeepsOut(words: seq<string>, sep: char)
    requires NoEmptyWord(words) && IsWhitespace(sep)
    requires forall k :: 0 <= k < |words| ==> sep !in words[k]
    ensures forall k :: 0 <= k < |words| ==> sep !in CapitalizeAll(words)[k]
  {
    forall k | 0 <= k < |words|
      ensures sep !in CapitalizeAll(words)[k]
    {
      CapitalizeKeepsOut(words[k], sep);
    }
  }

  /** The result begins and ends as the first and the last word, capitalized, do. */
  lemma CapitalizeWordsEnds(s: string, sep: char)
    requires CapitalizeWords(s, sep).Some?
    ensures var r, words := CapitalizeWords(s, sep).value, Split(s, sep);
      var first, last := Capitalize(words[0]), Capitalize(words[|words| - 1]);
      r != [] && r[0] == first[0] && r[|r| - 1] == last[|last| - 1]
  {
    var words := Split(s, sep);
    var capitalized := CapitalizeAll(words);
    var n := |words| - 1;
    assert CapitalizeWords(s, sep).value == Join(capitalized, sep);
    assert capitalized[0] == Capitalize(words[0]) && capitalized[n] == Capitalize(words[n]);
    JoinEnds(capitalized, sep);
  }

  /**
   * Splitting the result on a whitespace separator gives back the words,
   * one for one and in order, each with its first character upper-cased.
   */
  lemma CapitalizeWordsSplit(s: string, sep: char)
    requires IsWhitespace(sep) && CapitalizeWords(s, sep).Some?
    ensures Split(CapitalizeWords(s, sep).value, sep) == CapitalizeAll(Split(s, sep))
  {
    var words := Split(s, sep);
    CapitalizeAllKeepsOut(words, sep);
    SplitJoin(CapitalizeAll(words), sep);
  }

  /** Capitalizing the words of a result again changes nothing. */
  lemma CapitalizeWordsIdempotent(s: string, sep: char)
    requires IsWhitespace(sep) && CapitalizeWords(s, sep).Some?
    ensures CapitalizeWords(CapitalizeWords(s, sep).value, sep) == CapitalizeWords(s, sep)
  {
    var words := Split(s, sep);
    var capitalized := CapitalizeAll(words);
    CapitalizeWordsSplit(s, sep);
    forall k | 0 <= k < |capitalized|
      ensures CapitalizeAll(capitalized)[k] == capitalized[k]
    {
      CapitalizeIdempotent(words[k]);
    }
    assert CapitalizeAll(capitalized) == capitalized;
  }

  /** Capitalizing the words of a string without whitespace at its ends keeps it so. */
  lemma CapitalizeWordsKeepsEnds(s: string, sep: char)
    requires CapitalizeWords(s, sep).Some?
    requires s != [] && !IsWhitespace(s[0]) && !IsWhitespace(s[|s| - 1])
    ensures var r := CapitalizeWords(s, sep).value;
      r != [] && !IsWhitespace(r[0]) && !IsWhitespace(r[|r| - 1])
  {
    var words := Split(s, sep);
    var first, last := words[0], words[|words| - 1];
    SplitEnds(s, sep);
    assert !IsWhitespace(first[0]) && !IsWhitespace(last[|last| - 1]);
    CapitalizeKeepsEnds(first);
    CapitalizeKeepsEnds(last);
    CapitalizeWordsEnds(s, sep);
  }

  /** The result of the transform has no whitespace at either end. */
  lemma NormalizedIsTrimmed(name: string)
    requires NormalizeName(name).Some?
    ensures var r := NormalizeName(name).value;
      r != [] && !IsWhitespace(r[0]) && !IsWhitespace(r[|r| - 1])
  {
    var t := Trim(name);
    assert NormalizeName(name) == CapitalizeWords(t, ' ');
    NormalizeNameDefinedIff(name);
    CapitalizeWordsKeepsEnds(t, ' ');
  }

  /**
   * The transform keeps the words of the trimmed name, in order, one for one:
   * splitting its result on `' '` gives back each word with its first
   * character upper-cased and the rest unchanged.
   */
  lemma NormalizeNameWords(name: string)
    requires NormalizeName(name).Some?
    ensures Split(NormalizeName(name).value, ' ') == CapitalizeAll(Words(name))
    ensures |Split(NormalizeName(name).value, ' ')| == |Words(name)|
  {
    CapitalizeWordsSplit(Trim(name), ' ');
  }

  /** Applying the transform to its own result returns that result. */
  lemma NormalizeNameIdempotent(name: string)
    requires NormalizeName(name).Some?
    ensures NormalizeName(NormalizeName(name).value) == NormalizeName(name)
  {
    var r := NormalizeName(name).value;
    NormalizedIsTrimmed(name);
    assert Trim(r) == r;
    CapitalizeWordsIdempotent(Trim(name), ' ');
  }

  /** Two words without spaces, joined by one space, split back into those two words. */
  lemma SplitTwoWords(first: string, second: string)
    requires ' ' !in first && ' ' !in second
    ensures Split(first + " " + second, ' ') == [first, second]
  {
    SplitJoin([first, second], ' ');
  }

  /**
   * A name of two words separated by one space, with nothing to trim,
   * becomes the two words capitalized, separated by one space.
   */
  lemma NormalizeNameTwoWords(first: string, second: string)
    requires first != [] && second != [] && ' ' !in first && ' ' !in second
    requires !IsWhitespace(first[0]) && !IsWhitespace(second[|second| - 1])
    ensures NormalizeName(first + " " + second) == Some(Capitalize(first) + " " + Capitalize(second))
  {
    var name := first + " " + second;
    assert name[0] == first[0] && name[|name| - 1] == second[|second| - 1];
    assert Trim(name) == name;
    assert NormalizeName(name) == CapitalizeWords(name, ' ');
    SplitTwoWords(first, second);
    var capitalized := [Capitalize(first), Capitalize(second)];
    assert CapitalizeAll([first, second]) == capitalized;
    assert Join(capitalized, ' ') == Capitalize(first) + " " + Capitalize(second);
  }

  /** Words as they come out of the transform: "ana" as "Ana", "jo\U{E3}o" as "Jo\U{E3}o", "\U{E9}rica" as "\U{C9}rica", "\U{DF}a" as "SSa". */
  lemma CapitalizeExamples()
    ensures Capitalize("ana") == "Ana"
    ensures Capitalize("jo\U{E3}o") == "Jo\U{E3}o"
    ensures Capitalize("\U{E9}rica") == "\U{C9}rica"
    ensures Capitalize("\U{DF}a") == "SSa"
  {
    assert ToUpperCase('a') == "A";
    assert ToUpperCase('j') == "J";
    assert ToUpperCase('\U{E9}') == "\U{C9}";
    assert ToUpperCase('\U{DF}') == "SS";
  }

  /**
   * A name of blanks (at least one) passes the `min(1)` length check, but
   * trims to the empty string, whose one word is empty: the transform throws.
   */
  lemma NormalizeNameThrowsOnBlank(name: string)
    requires name != [] && forall k :: 0 <= k < |name| ==> IsWhitespace(name[k])
    ensures Utf16Length(name) >= 1
    ensures NormalizeName(name) == None
  {
    TrimEmptyIff(name);
    NormalizeNameDefinedIff(name);
  }

  /** Two spaces side by side between parts that trimming keeps leave an empty word between them: the transform throws. */
  lemma NormalizeNameThrowsOnDoubleSpace(first: string, second: string)
    requires first != [] && !IsWhitespace(first[0])
    requires second != [] && !IsWhitespace(second[|second| - 1])
    ensures NormalizeName(first + [' ', ' '] + second) == None
  {
    var name := first + [' ', ' '] + second;
    assert name[0] == first[0] && name[|name| - 1] == second[|second| - 1];
    assert Trim(name) == name;
    NormalizeNameDefinedIff(name);
    assert name[|first|] == ' ' && name[|first| + 1] == ' ';
  }

  /** A name of three blanks passes the length check and makes the transform throw. */
  lemma NormalizeNameThrowsOnThreeBlanks()
    ensures NormalizeName("   ") == None
  {
    NormalizeNameThrowsOnBlank("   ");
  }
}
