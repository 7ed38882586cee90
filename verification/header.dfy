/** The avatar fallback of the page header (src/components/header.tsx, `getInitials`): the initials
    of the user's display name. */
module Header {
  import opened Types

  // ---------------------------------------------------------------------------------------------
  // String helpers

  /** `s.split(sep)` for a one-character separator: the pieces between separators, empty pieces
      included, and a single empty piece for the empty string. */
  function Split(s: string, sep: char): (parts: seq<string>)
    ensures |parts| >= 1
    ensures forall i :: 0 <= i < |parts| ==> sep !in parts[i]
  {
    if s == [] then [""]
    else
      var rest := Split(s[1..], sep);
      if s[0] == sep then [""] + rest
      else [[s[0]] + rest[0]] + rest[1..]
  }

  /** `parts.join(sep)`. */
  function Join(parts: seq<string>, sep: char): string
    requires |parts| >= 1
  {
    if |parts| == 1 then parts[0] else parts[0] + [sep] + Join(parts[1..], sep)
  }

  /** Splitting loses nothing: joining the pieces back with the separator gives the string again. */
  lemma {:induction false} JoinSplit(s: string, sep: char)
    ensures Join(Split(s, sep), sep) == s
  {
    if s != [] {
      var rest := Split(s[1..], sep);
      JoinSplit(s[1..], sep);
      if s[0] == sep {
        assert Split(s, sep)[1..] == rest;
      } else {
        var parts := Split(s, sep);
        assert parts[1..] == rest[1..];
        if |rest| > 1 {
          assert Join(rest, sep) == rest[0] + [sep] + Join(rest[1..], sep);
        }
      }
    }
  }

  /** The string splits into more than one piece exactly when it contains the separator. */
  lemma SplitMany(s: string, sep: char)
    ensures |Split(s, sep)| > 1 <==> sep in s
  {
    var parts := Split(s, sep);
    JoinSplit(s, sep);
    if |parts| > 1 {
      assert s == parts[0] + [sep] + Join(parts[1..], sep);
      assert s[|parts[0]|] == sep;
    } else {
      assert s == parts[0];
    }
  }

  /** No piece of the name split at spaces is empty: no leading, trailing or doubled space. */
  predicate NoEmptyWord(s: string) {
    var words := Split(s, ' ');
    forall i :: 0 <= i < |words| ==> words[i] != []
  }

  /** `toUpperCase` on ASCII letters; every other character is kept. */
  function UpperChar(c: char): char {
    if 'a' <= c <= 'z' then (c as int - 32) as char else c
  }

  function ToUpper(s: string): (r: string)
    ensures |r| == |s|
    ensures forall i :: 0 <= i < |s| ==> r[i] == UpperChar(s[i])
  {
    if s == [] then [] else [UpperChar(s[0])] + ToUpper(s[1..])
  }

  /** `${w[0]}` in a template: the first character, or the text "undefined" when `w` is empty. */
  function FirstCharText(w: string): string {
    if w == [] then "undefined" else [w[0]]
  }

  // ---------------------------------------------------------------------------------------------
  // getInitials as written

  /** `getInitials(name)`: "U" without a name; with several space-separated words, the first character
      of the first word and of the last word; otherwise the first character of the name; upper-cased. */
  function GetInitials(name: Option<string>): (r: string)
    ensures |r| >= 1
  {
    if name.None? || name.value == [] then "U"
    else
      var names := Split(name.value, ' ');
      if |names| > 1 then ToUpper(FirstCharText(names[0]) + FirstCharText(names[|names| - 1]))
      else ToUpper([name.value[0]])
  }

  /** A missing or empty name gives "U". */
  lemma InitialsWithoutName(name: Option<string>)
    requires name.None? || name.value == []
    ensures GetInitials(name) == "U"
  {
  }

  /** A name without spaces gives its upper-cased first character. */
  lemma InitialsOneWord(s: string)
    requires s != [] && ' ' !in s
    ensures GetInitials(Some(s)) == [UpperChar(s[0])]
  {
    SplitMany(s, ' ');
  }

  /** A name of several words, none of them empty, gives the upper-cased first characters of its first
      and last words, two characters in all. */
  lemma InitialsManyWords(s: string)
    requires ' ' in s && NoEmptyWord(s)
    ensures var words := Split(s, ' ');
      GetInitials(Some(s)) == [UpperChar(words[0][0]), UpperChar(words[|words| - 1][0])]
  {
    SplitMany(s, ' ');
  }

  /** Whenever no word is empty, the initials are one or two characters long. */
  lemma InitialsLength(name: Option<string>)
    requires name.Some? ==> NoEmptyWord(name.value)
    ensures 1 <= |GetInitials(name)| <= 2
  {
  }

  /** A name with a leading space yields the text "undefined" in its initials. */
  lemma LeadingSpaceInitials()
    ensures GetInitials(Some(" Ana")) == "UNDEFINEDA"
  {
    SplitAna();
  }

  /** A string without the separator is its own single piece. */
  lemma SplitWithoutSeparator(s: string, sep: char)
    requires sep !in s
    ensures Split(s, sep) == [s]
  {
    SplitMany(s, sep);
    JoinSplit(s, sep);
  }

  lemma SplitAna()
    ensures Split(" Ana", ' ') == ["", "Ana"]
  {
    assert " Ana"[0] == ' ' && " Ana"[1..] == "Ana";
    SplitWithoutSeparator("Ana", ' ');
  }

  // ---------------------------------------------------------------------------------------------
  // getInitials with empty words skipped

  /** The non-empty pieces, in order. */
  function NonEmptyWords(parts: seq<string>): (words: seq<string>)
    ensures forall i :: 0 <= i < |words| ==> words[i] != [] && words[i] in parts
    ensures (forall i :: 0 <= i < |parts| ==> parts[i] != []) ==> words == parts
  {
    if parts == [] then []
    else if parts[0] == [] then NonEmptyWords(parts[1..])
    else [parts[0]] + NonEmptyWords(parts[1..])
  }

  /** The initials of the words of the name, with the empty pieces left by extra spaces ignored:
      "U" when there is no word at all. */
  function Initials(name: Option<string>): (r: string)
    ensures 1 <= |r| <= 2
  {
    var words := if name.None? then [] else NonEmptyWords(Split(name.value, ' '));
    if words == [] then "U"
    else if |words| > 1 then ToUpper([words[0][0], words[|words| - 1][0]])
    else ToUpper([words[0][0]])
  }

  /** Where `getInitials` works as meant, when no word is empty, the corrected initials are the same. */
  lemma InitialsAgree(name: Option<string>)
    requires name.Some? ==> NoEmptyWord(name.value)
    ensures Initials(name) == GetInitials(name)
  {
    if name.Some? && name.value != [] {
      if ' ' in name.value {
        InitialsAgreeManyWords(name.value);
      } else {
        InitialsAgreeOneWord(name.value);
      }
    }
  }

  lemma InitialsAgreeOneWord(s: string)
    requires s != [] && ' ' !in s
    ensures Initials(Some(s)) == GetInitials(Some(s))
  {
    SplitWithoutSeparator(s, ' ');
    assert NonEmptyWords([s]) == [s];
  }

  lemma InitialsAgreeManyWords(s: string)
    requires ' ' in s && NoEmptyWord(s)
    ensures Initials(Some(s)) == GetInitials(Some(s))
  {
    var words := Split(s, ' ');
    SplitMany(s, ' ');
    assert NonEmptyWords(words) == words;
    FirstCharsOfWords(words[0], words[|words| - 1]);
  }

  lemma FirstCharsOfWords(first: string, last: string)
    requires first != [] && last != []
    ensures FirstCharText(first) + FirstCharText(last) == [first[0], last[0]]
  {
  }

  /** The corrected initials of " Ana" are "A". */
  lemma LeadingSpaceInitialsCorrected()
    ensures Initials(Some(" Ana")) == "A"
  {
    SplitAna();
    assert ["", "Ana"][1..] == ["Ana"];
    assert NonEmptyWords(["", "Ana"]) == ["Ana"];
  }
}
