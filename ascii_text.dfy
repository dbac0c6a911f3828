/**
  The parts of Python's `string` module and `str` type that the password
  generators use, restricted to ASCII: the character-class constants, the
  `isalpha` and `capitalize` tests and transformations, and `str.join`,
  together with `str.split` as the partner of `join`.
 */
module AsciiText {

  datatype Option<T> = None | Some(value: T)

  /** `string.ascii_lowercase`, `string.ascii_uppercase` and their
      concatenation `string.ascii_letters`. */
  const AsciiLowercase: string := "abcdefghijklmnopqrstuvwxyz"
  const AsciiUppercase: string := "ABCDEFGHIJKLMNOPQRSTUVWXYZ"
  const AsciiLetters: string := AsciiLowercase + AsciiUppercase

  /** `string.digits`. */
  const Digits: string := "0123456789"

  /** `string.punctuation`: the 32 printable ASCII characters that are
      neither letters, digits nor space. */
  const Punctuation: string := "!\"#$%&'()*+,-./:;<=>?@[\\]^_`{|}~"

  predicate IsAsciiLower(c: char) { 'a' <= c <= 'z' }

  predicate IsAsciiUpper(c: char) { 'A' <= c <= 'Z' }

  /** The regular-expression class `[a-zA-Z]`. */
  predicate IsAsciiLetter(c: char) { IsAsciiLower(c) || IsAsciiUpper(c) }

  /** The regular-expression class `[0-9]`. */
  predicate IsDigit(c: char) { '0' <= c <= '9' }

  /** The regular-expression class `[a-zA-Z0-9]`. */
  predicate IsAsciiAlnum(c: char) { IsAsciiLetter(c) || IsDigit(c) }

  /** The four code-point ranges of ASCII punctuation. */
  predicate IsPunctuation(c: char) {
    || '!' <= c <= '/'
    || ':' <= c <= '@'
    || '[' <= c <= '`'
    || '{' <= c <= '~'
  }

  lemma LettersConstant()
    ensures |AsciiLetters| == 52
    ensures forall c :: c in AsciiLetters <==> IsAsciiLetter(c)
  {
  }

  lemma DigitsConstant()
    ensures |Digits| == 10
    ensures forall c :: c in Digits <==> IsDigit(c)
  {
  }

  lemma PunctuationConstant()
    ensures |Punctuation| == 32
    ensures forall c :: c in Punctuation <==> IsPunctuation(c)
  {
  }

  /** Python's `str.isalpha`, restricted to ASCII: non-empty and every
      character a letter. */
  predicate IsAlpha(s: string)
    ensures IsAlpha(s) <==> s != [] && forall c :: c in s ==> IsAsciiLetter(c)
  {
    |s| > 0 && forall i :: 0 <= i < |s| ==> IsAsciiLetter(s[i])
  }

  /** `str.upper` on one character: only `a`-`z` change. */
  function Upper(c: char): (u: char)
    ensures IsAsciiLower(c) ==> IsAsciiUpper(u) && u as int + 32 == c as int
    ensures !IsAsciiLower(c) ==> u == c
  {
    if IsAsciiLower(c) then (c as int - 32) as char else c
  }

  /** `str.lower` on one character: only `A`-`Z` change. */
  function Lower(c: char): (l: char)
    ensures IsAsciiUpper(c) ==> IsAsciiLower(l) && l as int == c as int + 32
    ensures !IsAsciiUpper(c) ==> l == c
  {
    if IsAsciiUpper(c) then (c as int + 32) as char else c
  }

  /** `str.lower` on a whole string. */
  function LowerAll(s: string): (r: string)
    ensures |r| == |s|
    ensures forall i :: 0 <= i < |s| ==> r[i] == Lower(s[i])
  {
    seq(|s|, i requires 0 <= i < |s| => Lower(s[i]))
  }

  /** Python's `str.capitalize` on ASCII text: the first character upper
      case, the rest lower case; the empty string is unchanged. */
  function Capitalize(s: string): (r: string)
    ensures |r| == |s|
    ensures |s| > 0 ==> !IsAsciiLower(r[0])
    ensures forall i :: 1 <= i < |r| ==> !IsAsciiUpper(r[i])
  {
    if |s| == 0 then "" else [Upper(s[0])] + LowerAll(s[1..])
  }

  /** What `capitalize` promises of a word made of letters. */
  predicate IsCapitalized(s: string) {
    && |s| > 0
    && IsAsciiUpper(s[0])
    && forall i :: 1 <= i < |s| ==> IsAsciiLower(s[i])
  }

  lemma CapitalizeWord(s: string)
    requires IsAlpha(s)
    ensures |Capitalize(s)| == |s|
    ensures IsCapitalized(Capitalize(s))
    ensures IsAlpha(Capitalize(s))
  {
  }

  /** A capitalized word equals the original word up to case, so it
      can be found in the vocabulary case-insensitively. */
  lemma CapitalizeKeepsLetters(s: string)
    ensures LowerAll(Capitalize(s)) == LowerAll(s)
  {
  }

  lemma CapitalizeIdempotent(s: string)
    ensures Capitalize(Capitalize(s)) == Capitalize(s)
  {
  }

  /** Python's `sep.join(words)`: the words in order, `sep` between
      consecutive words and nowhere else. */
  function Join(sep: string, words: seq<string>): (r: string)
    ensures |words| == 0 ==> r == ""
    ensures |words| > 0 ==> |r| == TotalLength(words) + (|words| - 1) * |sep|
    decreases |words|
  {
    if |words| == 0 then ""
    else if |words| == 1 then words[0]
    else words[0] + sep + Join(sep, words[1..])
  }

  function TotalLength(words: seq<string>): nat
  {
    if |words| == 0 then 0 else |words[0]| + TotalLength(words[1..])
  }

  /** A joined string begins with its first word and ends with its last:
      no separator leads or trails. */
  lemma {:induction false} JoinEnds(sep: string, words: seq<string>)
    requires |words| > 0
    ensures words[0] <= Join(sep, words)
    ensures var r := Join(sep, words);
      |words[|words| - 1]| <= |r| && r[|r| - |words[|words| - 1]|..] == words[|words| - 1]
    decreases |words|
  {
    if |words| > 1 {
      JoinEnds(sep, words[1..]);
    }
  }

  /** `sep` occurs in `s` starting at position `j`. */
  predicate OccursAt(s: string, sep: string, j: nat) {
    j + |sep| <= |s| && s[j..j + |sep|] == sep
  }

  /** Python's `s.find(sep, start)` for a non-empty `sep`: the leftmost
      position at or after `start` where `sep` occurs. */
  function FindFrom(s: string, sep: string, start: nat): (r: Option<nat>)
    requires |sep| > 0 && start <= |s|
    ensures r.Some? ==> start <= r.value && OccursAt(s, sep, r.value)
    ensures r.Some? ==> forall j :: start <= j < r.value ==> !OccursAt(s, sep, j)
    ensures r.None? ==> forall j :: start <= j <= |s| ==> !OccursAt(s, sep, j)
    decreases |s| - start
  {
    if start + |sep| > |s| then None
    else if OccursAt(s, sep, start) then Some(start)
    else FindFrom(s, sep, start + 1)
  }

  /** Python's `s.split(sep)` for a non-empty `sep`. */
  function Split(s: string, sep: string): (parts: seq<string>)
    requires |sep| > 0
    ensures |parts| > 0
    decreases |s|
  {
    match FindFrom(s, sep, 0)
    case None => [s]
    case Some(k) => [s[..k]] + Split(s[k + |sep|..], sep)
  }

  /** A string of letters holds no separator that begins with a non-letter. */
  lemma FindInWord(w: string, sep: string)
    requires |sep| > 0 && !IsAsciiLetter(sep[0])
    requires forall i :: 0 <= i < |w| ==> IsAsciiLetter(w[i])
    ensures FindFrom(w, sep, 0) == None
  {
  }

  /** The first separator after a word of letters is the one `join` put there. */
  lemma FindAfterWord(w: string, sep: string, rest: string)
    requires |sep| > 0 && !IsAsciiLetter(sep[0])
    requires forall i :: 0 <= i < |w| ==> IsAsciiLetter(w[i])
    ensures FindFrom(w + sep + rest, sep, 0) == Some(|w|)
  {
    var s := w + sep + rest;
    assert OccursAt(s, sep, |w|) by {
      assert s[|w|..|w| + |sep|] == sep;
    }
    forall j | 0 <= j < |w|
      ensures !OccursAt(s, sep, j)
    {
      assert s[j..j + |sep|][0] == w[j];
    }
  }

  /** `split` undoes `join` when the words are made of letters and the
      separator does not start with a letter. */
  lemma {:induction false} SplitJoin(sep: string, words: seq<string>)
    requires |sep| > 0 && !IsAsciiLetter(sep[0])
    requires |words| > 0
    requires forall k, i :: 0 <= k < |words| && 0 <= i < |words[k]| ==> IsAsciiLetter(words[k][i])
    ensures Split(Join(sep, words), sep) == words
    decreases |words|
  {
    if |words| == 1 {
      FindInWord(words[0], sep);
    } else {
      var rest := Join(sep, words[1..]);
      var s := words[0] + sep + rest;
      FindAfterWord(words[0], sep, rest);
      assert s[..|words[0]|] == words[0];
      assert s[|words[0]| + |sep|..] == rest;
      SplitJoin(sep, words[1..]);
      assert [words[0]] + words[1..] == words;
    }
  }
}
