/**
  The three password generators: random characters from a configurable
  alphabet, memorable pass-phrases drawn from a filtered vocabulary, and
  numeric PIN codes.

  Every call to `random.choice` is made explicit: a `generate` receives the
  sequence of indices that its draws pick, one per draw, so that each
  property below holds for every outcome of the random source.
 */
module Generators {
  import opened AsciiText

  /** The number of iterations of Python's `range(n)`: none when `n <= 0`. */
  function RangeCount(n: int): (count: nat)
    ensures n <= 0 ==> count == 0
    ensures n > 0 ==> count == n
  {
    if n <= 0 then 0 else n
  }

  /** `picks` is one index per iteration of `range(n)`, each a valid index
      into a pool of `poolSize` elements. */
  predicate ValidPicks(picks: seq<nat>, n: int, poolSize: nat) {
    && |picks| == RangeCount(n)
    && forall i :: 0 <= i < |picks| ==> picks[i] < poolSize
  }

  /** `[random.choice(pool) for _ in range(n)]`, where the i-th call picks
      `pool[picks[i]]`. */
  function Draw<T>(pool: seq<T>, picks: seq<nat>): (drawn: seq<T>)
    requires forall i :: 0 <= i < |picks| ==> picks[i] < |pool|
    ensures |drawn| == |picks|
    ensures forall i :: 0 <= i < |drawn| ==> drawn[i] == pool[picks[i]]
    ensures forall x :: x in drawn ==> x in pool
    decreases |picks|
  {
    if |picks| == 0 then [] else [pool[picks[0]]] + Draw(pool, picks[1..])
  }

  /** The position of the first occurrence of `x` in `pool`. */
  function IndexOf<T(==)>(pool: seq<T>, x: T): (k: nat)
    requires x in pool
    ensures k < |pool| && pool[k] == x
  {
    if pool[0] == x then 0 else 1 + IndexOf(pool[1..], x)
  }

  /** The picks that draw exactly `target`. */
  function PicksFor<T(==)>(pool: seq<T>, target: seq<T>): (picks: seq<nat>)
    requires forall x :: x in target ==> x in pool
    ensures |picks| == |target|
    ensures forall i :: 0 <= i < |picks| ==> picks[i] < |pool| && pool[picks[i]] == target[i]
  {
    seq(|target|, i requires 0 <= i < |target| => IndexOf(pool, target[i]))
  }

  /** Every sequence of pool elements can come out of the draws: the
      possible outputs are exactly the sequences over the pool. */
  lemma DrawCovers<T>(pool: seq<T>, target: seq<T>)
    requires forall x :: x in target ==> x in pool
    ensures exists picks: seq<nat> ::
      && |picks| == |target|
      && (forall i :: 0 <= i < |picks| ==> picks[i] < |pool|)
      && Draw(pool, picks) == target
  {
    var picks := PicksFor(pool, target);
    assert Draw(pool, picks) == target;
  }

  // ----------------------------------------------------------------------
  // RandomPasswordGenerator

  /** The character set of a random password: the letters, then the
      digits when asked for, then the punctuation when asked for. It holds
      52, 62, 84 or 94 characters, always the letters, and a digit or a
      punctuation character exactly when the corresponding flag is set. */
  function Alphabet(includeNumbers: bool, includeSymbols: bool): (chars: string)
    ensures |chars| == 52 + (if includeNumbers then 10 else 0) + (if includeSymbols then 32 else 0)
    ensures chars[..52] == AsciiLetters
    ensures forall c :: c in chars <==>
      IsAsciiLetter(c) || (includeNumbers && IsDigit(c)) || (includeSymbols && IsPunctuation(c))
  {
    LettersConstant();
    DigitsConstant();
    PunctuationConstant();
    AsciiLetters
      + (if includeNumbers then Digits else "")
      + (if includeSymbols then Punctuation else "")
  }

  class RandomPasswordGenerator {
    const length: int
    const characters: string
    ghost const includeNumbers: bool
    ghost const includeSymbols: bool

    /** The alphabet is the one the construction flags select. */
    ghost predicate Valid() {
      characters == Alphabet(includeNumbers, includeSymbols)
    }

    constructor (length: int := 8, includeNumbers: bool := false, includeSymbols: bool := false)
      ensures Valid()
      ensures this.length == length
      ensures this.includeNumbers == includeNumbers && this.includeSymbols == includeSymbols
    {
      this.length := length;
      this.includeNumbers := includeNumbers;
      this.includeSymbols := includeSymbols;
      var chars := AsciiLetters;
      if includeNumbers {
        chars := chars + Digits;
      }
      if includeSymbols {
        chars := chars + Punctuation;
      }
      characters := chars;
    }

    /** `''.join(random.choice(self.characters) for _ in range(self.length))`. */
    function Generate(picks: seq<nat>): (password: string)
      requires ValidPicks(picks, length, |characters|)
      ensures |password| == RangeCount(length)
      ensures forall c :: c in password ==> c in characters
    {
      Draw(characters, picks)
    }

    /** Every character of a generated password is a letter, a digit only
        when numbers were asked for, and punctuation only when symbols were. */
    lemma GenerateUsesAlphabet(picks: seq<nat>)
      requires Valid()
      requires ValidPicks(picks, length, |characters|)
      ensures forall c :: c in Generate(picks) ==>
        IsAsciiLetter(c) || (includeNumbers && IsDigit(c)) || (includeSymbols && IsPunctuation(c))
    {
    }

    /** Every string of the right length over the alphabet is a possible
        password. */
    lemma GenerateCovers(password: string)
      requires |password| == RangeCount(length)
      requires forall c :: c in password ==> c in characters
      ensures exists picks :: ValidPicks(picks, length, |characters|) && Generate(picks) == password
    {
      DrawCovers(characters, password);
      var picks :| && |picks| == |password|
                   && (forall i :: 0 <= i < |picks| ==> picks[i] < |characters|)
                   && Draw(characters, picks) == password;
      assert ValidPicks(picks, length, |characters|) && Generate(picks) == password;
    }
  }

  // ----------------------------------------------------------------------
  // MemorablePasswordGenerator

  /** The vocabulary filter: at least three characters, all alphabetic,
      that is, all drawn from `string.ascii_letters`. */
  predicate IsUsableWord(word: string)
    ensures IsUsableWord(word) <==> |word| >= 3 && forall c :: c in word ==> c in AsciiLetters
  {
    LettersConstant();
    |word| >= 3 && IsAlpha(word)
  }

  /** `[word for word in vocabulary if len(word) >= 3 and word.isalpha()]`. */
  function KeepUsable(words: seq<string>): (kept: seq<string>)
    ensures |kept| <= |words|
    ensures forall w :: w in kept <==> w in words && IsUsableWord(w)
  {
    if |words| == 0 then []
    else (if IsUsableWord(words[0]) then [words[0]] else []) + KeepUsable(words[1..])
  }

  /** Filtering a concatenation filters each part. */
  lemma {:induction false} KeepUsableAppend(a: seq<string>, b: seq<string>)
    ensures KeepUsable(a + b) == KeepUsable(a) + KeepUsable(b)
    decreases |a|
  {
    if |a| > 0 {
      assert (a + b)[1..] == a[1..] + b;
      KeepUsableAppend(a[1..], b);
    } else {
      assert a + b == b;
    }
  }

  /** Each usable word is kept as often as it occurs, each other word never. */
  lemma {:induction false} KeepUsableCounts(words: seq<string>, w: string)
    ensures multiset(KeepUsable(words))[w] == if IsUsableWord(w) then multiset(words)[w] else 0
    decreases |words|
  {
    if |words| > 0 {
      KeepUsableCounts(words[1..], w);
      assert words == [words[0]] + words[1..];
    }
  }

  /** `sub` is `words` with some elements removed, the rest in order. */
  predicate IsSubsequence(sub: seq<string>, words: seq<string>)
    decreases |words|
  {
    if |sub| == 0 then true
    else if |words| == 0 then false
    else
      || (sub[0] == words[0] && IsSubsequence(sub[1..], words[1..]))
      || IsSubsequence(sub, words[1..])
  }

  /** The kept words are in their original order. */
  lemma {:induction false} KeepUsableInOrder(words: seq<string>)
    ensures IsSubsequence(KeepUsable(words), words)
    decreases |words|
  {
    if |words| > 0 {
      KeepUsableInOrder(words[1..]);
      var rest := KeepUsable(words[1..]);
      if IsUsableWord(words[0]) {
        assert KeepUsable(words) == [words[0]] + rest;
        assert KeepUsable(words)[1..] == rest;
      } else {
        assert KeepUsable(words) == rest;
      }
    }
  }

  /** Filtering a filtered vocabulary changes nothing. */
  lemma {:induction false} KeepUsableIdempotent(words: seq<string>)
    ensures KeepUsable(KeepUsable(words)) == KeepUsable(words)
    decreases |words|
  {
    if |words| > 0 {
      var head := if IsUsableWord(words[0]) then [words[0]] else [];
      KeepUsableAppend(head, KeepUsable(words[1..]));
      KeepUsableIdempotent(words[1..]);
      if IsUsableWord(words[0]) {
        assert [words[0]][1..] == [];
      }
    }
  }

  datatype ChoiceError = EmptySequence

  /** A pass-phrase, or the `IndexError` of `random.choice` on an empty
      vocabulary. */
  datatype Outcome = Ok(password: string) | Err(error: ChoiceError)

  /** The words of a pass-phrase after the optional `capitalize` step. */
  function Style(words: seq<string>, capitalization: bool): (styled: seq<string>)
    ensures |styled| == |words|
    ensures forall i :: 0 <= i < |words| ==>
      styled[i] == if capitalization then Capitalize(words[i]) else words[i]
  {
    if capitalization then seq(|words|, i requires 0 <= i < |words| => Capitalize(words[i]))
    else words
  }

  class MemorablePasswordGenerator {
    const noOfWords: int
    const separator: string
    const capitalization: bool
    const vocabulary: seq<string>

    /** Only usable words remain after construction. */
    ghost predicate Valid() {
      forall w :: w in vocabulary ==> IsUsableWord(w)
    }

    constructor (vocabulary: seq<string>, noOfWords: int := 5, separator: string := "-", capitalization: bool := false)
      ensures Valid()
      ensures this.noOfWords == noOfWords && this.separator == separator
      ensures this.capitalization == capitalization
      ensures this.vocabulary == KeepUsable(vocabulary)
    {
      this.noOfWords := noOfWords;
      this.separator := separator;
      this.capitalization := capitalization;
      this.vocabulary := KeepUsable(vocabulary);
    }

    /** The draws fit the vocabulary whenever there is one to draw from;
        with an empty vocabulary the first draw fails whatever it picks. */
    predicate PicksFit(picks: seq<nat>) {
      && |picks| == RangeCount(noOfWords)
      && (|vocabulary| > 0 ==> ValidPicks(picks, noOfWords, |vocabulary|))
    }

    /** Draw `noOfWords` words, capitalize them if asked, join them with
        the separator. */
    function Generate(picks: seq<nat>): (r: Outcome)
      requires PicksFit(picks)
      ensures r.Err? <==> noOfWords >= 1 && |vocabulary| == 0
      ensures r.Ok? && noOfWords <= 0 ==> r.password == ""
    {
      if RangeCount(noOfWords) > 0 && |vocabulary| == 0 then Err(EmptySequence)
      else Ok(Join(separator, Style(Draw(vocabulary, picks), capitalization)))
    }

    /** The drawn words after styling: each is a usable word, equal up to
        case to the vocabulary word it was drawn as, and capitalized when
        asked for. */
    lemma StyledDrawnWords(picks: seq<nat>)
      requires Valid()
      requires PicksFit(picks)
      requires |picks| == 0 || |vocabulary| > 0
      ensures var words := Style(Draw(vocabulary, picks), capitalization);
        && |words| == RangeCount(noOfWords)
        && forall i :: 0 <= i < |words| ==>
             && picks[i] < |vocabulary|
             && IsUsableWord(words[i])
             && words[i] == (if capitalization then Capitalize(vocabulary[picks[i]]) else vocabulary[picks[i]])
             && LowerAll(words[i]) == LowerAll(vocabulary[picks[i]])
             && (capitalization ==> IsCapitalized(words[i]))
    {
      var words := Style(Draw(vocabulary, picks), capitalization);
      forall k | 0 <= k < |words|
        ensures IsUsableWord(words[k])
        ensures LowerAll(words[k]) == LowerAll(vocabulary[picks[k]])
        ensures capitalization ==> IsCapitalized(words[k])
      {
        var w := vocabulary[picks[k]];
        assert w in vocabulary;
        if capitalization {
          CapitalizeWord(w);
          CapitalizeKeepsLetters(w);
        }
      }
    }

    /** Whatever the separator, a generated pass-phrase is `noOfWords`
        usable words joined by it, each equal up to case to the vocabulary
        word drawn for it, capitalized when asked and unchanged otherwise. */
    lemma GenerateStructure(picks: seq<nat>)
      requires Valid()
      requires PicksFit(picks)
      ensures Generate(picks).Ok? ==> exists words: seq<string> ::
        && Generate(picks).password == Join(separator, words)
        && |words| == RangeCount(noOfWords)
        && forall i :: 0 <= i < |words| ==>
             && picks[i] < |vocabulary|
             && IsUsableWord(words[i])
             && LowerAll(words[i]) == LowerAll(vocabulary[picks[i]])
             && (if capitalization then IsCapitalized(words[i]) else words[i] == vocabulary[picks[i]])
    {
      if Generate(picks).Ok? {
        StyledDrawnWords(picks);
        var words := Style(Draw(vocabulary, picks), capitalization);
        assert Generate(picks).password == Join(separator, words);
        assert forall i :: 0 <= i < |words| ==>
             && picks[i] < |vocabulary|
             && IsUsableWord(words[i])
             && LowerAll(words[i]) == LowerAll(vocabulary[picks[i]])
             && (if capitalization then IsCapitalized(words[i]) else words[i] == vocabulary[picks[i]]);
      }
    }

    /** With a separator that does not start with a letter, splitting a
        generated pass-phrase at it gives back exactly the `noOfWords`
        drawn words, capitalized when asked for. */
    lemma GenerateWords(picks: seq<nat>)
      requires Valid()
      requires PicksFit(picks)
      requires noOfWords >= 1 && |vocabulary| > 0
      requires |separator| > 0 && !IsAsciiLetter(separator[0])
      ensures Generate(picks).Ok?
      ensures var parts := Split(Generate(picks).password, separator);
        && |parts| == noOfWords
        && forall i :: 0 <= i < noOfWords ==>
             && IsUsableWord(parts[i])
             && parts[i] == (if capitalization then Capitalize(vocabulary[picks[i]]) else vocabulary[picks[i]])
             && LowerAll(parts[i]) == LowerAll(vocabulary[picks[i]])
             && (capitalization ==> IsCapitalized(parts[i]))
    {
      StyledDrawnWords(picks);
      SplitJoin(separator, Style(Draw(vocabulary, picks), capitalization));
    }

    /** Every sequence of `noOfWords` vocabulary words, styled, can be
        the pass-phrase. */
    lemma GenerateCovers(words: seq<string>)
      requires |words| == RangeCount(noOfWords)
      requires forall w :: w in words ==> w in vocabulary
      ensures exists picks :: PicksFit(picks) && Generate(picks) == Ok(Join(separator, Style(words, capitalization)))
    {
      DrawCovers(vocabulary, words);
      var picks :| && |picks| == |words|
                   && (forall i :: 0 <= i < |picks| ==> picks[i] < |vocabulary|)
                   && Draw(vocabulary, picks) == words;
      assert PicksFit(picks);
    }
  }

  // ----------------------------------------------------------------------
  // PinCodeGenerator

  class PinCodeGenerator {
    const length: int

    constructor (length: int := 4)
      ensures this.length == length
    {
      this.length := length;
    }

    /** `''.join(random.choice(string.digits) for _ in range(self.length))`. */
    function Generate(picks: seq<nat>): (pin: string)
      requires ValidPicks(picks, length, |Digits|)
      ensures |pin| == RangeCount(length)
      ensures forall i :: 0 <= i < |pin| ==> IsDigit(pin[i])
    {
      DigitsConstant();
      Draw(Digits, picks)
    }

    /** Every digit string of the right length, leading zeros included, is
        a possible PIN. */
    lemma GenerateCovers(pin: string)
      requires |pin| == RangeCount(length)
      requires forall i :: 0 <= i < |pin| ==> IsDigit(pin[i])
      ensures exists picks :: ValidPicks(picks, length, |Digits|) && Generate(picks) == pin
    {
      DigitsConstant();
      DrawCovers(Digits, pin);
      var picks :| && |picks| == |pin|
                   && (forall i :: 0 <= i < |picks| ==> picks[i] < |Digits|)
                   && Draw(Digits, picks) == pin;
      assert ValidPicks(picks, length, |Digits|) && Generate(picks) == pin;
    }
  }
}
