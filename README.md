# Password generator: verified model

This project models the core of a small password-generator library. The
model covers three generators and a strength heuristic:

- **`RandomPasswordGenerator`** builds its alphabet when it is created. The
  alphabet is the 52 ASCII letters, then the 10 digits if numbers were asked
  for, then the 32 ASCII punctuation characters if symbols were asked for.
  `generate` draws `length` characters from it, with replacement.
- **`MemorablePasswordGenerator`** filters its vocabulary when it is created.
  It keeps only the words that have at least three characters and are
  entirely alphabetic. `generate` draws `no_of_words` words, with
  replacement. It capitalizes each word if asked, then joins the words with
  the separator.
- **`PinCodeGenerator`** draws `length` decimal digits.
- **`check_password_strength`** returns one of three labels:
  - Weak for a password shorter than 8 characters;
  - for 8 to 11 characters, Weak when it is only letters and Medium when it
    is only letters and digits;
  - Strong for everything else.

Files:

- `ascii_text.dfy` (module `AsciiText`) holds Python's `string` constants and
  the `str` operations the generators use: `isalpha`, `capitalize` and
  `join`. It also has `find` and `split`, which are the partners of `join`
  in the proofs.
- `generators.dfy` (module `Generators`) holds the three generator classes.
  Their fields are `const`, because they are fixed once construction ends.
  `RandomPasswordGenerator`'s constructor builds the alphabet step by step,
  as the source does.
- `strength.dfy` (module `PasswordStrength`) holds the classifier.

The random source is an explicit input. Each `Generate` takes a sequence
`picks` that holds one index per call to `random.choice`. Draw `i` takes
element `picks[i]` of the pool. Each generator has two kinds of result:

- **Soundness.** Every output has the promised shape. This is stated in the
  `Generate` contracts and in the lemmas beside them.
- **Completeness.** Every string of that shape can be produced by some
  picks. This is stated in the `GenerateCovers` lemmas.

Together they show that the possible outputs are exactly the promised ones.

`range(n)` yields nothing when `n <= 0` (`Generators.RangeCount`), so a
non-positive length gives the empty password. A memorable password with
`no_of_words <= 0` is also the empty string, and it makes no draw. With
`no_of_words >= 1` and an empty filtered vocabulary, the first
`random.choice` raises `IndexError`. The model returns
`Err(EmptySequence)` for that case.

The empty password classifies as Weak, because `len(password) < 8` is
tested first (`PasswordStrength.Examples`).

## Model

| member | source | states |
|---|---|---|
| `AsciiText.LettersConstant` | src/password_generator.py:43 | `string.ascii_letters` has 52 characters, and a character is in it exactly when it is in `[a-zA-Z]` |
| `AsciiText.DigitsConstant` | src/password_generator.py:45 | `string.digits` has 10 characters, exactly `'0'..'9'` |
| `AsciiText.PunctuationConstant` | src/password_generator.py:47 | `string.punctuation` has 32 characters, exactly the four ASCII punctuation ranges |
| `Generators.Alphabet` | src/password_generator.py:43-47 | the alphabet has 52, 62, 84 or 94 characters and starts with the letters; it contains a digit or a punctuation character exactly when that flag is set |
| `Generators.RandomPasswordGenerator.constructor` | src/password_generator.py:33-47 | the parameters default to `length=8` and both flags off, as in the source; `characters` is the alphabet that the two flags select, built by conditional appends, and `length` is stored unchanged |
| `Generators.Draw` | src/password_generator.py:56 | the drawn sequence has one element per pick, element `i` is `pool[picks[i]]`, and so every element comes from the pool |
| `Generators.DrawCovers` | src/password_generator.py:56 | every sequence over the pool is the result of some pick sequence |
| `Generators.RandomPasswordGenerator.Generate` | src/password_generator.py:56 | the password has `max(length, 0)` characters, each one from `characters` |
| `Generators.RandomPasswordGenerator.GenerateUsesAlphabet` | src/password_generator.py:43-56 | every character is an ASCII letter, or a digit when numbers were asked for, or a punctuation character when symbols were asked for; nothing else can appear |
| `Generators.RandomPasswordGenerator.GenerateCovers` | src/password_generator.py:56 | every string of length `max(length, 0)` over `characters` is a possible password |
| `AsciiText.IsAlpha` | src/password_generator.py:84 | `word.isalpha()` on ASCII: the word is non-empty and every character is a letter |
| `Generators.IsUsableWord` | src/password_generator.py:84 | a word passes the filter exactly when it has at least 3 characters, all from `string.ascii_letters` |
| `Generators.KeepUsable` | src/password_generator.py:84 | the kept words are exactly the input words that have at least 3 characters and are all alphabetic; there are no more of them than inputs |
| `Generators.KeepUsableCounts` | src/password_generator.py:84 | each usable word is kept as many times as it occurs in the input, and every other word is dropped |
| `Generators.KeepUsableInOrder` | src/password_generator.py:84 | the kept words are a subsequence of the input, in the original order |
| `Generators.KeepUsableAppend` | src/password_generator.py:84 | filtering a concatenation gives the concatenation of the filtered parts |
| `Generators.KeepUsableIdempotent` | src/password_generator.py:84 | filtering an already filtered vocabulary changes nothing |
| `Generators.MemorablePasswordGenerator.constructor` | src/password_generator.py:63-84 | the parameters default to five words, `-` and no capitalization, as in the source; the settings are stored unchanged, and the vocabulary is the filtered input, so every stored word is usable |
| `Generators.Style` | src/password_generator.py:94-95 | with capitalization each word is replaced by its `capitalize`d form; without it the words are unchanged |
| `Generators.MemorablePasswordGenerator.Generate` | src/password_generator.py:93-96 | fails exactly when at least one word is to be drawn and the vocabulary is empty; otherwise succeeds, with `""` when `no_of_words <= 0` |
| `Generators.MemorablePasswordGenerator.StyledDrawnWords` | src/password_generator.py:93-95 | there is one styled word per draw; word `i` is a usable word, equal up to case to the vocabulary word at `picks[i]`, and its `capitalize`d form when asked |
| `Generators.MemorablePasswordGenerator.GenerateStructure` | src/password_generator.py:93-96 | for any separator, the empty one included, a successful result is some `no_of_words` words joined by the separator. Each word is usable and equal up to case to its drawn vocabulary word. With capitalization each word is capitalized; without it, each word is the drawn word unchanged |
| `Generators.MemorablePasswordGenerator.GenerateWords` | src/password_generator.py:93-96 | consider `no_of_words >= 1`, a non-empty vocabulary, and a non-empty separator that does not start with a letter. Splitting the password at it gives exactly `no_of_words` parts. Part `i` is the `i`-th drawn word, capitalized if asked. Every part is a usable word and equals its vocabulary word up to case. With capitalization, every part starts with an upper-case letter and the rest is lower case |
| `Generators.MemorablePasswordGenerator.GenerateCovers` | src/password_generator.py:93-96 | every sequence of `no_of_words` vocabulary words, styled and joined, is a possible password |
| `Generators.PinCodeGenerator.constructor` | src/password_generator.py:103-110 | the length defaults to 4, as in the source, and is stored unchanged |
| `Generators.PinCodeGenerator.Generate` | src/password_generator.py:119 | the PIN has `max(length, 0)` characters, all in `'0'..'9'` |
| `Generators.PinCodeGenerator.GenerateCovers` | src/password_generator.py:119 | every digit string of length `max(length, 0)` is a possible PIN, including ones with leading zeros |
| `AsciiText.Upper` | src/password_generator.py:95 | upper-cases `a`-`z` and leaves every other character alone |
| `AsciiText.Lower` | src/password_generator.py:95 | lower-cases `A`-`Z` and leaves every other character alone |
| `AsciiText.LowerAll` | src/password_generator.py:95 | lower-cases every character of a string and keeps its length |
| `AsciiText.Capitalize` | src/password_generator.py:95 | `str.capitalize` keeps the length; the first character is not lower case and no later character is upper case |
| `AsciiText.CapitalizeWord` | src/password_generator.py:95 | capitalizing an alphabetic word keeps its length and the result is still made of letters; its first character is upper case and the rest are lower case |
| `AsciiText.CapitalizeKeepsLetters` | src/password_generator.py:95 | a capitalized word is the original word up to case |
| `AsciiText.CapitalizeIdempotent` | src/password_generator.py:95 | capitalizing twice is the same as capitalizing once |
| `AsciiText.Join` | src/password_generator.py:96 | joining no words gives `""`; otherwise the length is the total word length plus one separator between each pair of neighbouring words |
| `AsciiText.JoinEnds` | src/password_generator.py:96 | a joined string starts with its first word and ends with its last word, so no separator leads or trails |
| `AsciiText.SplitJoin` | src/password_generator.py:96 | for one or more words made of ASCII letters and a non-empty separator whose first character is not a letter, `split` gives back exactly the words that `join` joined |
| `PasswordStrength.Label` | src/password_generator.py:130-139 | the result is one of `'Weak'`, `'Medium'` and `'Strong'` |
| `PasswordStrength.LabelInjective` | src/password_generator.py:130-139 | different tiers have different labels |
| `PasswordStrength.MatchesWhole` | src/password_generator.py:135-137 | `re.match(r'^[C]+$', s)`: for a class without the newline, it matches exactly when `s` minus one final newline is non-empty and entirely in the class |
| `PasswordStrength.Trimmed` | src/password_generator.py:135-137 | the result is a prefix of `s`; it is one character shorter exactly when `s` ends with a newline and otherwise equals `s` |
| `PasswordStrength.CheckPasswordStrength` | src/password_generator.py:132-139 | Weak below 8 characters and Strong at 12 or more. From 8 to 11 characters, the password without one final newline decides the tier. Weak means all letters. Medium means letters and digits with at least one digit. Strong means at least one other character. Each tier is stated in both directions |
| `PasswordStrength.MiddleTier` | src/password_generator.py:134-139 | for a password of 8 to 11 characters without a newline, the same three tiers in both directions, stated over the password's own characters. A symbol makes it Strong |
| `PasswordStrength.TrailingNewline` | src/password_generator.py:135 | because of how `$` matches, 7 to 10 letters followed by one newline classify as Weak |
| `PasswordStrength.AppendNeverWeakens` | src/password_generator.py:132-139 | adding a character to the end never lowers the tier |
| `PasswordStrength.Examples` | src/password_generator.py:132-139 | `""`, `"abc"`, `"abcdefgh"` and `"abcdefgh\n"` are Weak; `"abcdefg1"` is Medium; `"abcdefg!"` and `"abcdefghijkl"` are Strong |

## Left out

- `src/app.py` is not part of this model. It is an interactive page: layout, sliders, buttons, clipboard and session history. It has no algorithmic content.
- The constructors keep the source's default arguments (`length=8`, `no_of_words=5`, `separator="-"`, `capitalization=False`, PIN `length=4`). The vocabulary moves first in `MemorablePasswordGenerator`'s parameter list because it has no default in the model.
- The word-list download at import and the default word-list corpus (src/password_generator.py:11, 79-80) are file and network I/O from a foreign library. The vocabulary is always supplied by the caller.
- Uniformity and independence of `random.choice` cannot be stated in this model. The model only fixes which outputs are possible, through explicit pick indices.
- `AsciiText.IsAlpha` accepts only the ASCII letters. Python's `str.isalpha` also accepts non-ASCII letters, so a word such as `café` that Python keeps is dropped by `Generators.KeepUsable`.
- `AsciiText.Upper` and `AsciiText.Lower` change only ASCII letters. Python's Unicode case mapping is left out. Every stored word is ASCII letters, so capitalizing a vocabulary word is exact.
- The abstract base class `PasswordGenerator` (src/password_generator.py:14-26) is an interface with no behaviour. The three classes each have their own `Generate`, and there is no common supertype.
- The general regular-expression engine is left out. Only the two anchored patterns of `check_password_strength` are modelled, including the way `$` matches before one final newline.
- The error of an empty vocabulary is the value `Err(EmptySequence)`, not a raised `IndexError`.
- `Generators.MemorablePasswordGenerator.GenerateWords`: the split-based statement of the word structure needs `no_of_words >= 1`, a non-empty vocabulary, and a non-empty separator whose first character is not a letter. With `no_of_words <= 0` the password is `""`, and splitting it gives one empty part. The default `"-"` is such a separator. For any separator, including the empty one, `Generators.MemorablePasswordGenerator.GenerateStructure` states the same per-word facts over the joined words instead.
- `AsciiText.FindFrom` and `AsciiText.Split` model `str.find` and `str.split`, which the source does not call. They are proof helpers that give `join` an inverse in `AsciiText.SplitJoin`.
