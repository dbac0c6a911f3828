/**
  `check_password_strength`: a three-tier heuristic over the length of a
  password and the character classes it uses.
 */
module PasswordStrength {
  import opened AsciiText

  datatype Strength = Weak | Medium | Strong

  /** The string the Python function returns for each tier. */
  function Label(s: Strength): (name: string)
    ensures name in {"Weak", "Medium", "Strong"}
  {
    match s
    case Weak => "Weak"
    case Medium => "Medium"
    case Strong => "Strong"
  }

  lemma LabelInjective(a: Strength, b: Strength)
    ensures Label(a) == Label(b) <==> a == b
  {
  }

  /** `re.match(r'^[C]+$', s)` for a character class `C`: one or more
      characters of the class from the start, followed by a position where
      `$` holds. Without the MULTILINE flag, `$` holds at the end of the
      string and also just before a newline that ends the string. */
  predicate MatchesWhole(s: string, inClass: char -> bool)
    ensures !inClass('\n') ==>
      (MatchesWhole(s, inClass) <==>
         var t := Trimmed(s); |t| > 0 && forall i :: 0 <= i < |t| ==> inClass(t[i]))
  {
    || (|s| > 0 && forall i :: 0 <= i < |s| ==> inClass(s[i]))
    || (|s| > 1 && s[|s| - 1] == '\n' && forall i :: 0 <= i < |s| - 1 ==> inClass(s[i]))
  }

  /** The part of `s` that a `^...$` pattern has to cover: `s` without
      one final newline. */
  function Trimmed(s: string): (t: string)
    ensures t <= s && |s| - 1 <= |t|
    ensures |t| < |s| <==> |s| > 0 && s[|s| - 1] == '\n'
    ensures '\n' !in s ==> t == s
  {
    if |s| > 0 && s[|s| - 1] == '\n' then s[..|s| - 1] else s
  }

  /** Weak below 8 characters; from 8 to 11 characters Weak when only
      letters, Medium when only letters and digits; Strong otherwise. */
  function CheckPasswordStrength(password: string): (r: Strength)
    ensures |password| < 8 ==> r == Weak
    ensures |password| >= 12 ==> r == Strong
    ensures 8 <= |password| < 12 ==>
      var t := Trimmed(password);
      && (r == Weak <==> forall i :: 0 <= i < |t| ==> IsAsciiLetter(t[i]))
      && (r == Medium <==>
            && (forall i :: 0 <= i < |t| ==> IsAsciiAlnum(t[i]))
            && (exists i :: 0 <= i < |t| && IsDigit(t[i])))
      && (r == Strong <==> exists i :: 0 <= i < |t| && !IsAsciiAlnum(t[i]))
  {
    if |password| < 8 then Weak
    else if |password| < 12 && MatchesWhole(password, IsAsciiLetter) then Weak
    else if |password| < 12 && MatchesWhole(password, IsAsciiAlnum) then Medium
    else Strong
  }

  /** For a password without newlines the middle tier reads directly off
      its characters; a symbol sends it past Medium to Strong. */
  lemma MiddleTier(password: string)
    requires 8 <= |password| < 12
    requires '\n' !in password
    ensures CheckPasswordStrength(password) == Weak <==>
      forall c :: c in password ==> IsAsciiLetter(c)
    ensures CheckPasswordStrength(password) == Medium <==>
      (forall c :: c in password ==> IsAsciiAlnum(c)) && exists c :: c in password && IsDigit(c)
    ensures CheckPasswordStrength(password) == Strong <==>
      exists c :: c in password && !IsAsciiAlnum(c)
  {
  }

  /** One trailing newline does not count against a password: letters
      followed by a newline are still Weak in the middle tier. */
  lemma TrailingNewline(letters: string)
    requires 7 <= |letters| <= 10
    requires forall i :: 0 <= i < |letters| ==> IsAsciiLetter(letters[i])
    ensures CheckPasswordStrength(letters + "\n") == Weak
  {
  }

  function Rank(s: Strength): nat {
    match s
    case Weak => 0
    case Medium => 1
    case Strong => 2
  }

  /** Typing one more character never makes a password weaker. */
  lemma AppendNeverWeakens(password: string, c: char)
    ensures Rank(CheckPasswordStrength(password)) <= Rank(CheckPasswordStrength(password + [c]))
  {
    var p' := password + [c];
    if 8 <= |password| && |p'| < 12 {
      var t, t' := Trimmed(password), Trimmed(p');
      assert t <= t' by {
        if c == '\n' {
          assert t' == password;
        } else {
          assert t' == p';
        }
      }
      match CheckPasswordStrength(password)
      case Weak =>
      case Medium =>
        var i :| 0 <= i < |t| && IsDigit(t[i]);
        assert t'[i] == t[i];
      case Strong =>
        var i :| 0 <= i < |t| && !IsAsciiAlnum(t[i]);
        assert t'[i] == t[i];
    }
  }

  /** The worked examples of the heuristic, including the empty password,
      which the first rule already classifies. */
  lemma Examples()
    ensures CheckPasswordStrength("") == Weak
    ensures CheckPasswordStrength("abc") == Weak
    ensures CheckPasswordStrength("abcdefgh") == Weak
    ensures CheckPasswordStrength("abcdefg1") == Medium
    ensures CheckPasswordStrength("abcdefg!") == Strong
    ensures CheckPasswordStrength("abcdefghijkl") == Strong
    ensures CheckPasswordStrength("abcdefgh\n") == Weak
  {
  }
}
