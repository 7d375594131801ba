/**
 * The password rule of `createUser` in controllers/userController.js: at least 8 characters
 * that pass `/^(?=.*[a-zA-Z])(?=.*\d)[a-zA-Z\d]+$/`.
 */
module Passwords {
  import opened Common

  const WeakPassword := "Password must be alphanumeric and at least 8 characters long."

  /** `[a-zA-Z]`. */
  predicate IsLetter(c: char)
  {
    'a' <= c <= 'z' || 'A' <= c <= 'Z'
  }

  /** `\d` without the `u` flag: an ASCII digit. */
  predicate IsDigit(c: char)
  {
    '0' <= c <= '9'
  }

  /**
   * The pattern read in one pass over the rest of the input, having seen a letter and a digit
   * or not so far: every character must match `[a-zA-Z\d]` up to the end (`$`), and by the end
   * both lookaheads must have found their character. A line terminator, which `.` would not
   * cross, can never be part of an accepted input, since the class excludes it.
   */
  function Scan(s: string, sawLetter: bool, sawDigit: bool): bool
  {
    if s == [] then sawLetter && sawDigit
    else if IsLetter(s[0]) then Scan(s[1..], true, sawDigit)
    else if IsDigit(s[0]) then Scan(s[1..], sawLetter, true)
    else false
  }

  /** `regex.test(password)`: the pattern, anchored at both ends, over the whole input. */
  function MatchesPattern(password: string): bool
  {
    Scan(password, false, false)
  }

  /**
   * The check of `createUser`: a password shorter than 8 or failing the pattern throws the
   * message above (which the error middleware answers); otherwise hashing and saving go on.
   */
  function CheckPassword(password: string): (r: Result<()>)
    ensures r.Err? ==> r.error == WeakPassword
  {
    if |password| < 8 || !MatchesPattern(password) then Err(WeakPassword) else Ok(())
  }

  /** The rule in words: 8 or more characters, all ASCII letters or digits, at least one of each. */
  predicate Acceptable(password: string)
  {
    |password| >= 8 &&
    (forall i :: 0 <= i < |password| ==> IsLetter(password[i]) || IsDigit(password[i])) &&
    (exists i :: 0 <= i < |password| && IsLetter(password[i])) &&
    (exists i :: 0 <= i < |password| && IsDigit(password[i]))
  }

  /** The scan accepts the rest exactly when it is all letters and digits and the two lookaheads are met. */
  lemma {:induction false} ScanMeaning(s: string, sawLetter: bool, sawDigit: bool)
    ensures Scan(s, sawLetter, sawDigit) <==>
      (forall i :: 0 <= i < |s| ==> IsLetter(s[i]) || IsDigit(s[i])) &&
      (sawLetter || exists i :: 0 <= i < |s| && IsLetter(s[i])) &&
      (sawDigit || exists i :: 0 <= i < |s| && IsDigit(s[i]))
  {
    if s != [] {
      var c := s[0];
      var t := s[1..];
      assert forall i :: 0 <= i < |t| ==> t[i] == s[i + 1];
      if IsLetter(c) {
        ScanMeaning(t, true, sawDigit);
      } else if IsDigit(c) {
        ScanMeaning(t, sawLetter, true);
      }
      assert (exists i :: 0 <= i < |s| && IsLetter(s[i])) <==> IsLetter(c) || exists i :: 0 <= i < |t| && IsLetter(t[i]) by {
        if exists i :: 0 <= i < |s| && IsLetter(s[i]) {
          var i :| 0 <= i < |s| && IsLetter(s[i]);
          if i > 0 { assert IsLetter(t[i - 1]); }
        }
      }
      assert (exists i :: 0 <= i < |s| && IsDigit(s[i])) <==> IsDigit(c) || exists i :: 0 <= i < |t| && IsDigit(t[i]) by {
        if exists i :: 0 <= i < |s| && IsDigit(s[i]) {
          var i :| 0 <= i < |s| && IsDigit(s[i]);
          if i > 0 { assert IsDigit(t[i - 1]); }
        }
      }
    }
  }

  /**
   * A password passes the check exactly when it follows the rule: shorter than 8, holding any
   * character outside `[a-zA-Z0-9]`, or lacking a letter or a digit, it is refused.
   */
  lemma CheckMeaning(password: string)
    ensures CheckPassword(password).Ok? <==> Acceptable(password)
  {
    ScanMeaning(password, false, false);
  }

  /** For example, "abcd1234" passes: eight letters and digits with at least one of each. */
  lemma CheckExamples()
    ensures CheckPassword("abcd1234").Ok?
  {
    var s := "abcd1234";
    assert Scan(s[8..], true, true);
    assert s[4..] == ['1'] + s[5..];
    assert Scan(s[4..], true, false) by {
      assert Scan(s[5..], true, true) by {
        assert s[5..] == ['2', '3', '4'];
      }
    }
    assert s == ['a', 'b', 'c', 'd'] + s[4..];
  }

  /** "abcdefgh" is refused: it holds no digit, so the scan ends without one. */
  lemma RefusesNoDigit()
    ensures CheckPassword("abcdefgh").Err?
  {
    var s := "abcdefgh";
    assert !Scan(s[7..], true, false) by {
      assert s[7..] == ['h'] && s[7..][1..] == [];
    }
    assert s[6..] == ['g'] + s[7..];
    assert s[4..] == ['e', 'f'] + s[6..];
    assert s == ['a', 'b', 'c', 'd'] + s[4..];
  }

  /** "abc 1234" is refused: the space is outside the class, and "ab12" is too short. */
  lemma RefusesOthers()
    ensures CheckPassword("abc 1234").Err? && CheckPassword("ab12").Err?
  {
    var s := "abc 1234";
    assert !Scan(s[3..], true, false) by {
      assert s[3..][0] == ' ';
    }
    assert s == ['a', 'b', 'c'] + s[3..];
  }
}
