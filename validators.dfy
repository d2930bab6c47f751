/** The account field rules of the registration, profile and
    change-password routes: the password pattern, which is a regular
    expression made only of look-aheads and one anchored character class, and
    the trimmed length bounds. `isEmail`, `normalizeEmail` and `isISO8601`
    belong to a library and are inputs to the routes, not modelled here. */
module Validators {
  import opened Text

  /** `[@$!%*?&]` */
  predicate IsSpecial(c: char) {
    c == '@' || c == '$' || c == '!' || c == '%' || c == '*' || c == '?' || c == '&'
  }

  /** `[A-Za-z\d@$!%*?&]` */
  predicate IsPasswordChar(c: char) {
    IsLower(c) || IsUpper(c) || IsDigit(c) || IsSpecial(c)
  }

  /** The look-ahead `(?=.*X)` tried at the start of `s`: the backtracking `.*`
      may stop at any position it reached without crossing a line terminator,
      and a character of class `X` must stand there. */
  predicate LookaheadFinds(s: string, x: char -> bool)
    decreases |s|
  {
    s != [] && (x(s[0]) || (!IsLineTerminator(s[0]) && LookaheadFinds(s[1..], x)))
  }

  /** Some character of `s` belongs to class `x`. */
  predicate Contains(s: string, x: char -> bool) {
    exists i :: 0 <= i < |s| && x(s[i])
  }

  /** For a class without line terminators, the look-ahead succeeds exactly
      when the first line of `s` holds a character of the class. */
  lemma {:induction false} LookaheadMeaning(s: string, x: char -> bool)
    requires forall c :: x(c) ==> !IsLineTerminator(c)
    ensures LookaheadFinds(s, x) <==> Contains(FirstLine(s), x)
    decreases |s|
  {
    if s != [] {
      LookaheadMeaning(s[1..], x);
      var l := FirstLine(s);
      if !IsLineTerminator(s[0]) {
        var t := FirstLine(s[1..]);
        assert l == [s[0]] + t;
        if Contains(t, x) {
          var i :| 0 <= i < |t| && x(t[i]);
          assert l[i + 1] == t[i];
        }
        if Contains(l, x) && !x(s[0]) {
          var i :| 0 <= i < |l| && x(l[i]);
          assert i > 0 && t[i - 1] == l[i];
        }
      } else {
        assert l == [];
      }
    }
  }

  /** `/^(?=.*[a-z])(?=.*[A-Z])(?=.*\d)(?=.*[@$!%*?&])[A-Za-z\d@$!%*?&]/.test(p)` */
  predicate PasswordPatternMatches(p: string) {
    && LookaheadFinds(p, IsLower) && LookaheadFinds(p, IsUpper)
    && LookaheadFinds(p, IsDigit) && LookaheadFinds(p, IsSpecial)
    && p != [] && IsPasswordChar(p[0])
  }

  /** `.isLength({ min: 8 }).matches(...)` on `password` / `newPassword`. */
  predicate PasswordAccepted(p: string) {
    |p| >= 8 && PasswordPatternMatches(p)
  }

  /** The password policy in words: at least 8 characters; a lower-case
      letter, an upper-case letter, a digit and one of `@$!%*?&` somewhere
      before the first line break; and a first character from
      `[A-Za-z0-9@$!%*?&]`. Nothing else is asked of the rest. */
  lemma PasswordPolicy(p: string)
    ensures PasswordAccepted(p) <==>
      && |p| >= 8 && IsPasswordChar(p[0])
      && Contains(FirstLine(p), IsLower) && Contains(FirstLine(p), IsUpper)
      && Contains(FirstLine(p), IsDigit) && Contains(FirstLine(p), IsSpecial)
  {
    LookaheadMeaning(p, IsLower);
    LookaheadMeaning(p, IsUpper);
    LookaheadMeaning(p, IsDigit);
    LookaheadMeaning(p, IsSpecial);
  }

  lemma {:induction false} LookaheadExtends(s: string, t: string, x: char -> bool)
    requires LookaheadFinds(s, x)
    ensures LookaheadFinds(s + t, x)
    decreases |s|
  {
    assert (s + t)[0] == s[0];
    if !x(s[0]) {
      assert (s + t)[1..] == s[1..] + t;
      LookaheadExtends(s[1..], t, x);
    }
  }

  /** The pattern is not anchored at the end: anything may follow an accepted password. */
  lemma PasswordNotEndAnchored(p: string, t: string)
    requires PasswordAccepted(p)
    ensures PasswordAccepted(p + t)
  {
    LookaheadExtends(p, t, IsLower);
    LookaheadExtends(p, t, IsUpper);
    LookaheadExtends(p, t, IsDigit);
    LookaheadExtends(p, t, IsSpecial);
    assert (p + t)[0] == p[0];
  }

  /** The digit and the special character must come before the first line
      break: `"Password\n1!"` has all four kinds of character but is refused. */
  lemma PasswordRefusedAcrossLines()
    ensures !PasswordAccepted("Password\n1!")
  {
    var first := "Password";
    var p := "Password\n1!";
    assert forall i :: 0 <= i < |first| ==> !IsLineTerminator(first[i]) && !IsDigit(first[i]);
    assert p == first + ['\n'] + "1!";
    FirstLineStopsAtBreak(first, '\n', "1!");
    assert !Contains(FirstLine(p), IsDigit);
    PasswordPolicy(p);
  }

  /** `"Passw0rd!"` is accepted, and so is anything that starts with it. */
  lemma PasswordAcceptedExamples(t: string)
    ensures PasswordAccepted("Passw0rd!")
    ensures PasswordAccepted("Passw0rd!" + t)
  {
    var ok := "Passw0rd!";
    assert forall i :: 0 <= i < |ok| ==> !IsLineTerminator(ok[i]);
    FirstLineWhole(ok);
    assert Contains(ok, IsLower) by { assert IsLower(ok[1]); }
    assert Contains(ok, IsUpper) by { assert IsUpper(ok[0]); }
    assert Contains(ok, IsDigit) by { assert IsDigit(ok[5]); }
    assert Contains(ok, IsSpecial) by { assert IsSpecial(ok[8]); }
    PasswordPolicy(ok);
    PasswordNotEndAnchored(ok, t);
  }

  /** `.trim().isLength({ min: lo, max: hi })`: the trimmed text has between
      `lo` and `hi` characters. */
  predicate TrimmedLengthIn(s: string, lo: nat, hi: nat) {
    lo <= |Trim(s)| <= hi
  }

  /** Text that passes a trimmed length check with a positive minimum is
      stored trimmed and non-empty, and within the maximum, as the schemas ask. */
  lemma TrimmedLengthFitsSchema(s: string, lo: nat, hi: nat)
    requires 1 <= lo && TrimmedLengthIn(s, lo, hi)
    ensures Trim(s) != [] && IsTrimmed(Trim(s)) && |Trim(s)| <= hi
    ensures Trim(Trim(s)) == Trim(s)
  {
    TrimIdempotent(s);
  }
}
