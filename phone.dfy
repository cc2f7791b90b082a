/** The phone-number pattern `^(\d{2,3})?[- ]?(\d{3,4})[- ]?(\d{4})$`:
    an optional area code of two or three digits, an optional separator,
    an exchange of three or four digits, an optional separator and a
    four-digit line number, with nothing before or after.

    `InPhoneLanguage` gives the language as the pattern's five segments;
    `MatchesPhone` decides it by one right-to-left reading without
    backtracking; `MatchesPhoneIsLanguage` proves that the two agree. */
module Phone {
  import opened Text

  /** `[- ]`: a hyphen or a space. */
  predicate IsSeparator(c: char) {
    c == '-' || c == ' '
  }

  predicate DigitsIn(s: string, i: nat, j: nat)
    requires i <= j <= |s|
  {
    forall k :: i <= k < j ==> IsDigit(s[k])
  }

  predicate SeparatorsIn(s: string, i: nat, j: nat)
    requires i <= j <= |s|
  {
    forall k :: i <= k < j ==> IsSeparator(s[k])
  }

  /** `s` is cut by the pattern into an area code of `a` digits, `p`
      separators, an exchange of `e` digits, `q` separators and four digits. */
  ghost predicate PhoneShape(s: string, a: nat, p: nat, e: nat, q: nat) {
    && |s| == a + p + e + q + 4
    && (a == 0 || a == 2 || a == 3)
    && p <= 1
    && (e == 3 || e == 4)
    && q <= 1
    && DigitsIn(s, 0, a)
    && SeparatorsIn(s, a, a + p)
    && DigitsIn(s, a + p, a + p + e)
    && SeparatorsIn(s, a + p + e, a + p + e + q)
    && DigitsIn(s, a + p + e + q, |s|)
  }

  /** The strings the phone pattern accepts. */
  ghost predicate InPhoneLanguage(s: string) {
    exists a: nat, p: nat, e: nat, q: nat :: PhoneShape(s, a, p, e, q)
  }

  /** Length of the run of digits that ends just before position `end`. */
  function DigitRunBefore(s: string, end: nat): (n: nat)
    requires end <= |s|
    ensures n <= end
    ensures DigitsIn(s, end - n, end)
    ensures n < end ==> !IsDigit(s[end - n - 1])
    decreases end
  {
    if end == 0 || !IsDigit(s[end - 1]) then 0 else DigitRunBefore(s, end - 1) + 1
  }

  /** The recogniser: the last four characters must be digits; one separator
      before them is taken if present; the digit run before that is the
      exchange, possibly with the area code glued to its front; whatever
      remains must be a separator, alone or after two or three digits. */
  function MatchesPhone(s: string): bool {
    && |s| >= 4
    && DigitsIn(s, |s| - 4, |s|)
    && var q := if |s| >= 5 && IsSeparator(s[|s| - 5]) then 1 else 0;
       var x := |s| - 4 - q;
       var e := DigitRunBefore(s, x);
       var h := x - e;
       if h == 0 then 3 <= e <= 7
       else
         && 3 <= e <= 4
         && IsSeparator(s[h - 1])
         && (h == 1 || ((h == 3 || h == 4) && DigitsIn(s, 0, h - 1)))
  }

  /** The digit run before `end` is determined by where the digits stop. */
  lemma DigitRunBeforeExact(s: string, end: nat, k: nat)
    requires k <= end <= |s|
    requires DigitsIn(s, end - k, end)
    requires k < end ==> !IsDigit(s[end - k - 1])
    ensures DigitRunBefore(s, end) == k
  {
  }

  lemma MatchesPhoneSound(s: string)
    requires MatchesPhone(s)
    ensures InPhoneLanguage(s)
  {
    var q := if |s| >= 5 && IsSeparator(s[|s| - 5]) then 1 else 0;
    var x := |s| - 4 - q;
    var e := DigitRunBefore(s, x);
    var h := x - e;
    if h == 0 {
      var a := if e <= 4 then 0 else if e == 7 then 3 else 2;
      assert PhoneShape(s, a, 0, e - a, q);
    } else {
      assert PhoneShape(s, h - 1, 1, e, q);
    }
  }

  /** The optional separator before the last four digits is recognised. */
  lemma SecondSeparator(s: string, a: nat, p: nat, e: nat, q: nat)
    requires PhoneShape(s, a, p, e, q)
    ensures q == 1 <==> |s| >= 5 && IsSeparator(s[|s| - 5])
  {
    if q == 0 {
      assert IsDigit(s[a + p + e - 1]);
    }
  }

  /** A phone number with a separator after its area code is accepted. */
  lemma MatchesPhoneCompleteSplit(s: string, a: nat, e: nat, q: nat)
    requires PhoneShape(s, a, 1, e, q)
    ensures MatchesPhone(s)
  {
    SecondSeparator(s, a, 1, e, q);
    var x := |s| - 4 - q;
    DigitRunBeforeExact(s, x, e);
    assert IsSeparator(s[a]);
  }

  /** A phone number whose area code runs into its exchange is accepted. */
  lemma MatchesPhoneCompleteJoined(s: string, a: nat, e: nat, q: nat)
    requires PhoneShape(s, a, 0, e, q)
    ensures MatchesPhone(s)
  {
    SecondSeparator(s, a, 0, e, q);
    var x := |s| - 4 - q;
    DigitRunBeforeExact(s, x, x);
  }

  lemma MatchesPhoneComplete(s: string, a: nat, p: nat, e: nat, q: nat)
    requires PhoneShape(s, a, p, e, q)
    ensures MatchesPhone(s)
  {
    if p == 1 {
      MatchesPhoneCompleteSplit(s, a, e, q);
    } else {
      MatchesPhoneCompleteJoined(s, a, e, q);
    }
  }

  /** The recogniser accepts exactly the language of the pattern. */
  lemma MatchesPhoneIsLanguage(s: string)
    ensures MatchesPhone(s) <==> InPhoneLanguage(s)
  {
    if MatchesPhone(s) {
      MatchesPhoneSound(s);
    }
    if InPhoneLanguage(s) {
      var a: nat, p: nat, e: nat, q: nat :| PhoneShape(s, a, p, e, q);
      MatchesPhoneComplete(s, a, p, e, q);
    }
  }

  /** Number of digits at positions `i` up to `j - 1` of `s`. */
  function DigitCount(s: string, i: nat, j: nat): (n: nat)
    requires i <= j <= |s|
    ensures n <= j - i
    decreases j - i
  {
    if i == j then 0 else DigitCount(s, i, j - 1) + (if IsDigit(s[j - 1]) then 1 else 0)
  }

  lemma {:induction false} DigitCountSplit(s: string, i: nat, m: nat, j: nat)
    requires i <= m <= j <= |s|
    ensures DigitCount(s, i, j) == DigitCount(s, i, m) + DigitCount(s, m, j)
    decreases j - m
  {
    if m < j {
      DigitCountSplit(s, i, m, j - 1);
    }
  }

  lemma {:induction false} DigitCountOfDigits(s: string, i: nat, j: nat)
    requires i <= j <= |s|
    requires DigitsIn(s, i, j)
    ensures DigitCount(s, i, j) == j - i
    decreases j - i
  {
    if i < j {
      DigitCountOfDigits(s, i, j - 1);
    }
  }

  lemma {:induction false} DigitCountOfSeparators(s: string, i: nat, j: nat)
    requires i <= j <= |s|
    requires SeparatorsIn(s, i, j)
    ensures DigitCount(s, i, j) == 0
    decreases j - i
  {
    if i < j {
      DigitCountOfSeparators(s, i, j - 1);
    }
  }

  /** The digits of a cut phone number are those of its three digit segments. */
  lemma ShapeDigitCount(s: string, a: nat, p: nat, e: nat, q: nat)
    requires PhoneShape(s, a, p, e, q)
    ensures DigitCount(s, 0, |s|) == a + e + 4
  {
    var x := a + p + e;
    DigitCountSplit(s, 0, a, |s|);
    DigitCountSplit(s, a, a + p, |s|);
    DigitCountSplit(s, a + p, x, |s|);
    DigitCountSplit(s, x, x + q, |s|);
    DigitCountOfDigits(s, 0, a);
    DigitCountOfSeparators(s, a, a + p);
    DigitCountOfDigits(s, a + p, x);
    DigitCountOfSeparators(s, x, x + q);
    DigitCountOfDigits(s, x + q, |s|);
  }

  /** An accepted phone number holds only digits, hyphens and spaces, has
      between seven and eleven digits, and ends in a digit. */
  lemma AcceptedPhone(s: string)
    requires MatchesPhone(s)
    ensures forall k :: 0 <= k < |s| ==> IsDigit(s[k]) || IsSeparator(s[k])
    ensures 7 <= DigitCount(s, 0, |s|) <= 11
    ensures IsDigit(s[|s| - 1])
  {
    MatchesPhoneSound(s);
    var a: nat, p: nat, e: nat, q: nat :| PhoneShape(s, a, p, e, q);
    ShapeDigitCount(s, a, p, e, q);
    forall k | 0 <= k < |s|
      ensures IsDigit(s[k]) || IsSeparator(s[k])
    {
    }
  }

  /** The empty string is rejected. */
  lemma EmptyPhoneRejected()
    ensures !MatchesPhone("")
    ensures !InPhoneLanguage("")
  {
    MatchesPhoneIsLanguage("");
  }

  /** Since the first separator is optional independently of the area
      code, a number without area code may begin with a separator. */
  lemma LeadingSeparatorAccepted()
    ensures MatchesPhone("-123-4567")
    ensures MatchesPhone(" 1234567")
  {
    assert PhoneShape("-123-4567", 0, 1, 3, 1);
    MatchesPhoneComplete("-123-4567", 0, 1, 3, 1);
    assert PhoneShape(" 1234567", 0, 1, 3, 0);
    MatchesPhoneComplete(" 1234567", 0, 1, 3, 0);
  }
}
