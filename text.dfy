/** Character classes of JavaScript regular expressions (without the `u` flag)
    and counting over strings, shared by the phone and email patterns. */
module Text {

  /** `\d`: an ASCII decimal digit. */
  predicate IsDigit(c: char) {
    '0' <= c <= '9'
  }

  /** `\w`: an ASCII letter, an ASCII digit or the underscore. */
  predicate IsWordChar(c: char) {
    'a' <= c <= 'z' || 'A' <= c <= 'Z' || IsDigit(c) || c == '_'
  }

  /** Every character at positions `i` up to `j - 1` of `s` is a word character. */
  predicate WordCharsIn(s: string, i: nat, j: nat)
    requires i <= j <= |s|
  {
    forall k :: i <= k < j ==> IsWordChar(s[k])
  }

  /** Number of occurrences of `c` among the first `n` characters of `s`. */
  function CountBefore(s: string, c: char, n: nat): (r: nat)
    requires n <= |s|
    ensures r <= n
    ensures r == 0 <==> forall k :: 0 <= k < n ==> s[k] != c
  {
    if n == 0 then 0 else CountBefore(s, c, n - 1) + (if s[n - 1] == c then 1 else 0)
  }

  /** Number of occurrences of `c` in `s`. */
  function Count(s: string, c: char): nat {
    CountBefore(s, c, |s|)
  }

  lemma {:induction false} CountBeforeSingle(s: string, c: char, p: nat, n: nat)
    requires p < n <= |s| && s[p] == c
    requires forall k :: 0 <= k < n && k != p ==> s[k] != c
    ensures CountBefore(s, c, n) == 1
  {
    if n - 1 != p {
      CountBeforeSingle(s, c, p, n - 1);
    }
  }

  /** A character that occurs at exactly one position is counted once. */
  lemma CountSingle(s: string, c: char, p: nat)
    requires p < |s| && s[p] == c
    requires forall k :: 0 <= k < |s| && k != p ==> s[k] != c
    ensures Count(s, c) == 1
  {
    CountBeforeSingle(s, c, p, |s|);
  }

  /** Number of UTF-16 code units JavaScript uses for `c`: two for a
      character above U+FFFF (a surrogate pair), one otherwise. */
  function Utf16Units(c: char): nat {
    if c > '\U{FFFF}' then 2 else 1
  }

  /** JavaScript's `length` of the first `n` characters of `s`. */
  function Utf16LengthBefore(s: string, n: nat): (r: nat)
    requires n <= |s|
    ensures n <= r <= 2 * n
  {
    if n == 0 then 0 else Utf16LengthBefore(s, n - 1) + Utf16Units(s[n - 1])
  }

  /** JavaScript's `length` of `s`: its number of UTF-16 code units. */
  function Utf16Length(s: string): (r: nat)
    ensures |s| <= r <= 2 * |s|
  {
    Utf16LengthBefore(s, |s|)
  }

  lemma {:induction false} Utf16LengthBeforeBasic(s: string, n: nat)
    requires n <= |s|
    requires forall k :: 0 <= k < n ==> s[k] <= '\U{FFFF}'
    ensures Utf16LengthBefore(s, n) == n
  {
    if n > 0 {
      Utf16LengthBeforeBasic(s, n - 1);
    }
  }

  lemma {:induction false} Utf16LengthBeforeAstral(s: string, n: nat)
    requires n <= |s|
    requires forall k :: 0 <= k < n ==> s[k] > '\U{FFFF}'
    ensures Utf16LengthBefore(s, n) == 2 * n
  {
    if n > 0 {
      Utf16LengthBeforeAstral(s, n - 1);
    }
  }

  /** A string within the Basic Multilingual Plane has one code unit per
      character; one made only of characters above U+FFFF has two. */
  lemma Utf16LengthBounds(s: string)
    ensures (forall k :: 0 <= k < |s| ==> s[k] <= '\U{FFFF}') ==> Utf16Length(s) == |s|
    ensures (forall k :: 0 <= k < |s| ==> s[k] > '\U{FFFF}') ==> Utf16Length(s) == 2 * |s|
  {
    if forall k :: 0 <= k < |s| ==> s[k] <= '\U{FFFF}' {
      Utf16LengthBeforeBasic(s, |s|);
    }
    if forall k :: 0 <= k < |s| ==> s[k] > '\U{FFFF}' {
      Utf16LengthBeforeAstral(s, |s|);
    }
  }
}
