/** The email pattern `^\w+([\.-]?\w+)*@\w+([\.-]?\w+)*(\.\w{2,3})+$`: a
    local part of word-character runs joined by single dots or hyphens, an
    at sign, a domain of the same shape, and one or more suffixes made of a
    dot and two or three word characters.

    The ghost predicates below follow the pattern's structure group by
    group (`InEmailLanguage`); `MatchesEmail` decides the same language
    reading each character once, and `MatchesEmailIsLanguage` proves that
    the two agree. Every predicate speaks of the positions `i` up to
    `j - 1` of the whole string `s`. */
module Email {
  import opened Text

  /** `[\.-]`: a dot or a hyphen. */
  predicate IsJoiner(c: char) {
    c == '.' || c == '-'
  }

  // The language, group by group

  /** `\w+` */
  ghost predicate WordRun(s: string, i: nat, j: nat)
    requires i <= j <= |s|
  {
    i < j && WordCharsIn(s, i, j)
  }

  /** `[\.-]?\w+` */
  ghost predicate Link(s: string, i: nat, j: nat)
    requires i <= j <= |s|
  {
    WordRun(s, i, j) || (i + 1 < j && IsJoiner(s[i]) && WordRun(s, i + 1, j))
  }

  /** `([\.-]?\w+)*` */
  ghost predicate Links(s: string, i: nat, j: nat)
    requires i <= j <= |s|
    decreases j - i
  {
    i == j || exists k :: i < k <= j && Link(s, i, k) && Links(s, k, j)
  }

  /** `\w+([\.-]?\w+)*` */
  ghost predicate Words(s: string, i: nat, j: nat)
    requires i <= j <= |s|
  {
    exists k :: i < k <= j && WordRun(s, i, k) && Links(s, k, j)
  }

  /** `(\.\w{2,3})+` */
  ghost predicate Suffixes(s: string, i: nat, j: nat)
    requires i <= j <= |s|
    decreases j - i
  {
    exists k {:trigger WordCharsIn(s, i + 1, k)} ::
      && (k == i + 3 || k == i + 4) && k <= j && s[i] == '.' && WordCharsIn(s, i + 1, k)
      && (k == j || Suffixes(s, k, j))
  }

  /** The strings the email pattern accepts: positions up to `i - 1` hold
      the local part, `i` the at sign, `i + 1` up to `j - 1` the domain
      name and the rest the suffixes. */
  ghost predicate InEmailLanguage(s: string) {
    exists i, j :: 0 <= i < j <= |s| && s[i] == '@' && Words(s, 0, i) && Words(s, i + 1, j) && Suffixes(s, j, |s|)
  }

  // The recogniser

  /** `(\w|[\.-]\w)*`, which is what `([\.-]?\w+)*` accepts after a word
      character: every joiner is followed by a word character. */
  predicate LinkedTail(s: string, i: nat, j: nat)
    requires i <= j <= |s|
    decreases j - i
  {
    if i == j then true
    else if IsWordChar(s[i]) then LinkedTail(s, i + 1, j)
    else i + 1 < j && IsJoiner(s[i]) && IsWordChar(s[i + 1]) && LinkedTail(s, i + 2, j)
  }

  /** `\w+([\.-]?\w+)*` read left to right. */
  predicate IsWords(s: string, i: nat, j: nat)
    requires i <= j <= |s|
  {
    i < j && IsWordChar(s[i]) && LinkedTail(s, i + 1, j)
  }

  /** Position of the first `c` in `s`, or `|s|` when there is none. */
  function IndexOf(s: string, c: char): (i: nat)
    ensures i <= |s|
    ensures i < |s| ==> s[i] == c
    ensures forall k :: 0 <= k < i ==> s[k] != c
  {
    if s == [] || s[0] == c then 0 else 1 + IndexOf(s[1..], c)
  }

  /** Position of the last `c` in `s`, or -1 when there is none. */
  function LastIndexOf(s: string, c: char): (j: int)
    ensures -1 <= j < |s|
    ensures j >= 0 ==> s[j] == c
    ensures forall k :: j < k < |s| ==> s[k] != c
  {
    if s == [] then -1
    else if s[|s| - 1] == c then |s| - 1
    else LastIndexOf(s[..|s| - 1], c)
  }

  /** The domain from position `i` to the end: its last dot is followed by
      two or three word characters and preceded by word runs joined by dots
      or hyphens. */
  predicate MatchesDomain(s: string, i: nat)
    requires i <= |s|
  {
    var j := LastIndexOf(s, '.');
    && i <= j
    && IsWords(s, i, j)
    && 2 <= |s| - j - 1 <= 3
    && WordCharsIn(s, j + 1, |s|)
  }

  /** The recogniser: the local part runs up to the first at sign. */
  predicate MatchesEmail(s: string) {
    var i := IndexOf(s, '@');
    && i < |s|
    && IsWords(s, 0, i)
    && MatchesDomain(s, i + 1)
  }

  // The recogniser agrees with the language

  lemma {:induction false} LinkedTailAfterWordChars(s: string, i: nat, m: nat, j: nat)
    requires i <= m <= j <= |s|
    requires WordCharsIn(s, i, m) && LinkedTail(s, m, j)
    ensures LinkedTail(s, i, j)
    decreases m - i
  {
    if i < m {
      LinkedTailAfterWordChars(s, i + 1, m, j);
    }
  }

  lemma {:induction false} LinkedTailAppend(s: string, i: nat, m: nat, j: nat)
    requires i <= m <= j <= |s|
    requires LinkedTail(s, i, m) && LinkedTail(s, m, j)
    ensures LinkedTail(s, i, j)
    decreases m - i
  {
    if i < m {
      if IsWordChar(s[i]) {
        LinkedTailAppend(s, i + 1, m, j);
      } else {
        LinkedTailAppend(s, i + 2, m, j);
      }
    }
  }

  lemma {:induction false} LinksToLinkedTail(s: string, i: nat, j: nat)
    requires i <= j <= |s| && Links(s, i, j)
    ensures LinkedTail(s, i, j)
    decreases j - i
  {
    if i < j {
      var k :| i < k <= j && Link(s, i, k) && Links(s, k, j);
      LinksToLinkedTail(s, k, j);
      if WordRun(s, i, k) {
        LinkedTailAfterWordChars(s, i, k, j);
      } else {
        LinkedTailAfterWordChars(s, i + 2, k, j);
      }
    }
  }

  lemma {:induction false} LinkedTailToLinks(s: string, i: nat, j: nat)
    requires i <= j <= |s| && LinkedTail(s, i, j)
    ensures Links(s, i, j)
    decreases j - i
  {
    if i < j {
      var k := if IsWordChar(s[i]) then i + 1 else i + 2;
      LinkedTailToLinks(s, k, j);
      assert Link(s, i, k);
    }
  }

  /** The left-to-right reading of `\w+([\.-]?\w+)*` is exact. */
  lemma WordsIsIsWords(s: string, i: nat, j: nat)
    requires i <= j <= |s|
    ensures Words(s, i, j) <==> IsWords(s, i, j)
  {
    if Words(s, i, j) {
      var k :| i < k <= j && WordRun(s, i, k) && Links(s, k, j);
      LinksToLinkedTail(s, k, j);
      LinkedTailAfterWordChars(s, i + 1, k, j);
    }
    if IsWords(s, i, j) {
      LinkedTailToLinks(s, i + 1, j);
      assert WordRun(s, i, i + 1);
    }
  }

  lemma {:induction false} LinkedTailChars(s: string, i: nat, j: nat)
    requires i <= j <= |s| && LinkedTail(s, i, j)
    ensures forall k :: i <= k < j ==> IsWordChar(s[k]) || IsJoiner(s[k])
    ensures i < j ==> IsWordChar(s[j - 1])
    decreases j - i
  {
    if i < j {
      LinkedTailChars(s, if IsWordChar(s[i]) then i + 1 else i + 2, j);
    }
  }

  /** Word runs joined by dots or hyphens hold only word characters, dots
      and hyphens, and begin and end with a word character. */
  lemma IsWordsChars(s: string, i: nat, j: nat)
    requires i <= j <= |s| && IsWords(s, i, j)
    ensures forall k :: i <= k < j ==> IsWordChar(s[k]) || IsJoiner(s[k])
    ensures IsWordChar(s[i]) && IsWordChar(s[j - 1])
  {
    LinkedTailChars(s, i + 1, j);
  }

  /** A dot and a word run may follow joined word runs. */
  lemma IsWordsExtend(s: string, i: nat, m: nat, j: nat)
    requires i <= m < j <= |s|
    requires IsWords(s, i, m) && s[m] == '.' && WordRun(s, m + 1, j)
    ensures IsWords(s, i, j)
  {
    LinkedTailAfterWordChars(s, m + 2, j, j);
    LinkedTailAppend(s, i + 1, m, j);
  }

  lemma LastIndexOfExact(s: string, c: char, j: nat)
    requires j < |s| && s[j] == c
    requires forall k :: j < k < |s| ==> s[k] != c
    ensures LastIndexOf(s, c) == j
  {
  }

  /** A run of suffixes after the domain name collapses into the domain
      name, except for the last one. */
  lemma {:induction false} DomainCollapse(s: string, i: nat, m: nat)
    requires i <= m <= |s|
    requires IsWords(s, i, m) && Suffixes(s, m, |s|)
    ensures MatchesDomain(s, i)
    decreases |s| - m
  {
    var k :| (k == m + 3 || k == m + 4) && k <= |s| && s[m] == '.' && WordCharsIn(s, m + 1, k)
             && (k == |s| || Suffixes(s, k, |s|));
    if k == |s| {
      assert WordCharsIn(s, m + 1, |s|);
      forall n | m < n < |s|
        ensures s[n] != '.'
      {
        assert IsWordChar(s[n]);
      }
      LastIndexOfExact(s, '.', m);
    } else {
      IsWordsExtend(s, i, m, k);
      DomainCollapse(s, i, k);
    }
  }

  lemma MatchesEmailSound(s: string)
    requires MatchesEmail(s)
    ensures InEmailLanguage(s)
  {
    var i := IndexOf(s, '@');
    var j := LastIndexOf(s, '.');
    WordsIsIsWords(s, 0, i);
    WordsIsIsWords(s, i + 1, j);
    var k := |s|;
    assert (k == j + 3 || k == j + 4) && s[j] == '.' && WordCharsIn(s, j + 1, k);
    assert Suffixes(s, j, |s|);
  }

  lemma MatchesEmailComplete(s: string, i: nat, j: nat)
    requires i < j <= |s| && s[i] == '@'
    requires Words(s, 0, i) && Words(s, i + 1, j) && Suffixes(s, j, |s|)
    ensures MatchesEmail(s)
  {
    WordsIsIsWords(s, 0, i);
    IsWordsChars(s, 0, i);
    assert IndexOf(s, '@') == i;
    WordsIsIsWords(s, i + 1, j);
    DomainCollapse(s, i + 1, j);
  }

  /** The recogniser accepts exactly the language of the pattern. */
  lemma MatchesEmailIsLanguage(s: string)
    ensures MatchesEmail(s) <==> InEmailLanguage(s)
  {
    if MatchesEmail(s) {
      MatchesEmailSound(s);
    }
    if InEmailLanguage(s) {
      var i, j :| 0 <= i < j <= |s| && s[i] == '@' && Words(s, 0, i) && Words(s, i + 1, j) && Suffixes(s, j, |s|);
      MatchesEmailComplete(s, i, j);
    }
  }

  // What every accepted address looks like

  /** An accepted address has exactly one at sign. */
  lemma AcceptedEmailHasOneAt(s: string)
    requires MatchesEmail(s)
    ensures Count(s, '@') == 1
  {
    var i := IndexOf(s, '@');
    var j := LastIndexOf(s, '.');
    IsWordsChars(s, i + 1, j);
    CountSingle(s, '@', i);
  }

  /** An accepted address begins and ends with a word character. */
  lemma AcceptedEmailEnds(s: string)
    requires MatchesEmail(s)
    ensures IsWordChar(s[0]) && IsWordChar(s[|s| - 1])
  {
    IsWordsChars(s, 0, IndexOf(s, '@'));
  }

  /** The last dot of an accepted address is followed by two or three word
      characters. */
  lemma AcceptedEmailSuffix(s: string)
    requires MatchesEmail(s)
    ensures var j := LastIndexOf(s, '.');
            0 <= j && 2 <= |s| - j - 1 <= 3 && WordCharsIn(s, j + 1, |s|)
  {
  }

  /** Both the recogniser and the language reject the empty string and
      every string without an at sign. */
  lemma EmailNeedsAt(s: string)
    requires '@' !in s
    ensures !MatchesEmail(s) && !InEmailLanguage(s)
  {
    MatchesEmailIsLanguage(s);
  }
}
