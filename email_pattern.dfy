/** The email pattern the student handlers accept: `^[^\s@]+@[^\s@]+\.[^\s@]+$` in
    JavaScript's regular-expression dialect. */
module EmailPattern {
  import opened Outcomes
  import opened Lists

  /** JavaScript's `\s`: the ASCII white space characters, the Unicode space separators,
      the line and paragraph separators and the byte-order mark. */
  predicate IsJsSpace(c: char) {
    || c == '\t' || c == '\n' || c == '\U{000B}' || c == '\U{000C}' || c == '\r' || c == ' '
    || c == '\U{00A0}' || c == '\U{1680}'
    || ('\U{2000}' <= c <= '\U{200A}')
    || c == '\U{2028}' || c == '\U{2029}' || c == '\U{202F}' || c == '\U{205F}'
    || c == '\U{3000}' || c == '\U{FEFF}'
  }

  /** A character the class `[^\s@]` admits. */
  predicate Plain(c: char) {
    !IsJsSpace(c) && c != '@'
  }

  /** Every character of `s` from `lo` up to (not including) `hi` is plain. */
  predicate PlainBetween(s: string, lo: int, hi: int) {
    forall m :: lo <= m < hi && 0 <= m < |s| ==> Plain(s[m])
  }

  /** The regular expression read literally: a non-empty run of plain characters, an '@',
      a non-empty run, a '.', and a non-empty run that reaches the end. The middle and last
      runs may themselves hold dots; the pattern matches if some split works. */
  ghost predicate MatchesPattern(s: string) {
    exists i, j :: IsSplit(s, i, j)
  }

  /** `s[..i]`, `s[i + 1..j]` and `s[j + 1..]` are the three runs, with '@' at `i` and '.' at `j`. */
  predicate IsSplit(s: string, i: int, j: int) {
    && 0 < i && i + 1 < j && j + 1 < |s| && s[i] == '@' && s[j] == '.'
    && PlainBetween(s, 0, i) && PlainBetween(s, i + 1, j) && PlainBetween(s, j + 1, |s|)
  }

  /** The same pattern described by its shape: no white space, exactly one '@' and not in
      front, and after it a domain with a '.' that is neither its first nor its last
      character. */
  ghost predicate EmailShape(s: string) {
    && (forall i :: 0 <= i < |s| ==> !IsJsSpace(s[i]))
    && exists k :: (0 < k < |s| && s[k] == '@'
      && (forall i :: 0 <= i < |s| && s[i] == '@' ==> i == k)
      && exists p :: k + 1 < p < |s| - 1 && s[p] == '.')
  }

  /** After the '@' at `k` there is a '.' that is neither the first nor the last character. */
  predicate DotAfter(s: string, k: int) {
    exists p :: 0 <= k + 1 < p < |s| - 1 && s[p] == '.'
  }

  function IsAt(c: char): bool {
    c == '@'
  }

  /** The pattern test `.test(email)`, decided by locating the first '@'. */
  function ValidEmail(s: string): (ok: bool)
    ensures ok <==> MatchesPattern(s)
  {
    match FirstIndex(s, IsAt)
    case None => false
    case Some(k) =>
      var ok := 0 < k && PlainBetween(s, 0, k) && PlainBetween(s, k + 1, |s|) && DotAfter(s, k);
      if ok then
        SplitAtDot(s, k);
        ok
      else
        NoSplitElsewhere(s, k);
        ok
  }

  /** A plain domain after the '@' with a dot inside it gives a split. */
  lemma SplitAtDot(s: string, k: int)
    requires 0 < k < |s| && s[k] == '@' && PlainBetween(s, 0, k) && PlainBetween(s, k + 1, |s|)
    requires DotAfter(s, k)
    ensures MatchesPattern(s)
  {
    var p :| k + 1 < p < |s| - 1 && s[p] == '.';
    assert IsSplit(s, k, p);
  }

  /** Any split puts its '@' at the first '@', and then the first '@' passes the test. */
  lemma NoSplitElsewhere(s: string, k: nat)
    requires k < |s| && s[k] == '@' && forall m :: 0 <= m < k ==> s[m] != '@'
    requires !(0 < k && PlainBetween(s, 0, k) && PlainBetween(s, k + 1, |s|) && DotAfter(s, k))
    ensures !MatchesPattern(s)
  {
  }

  /** The literal reading of the pattern and its shape description accept the same strings. */
  lemma PatternIsShape(s: string)
    ensures MatchesPattern(s) <==> EmailShape(s)
  {
    if MatchesPattern(s) {
      var i, j :| IsSplit(s, i, j);
      SplitShape(s, i, j);
    }
    if EmailShape(s) {
      var k :| 0 < k < |s| && s[k] == '@'
        && (forall i :: 0 <= i < |s| && s[i] == '@' ==> i == k)
        && exists p :: k + 1 < p < |s| - 1 && s[p] == '.';
      var p :| k + 1 < p < |s| - 1 && s[p] == '.';
      assert IsSplit(s, k, p);
    }
  }

  /** A split's '@' is the only one, and its '.' lies strictly inside the domain. */
  lemma SplitShape(s: string, i: int, j: int)
    requires IsSplit(s, i, j)
    ensures EmailShape(s)
  {
  }
}
