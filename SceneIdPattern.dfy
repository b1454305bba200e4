/** The scene id that `re.search(r'gt_(\d+)_\d+\.jpg', path).group(1)`
    extracts from an ArT crop path, as an explicit matcher. */
module SceneIdPattern {
  import opened Wrappers
  import opened Numerals

  /** Reference semantics of the regular expression: at position `p` the text
      reads `gt_`, a non-empty digit run ending at `idEnd`, `_`, a non-empty
      digit run ending at `numEnd`, then `.jpg`. The captured group is
      `s[p + 3..idEnd]`. */
  ghost predicate RegexMatchAt(s: string, p: nat, idEnd: nat, numEnd: nat) {
    && p + 3 < idEnd && idEnd + 1 < numEnd && numEnd + 4 <= |s|
    && s[p..p + 3] == "gt_"
    && AllDigits(s[p + 3..idEnd])
    && s[idEnd] == '_'
    && AllDigits(s[idEnd + 1..numEnd])
    && s[numEnd..numEnd + 4] == ".jpg"
  }

  /** Length of the maximal run of digits that starts at `i`. */
  function DigitRun(s: string, i: nat): (n: nat)
    requires i <= |s|
    ensures i + n <= |s|
    ensures forall k :: i <= k < i + n ==> IsDigit(s[k])
    ensures i + n == |s| || !IsDigit(s[i + n])
    decreases |s| - i
  {
    if i < |s| && IsDigit(s[i]) then 1 + DigitRun(s, i + 1) else 0
  }

  /** The attempt the regex engine makes at start position `p`. Both `\d+`
      runs can only succeed at their maximal length, because the character
      the pattern needs next (`_`, `.`) is not a digit. */
  function MatchAt(s: string, p: nat): Option<string>
    requires p <= |s|
  {
    if p + 3 <= |s| && s[p..p + 3] == "gt_" then
      var idEnd := p + 3 + DigitRun(s, p + 3);
      if idEnd > p + 3 && idEnd < |s| && s[idEnd] == '_' then
        var numEnd := idEnd + 1 + DigitRun(s, idEnd + 1);
        if numEnd > idEnd + 1 && numEnd + 4 <= |s| && s[numEnd..numEnd + 4] == ".jpg" then
          Some(s[p + 3..idEnd])
        else None
      else None
    else None
  }

  /** What `MatchAt` returns is a match of the regular expression, capturing
      the digits after `gt_`. */
  lemma MatchAtSound(s: string, p: nat)
    requires p <= |s| && MatchAt(s, p).Some?
    ensures exists idEnd: nat, numEnd: nat ::
      RegexMatchAt(s, p, idEnd, numEnd) && MatchAt(s, p).value == s[p + 3..idEnd]
  {
    var idEnd := p + 3 + DigitRun(s, p + 3);
    var numEnd := idEnd + 1 + DigitRun(s, idEnd + 1);
    assert RegexMatchAt(s, p, idEnd, numEnd);
  }

  /** Every match of the regular expression at `p` is found by `MatchAt`, and
      its capture is the one `MatchAt` returns: the capture is unique. */
  lemma MatchAtComplete(s: string, p: nat, idEnd: nat, numEnd: nat)
    requires RegexMatchAt(s, p, idEnd, numEnd)
    ensures MatchAt(s, p) == Some(s[p + 3..idEnd])
  {
    var n1 := DigitRun(s, p + 3);
    assert forall k :: p + 3 <= k < idEnd ==> IsDigit(s[k]) by {
      forall k | p + 3 <= k < idEnd ensures IsDigit(s[k]) {
        assert s[k] == s[p + 3..idEnd][k - (p + 3)];
      }
    }
    // The digit run cannot stop before idEnd (those are digits) nor pass it ('_' is not a digit).
    assert p + 3 + n1 == idEnd;
    var n2 := DigitRun(s, idEnd + 1);
    assert forall k :: idEnd + 1 <= k < numEnd ==> IsDigit(s[k]) by {
      forall k | idEnd + 1 <= k < numEnd ensures IsDigit(s[k]) {
        assert s[k] == s[idEnd + 1..numEnd][k - (idEnd + 1)];
      }
    }
    assert s[numEnd] == '.';
    assert idEnd + 1 + n2 == numEnd;
  }

  /** `re.search`: tries start positions from `p` upward and returns the
      capture of the first attempt that succeeds. */
  function SearchFrom(s: string, p: nat): Option<string>
    requires p <= |s|
    decreases |s| - p
  {
    match MatchAt(s, p)
    case Some(id) => Some(id)
    case None => if p == |s| then None else SearchFrom(s, p + 1)
  }

  /** The scene id of a crop path, or None when the pattern occurs nowhere in it. */
  function SceneId(path: string): Option<string> {
    SearchFrom(path, 0)
  }

  /** The search from `p` finds nothing exactly when no match of the regular
      expression starts at or after `p`. */
  lemma {:induction false} SearchFromNone(s: string, p: nat)
    requires p <= |s|
    ensures SearchFrom(s, p).None? <==>
      forall q: nat, idEnd: nat, numEnd: nat :: p <= q ==> !RegexMatchAt(s, q, idEnd, numEnd)
    decreases |s| - p
  {
    if MatchAt(s, p).Some? {
      MatchAtSound(s, p);
    } else {
      forall idEnd: nat, numEnd: nat ensures !RegexMatchAt(s, p, idEnd, numEnd) {
        if RegexMatchAt(s, p, idEnd, numEnd) {
          MatchAtComplete(s, p, idEnd, numEnd);
        }
      }
      if p < |s| {
        SearchFromNone(s, p + 1);
      }
    }
  }

  /** When the search from `p` finds an id, it is the capture of the leftmost
      match of the regular expression at or after `p`. */
  lemma {:induction false} SearchFromLeftmost(s: string, p: nat)
    requires p <= |s| && SearchFrom(s, p).Some?
    ensures exists q: nat, idEnd: nat, numEnd: nat ::
      && p <= q && RegexMatchAt(s, q, idEnd, numEnd)
      && SearchFrom(s, p).value == s[q + 3..idEnd]
      && forall q': nat, e1: nat, e2: nat :: p <= q' < q ==> !RegexMatchAt(s, q', e1, e2)
    decreases |s| - p
  {
    if MatchAt(s, p).Some? {
      MatchAtSound(s, p);
    } else {
      forall idEnd: nat, numEnd: nat ensures !RegexMatchAt(s, p, idEnd, numEnd) {
        if RegexMatchAt(s, p, idEnd, numEnd) {
          MatchAtComplete(s, p, idEnd, numEnd);
        }
      }
      SearchFromLeftmost(s, p + 1);
    }
  }

  /** The id is made of digits only and is never empty; it is compared as a
      string, so "01" and "1" are different ids. */
  lemma SceneIdDigits(path: string)
    requires SceneId(path).Some?
    ensures SceneId(path).value != [] && AllDigits(SceneId(path).value)
  {
    SearchFromLeftmost(path, 0);
  }
}
