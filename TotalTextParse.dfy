/** `parse_line` of tools/convert_totaltext.py: reads the point lists and the
    transcription out of one line of a Total-Text polygon annotation, such as
    `x: [[115 503 494]], y: [[322 346 426]], ornt: [u'c'], transcriptions: [u'TEXT']`.
    Python's `ast.literal_eval(...)[0]` is the parameter `evalFirst`: None
    stands for any exception it raises. */
module TotalTextParse {
  import opened Wrappers
  import opened Numerals
  import opened Text

  /** What `parse_line` returns: the x and y coordinates and the text. */
  datatype Annotation = Annotation(xs: seq<int>, ys: seq<int>, text: string)

  // ---------------------------------------------------------------------
  // The pieces of the parser

  predicate NoBrackets(s: string) {
    forall i :: 0 <= i < |s| ==> s[i] != '[' && s[i] != ']'
  }

  /** `s.replace('[', '').replace(']', '')`. */
  function RemoveBrackets(s: string): (r: string)
    ensures NoBrackets(r) && |r| <= |s|
  {
    if s == [] then []
    else (if s[0] == '[' || s[0] == ']' then [] else [s[0]]) + RemoveBrackets(s[1..])
  }

  /** Removing brackets works piece by piece. */
  lemma {:induction false} RemoveBracketsAppend(a: string, b: string)
    ensures RemoveBrackets(a + b) == RemoveBrackets(a) + RemoveBrackets(b)
  {
    if a != [] {
      assert (a + b)[1..] == a[1..] + b;
      RemoveBracketsAppend(a[1..], b);
    } else {
      assert a + b == b;
    }
  }

  /** A text without brackets is left as it is. */
  lemma {:induction false} RemoveBracketsNone(s: string)
    requires NoBrackets(s)
    ensures RemoveBrackets(s) == s
  {
    if s != [] {
      RemoveBracketsNone(s[1..]);
      assert s == [s[0]] + s[1..];
    }
  }

  /** The digits of a word that `int()` accepts, after an optional sign. */
  function Unsigned(w: string): string {
    if w != [] && (w[0] == '-' || w[0] == '+') then w[1..] else w
  }

  /** `int(w)` on a word without whitespace: an optional sign followed by ASCII
      digits; None where Python raises ValueError. */
  function ParseInt(w: string): (r: Option<int>)
    ensures r.Some? <==> Unsigned(w) != [] && AllDigits(Unsigned(w))
    ensures r.Some? ==> (r.value < 0 ==> w[0] == '-')
  {
    var digits := Unsigned(w);
    if digits != [] && AllDigits(digits) then
      var v: int := ParseDigits(digits);
      Some(if w[0] == '-' then -v else v)
    else None
  }

  /** `str(n)` for any integer. */
  function IntText(n: int): (s: string)
    ensures s != [] && (s[0] == '-' || IsDigit(s[0])) && IsDigit(s[|s| - 1])
    ensures forall i :: 0 <= i < |s| ==> s[i] == '-' || IsDigit(s[i])
  {
    if n < 0 then "-" + Decimal(-n) else Decimal(n)
  }

  /** `int(str(n)) == n`. */
  lemma IntRoundTrip(n: int)
    ensures ParseInt(IntText(n)) == Some(n)
  {
    if n < 0 {
      assert Unsigned(IntText(n)) == Decimal(-n);
      DecimalRoundTrip(-n);
    } else {
      DecimalRoundTrip(n);
    }
  }

  /** `[int(v) for v in words]`: all the values, or None when one word is not an integer. */
  function ParseInts(ws: seq<string>): (r: Option<seq<int>>)
    ensures r.Some? <==> forall k :: 0 <= k < |ws| ==> ParseInt(ws[k]).Some?
    ensures r.Some? ==> |r.value| == |ws| && forall k :: 0 <= k < |ws| ==> ParseInt(ws[k]) == Some(r.value[k])
  {
    if ws == [] then Some([])
    else
      var rest := ParseInts(ws[1..]);
      assert forall k :: 0 < k < |ws| ==> ws[k] == ws[1..][k - 1];
      var head := ParseInt(ws[0]);
      if head.Some? && rest.Some? then Some([head.value] + rest.value) else None
  }

  /** The integers found after the first `key`: the text up to the next `]],`,
      brackets removed, stripped and split on whitespace, each word read by
      `int()`. None where Python raises: `key` is missing or a word is not an integer. */
  function Coordinates(line: string, key: string): Option<seq<int>> {
    match SecondField(line, key)
    case None => None
    case Some(field) => ParseInts(Words(Strip(RemoveBrackets(UpTo(field, "]],") + "]]"))))
  }

  /** `trans_part[3:-2]`: the fallback that drops `[u'` and `']`. */
  function DropQuoting(tp: string): (r: string)
    ensures |tp| >= 5 ==> |r| == |tp| - 5 && r == tp[3..|tp| - 2]
    ensures |tp| < 5 ==> r == []
  {
    if |tp| > 5 then tp[3..|tp| - 2] else []
  }

  /** The text after the first `transcriptions: `, up to a second one, stripped. */
  function TransPart(line: string): Option<string> {
    match SecondField(line, "transcriptions: ")
    case None => None
    case Some(t) => Some(Strip(t))
  }

  /** `parse_line(line)`: None exactly where Python raises (a key missing, a
      coordinate that is not an integer); the text is what `evalFirst` gives
      for the transcription part, or, when that fails, the part without its
      first three and last two characters. */
  function ParseLine(line: string, evalFirst: string -> Option<string>): (r: Option<Annotation>)
    ensures r.Some? <==>
      Coordinates(line, "x: ").Some? && Coordinates(line, "y: ").Some? && TransPart(line).Some?
    ensures r.Some? ==> r.value.xs == Coordinates(line, "x: ").value && r.value.ys == Coordinates(line, "y: ").value
    ensures r.Some? && evalFirst(TransPart(line).value).None? ==>
      r.value.text == DropQuoting(TransPart(line).value)
    ensures r.Some? && evalFirst(TransPart(line).value).Some? ==>
      r.value.text == evalFirst(TransPart(line).value).value
  {
    match Coordinates(line, "x: ")
    case None => None
    case Some(xs) =>
      match Coordinates(line, "y: ")
      case None => None
      case Some(ys) =>
        match TransPart(line)
        case None => None
        case Some(tp) =>
          var text := match evalFirst(tp) case Some(t) => t case None => DropQuoting(tp);
          Some(Annotation(xs, ys, text))
  }

  // ---------------------------------------------------------------------
  // The annotation format, and the parser reading it back

  /** The numbers of a point list as the annotation files write them:
      `str(n)` for each, separated by single spaces. */
  function IntTexts(xs: seq<int>): (ws: seq<string>)
    ensures |ws| == |xs|
  {
    if xs == [] then [] else [IntText(xs[0])] + IntTexts(xs[1..])
  }

  function JoinWords(ws: seq<string>): string {
    if ws == [] then [] else if |ws| == 1 then ws[0] else ws[0] + " " + JoinWords(ws[1..])
  }

  function Nums(xs: seq<int>): string {
    JoinWords(IntTexts(xs))
  }

  /** `[u'TEXT']`, the transcription list of the annotation files. */
  function Quoted(text: string): string {
    "[u'" + text + "']"
  }

  /** One annotation line: `x: [[...]], y: [[...]], ornt: [u'o'], transcriptions: [u'TEXT']`. */
  function FormatLine(a: Annotation, ornt: char): string {
    "x: " + ("[[" + Nums(a.xs) + "]],") + (" y: " + ("[[" + Nums(a.ys) + "]],") + (" ornt: [u'" + [ornt] + "'], " + ("transcriptions: " + Quoted(a.text))))
  }

  /** The orientation letters of Total-Text: curved, horizontal, multi-oriented, or `#`. */
  predicate OrntChar(c: char) {
    c == 'c' || c == 'h' || c == 'm' || c == '#'
  }

  /** Parsing an annotation line gives back the annotation: its points and its
      text, as long as the text does not itself contain `transcriptions: `
      and `literal_eval` either reads the quoted text correctly or fails. */
  lemma ParseFormatRoundTrip(a: Annotation, ornt: char, evalFirst: string -> Option<string>)
    requires OrntChar(ornt)
    requires forall j: nat :: !OccursAt(Quoted(a.text), "transcriptions: ", j)
    requires evalFirst(Quoted(a.text)).None? || evalFirst(Quoted(a.text)) == Some(a.text)
    ensures ParseLine(FormatLine(a, ornt), evalFirst) == Some(a)
  {
    var tp := Quoted(a.text);
    assert tp[3..|tp| - 2] == a.text;
    FormatX(a, ornt);
    FormatY(a, ornt);
    FormatTrans(a, ornt);
    var line := FormatLine(a, ornt);
    assert ParseLine(line, evalFirst) == Some(a) by {
      assert Coordinates(line, "x: ") == Some(a.xs) && Coordinates(line, "y: ") == Some(a.ys);
      assert TransPart(line) == Some(tp) && DropQuoting(tp) == a.text;
    }
  }

  lemma FormatX(a: Annotation, ornt: char)
    ensures Coordinates(FormatLine(a, ornt), "x: ") == Some(a.xs)
  {
    var tail := " y: " + ("[[" + Nums(a.ys) + "]],") + (" ornt: [u'" + [ornt] + "'], " + ("transcriptions: " + Quoted(a.text)));
    var line := FormatLine(a, ornt);
    assert line == [] + "x: " + ("[[" + Nums(a.xs) + "]],") + tail;
    CoordinatesAt(line, "x: ", [], a.xs, tail);
  }

  lemma FormatY(a: Annotation, ornt: char)
    ensures Coordinates(FormatLine(a, ornt), "y: ") == Some(a.ys)
  {
    var nx := Nums(a.xs);
    var pre := "x: " + ("[[" + nx + "]],") + " ";
    var tail := " ornt: [u'" + [ornt] + "'], " + ("transcriptions: " + Quoted(a.text));
    assert FormatLine(a, ornt) == pre + "y: " + ("[[" + Nums(a.ys) + "]],") + tail;
    NumsChars(a.xs);
    forall i | 0 <= i < |pre| ensures pre[i] != 'y' {
      if 5 <= i < 5 + |nx| {
        assert pre[i] == nx[i - 5];
      }
    }
    CoordinatesAt(FormatLine(a, ornt), "y: ", pre, a.ys, tail);
  }

  lemma FormatTrans(a: Annotation, ornt: char)
    requires OrntChar(ornt)
    requires forall j: nat :: !OccursAt(Quoted(a.text), "transcriptions: ", j)
    ensures TransPart(FormatLine(a, ornt)) == Some(Quoted(a.text))
  {
    var nx, ny := Nums(a.xs), Nums(a.ys);
    var px := "x: " + ("[[" + nx + "]],");
    var py := " y: " + ("[[" + ny + "]],");
    var po := " ornt: [u'" + [ornt] + "'], ";
    assert FormatLine(a, ornt) == (px + py + po) + ("transcriptions: " + Quoted(a.text));
    NumsChars(a.xs);
    NumsChars(a.ys);
    forall i | 0 <= i < |px| ensures px[i] != 'p' {
      if 5 <= i < 5 + |nx| {
        assert px[i] == nx[i - 5];
      }
    }
    forall i | 0 <= i < |py| ensures py[i] != 'p' {
      if 6 <= i < 6 + |ny| {
        assert py[i] == ny[i - 6];
      }
    }
    assert forall i :: 0 <= i < |po| ==> po[i] != 'p';
    NoCharConcat(px, py, po, 'p');
    TransPartAt(FormatLine(a, ornt), px + py + po, a.text);
  }

  lemma NoCharConcat(a: string, b: string, c: string, ch: char)
    requires forall i :: 0 <= i < |a| ==> a[i] != ch
    requires forall i :: 0 <= i < |b| ==> b[i] != ch
    requires forall i :: 0 <= i < |c| ==> c[i] != ch
    ensures forall i :: 0 <= i < |a + b + c| ==> (a + b + c)[i] != ch
  {
  }

  /** The characters of a point list: digits, minus signs and spaces; the list
      neither starts nor ends with a space. */
  predicate NumChar(c: char) {
    IsDigit(c) || c == '-' || c == ' '
  }

  lemma NumsChars(xs: seq<int>)
    ensures forall i :: 0 <= i < |Nums(xs)| ==> NumChar(Nums(xs)[i])
    ensures Nums(xs) == [] || (!IsSpace(Nums(xs)[0]) && !IsSpace(Nums(xs)[|Nums(xs)| - 1]))
  {
    IntTextsShape(xs);
    JoinWordsChars(IntTexts(xs));
  }

  /** Splitting a point list on whitespace gives back the numbers' texts. */
  lemma NumsWords(xs: seq<int>)
    ensures Words(Nums(xs)) == IntTexts(xs)
  {
    IntTextsShape(xs);
    WordsJoinWords(IntTexts(xs));
  }

  /** Every word of a point list is `str(n)`: non-empty, made of digits and
      minus signs, starting and ending with a character that is not a space. */
  predicate NumWord(w: string) {
    && w != [] && !IsSpace(w[0]) && !IsSpace(w[|w| - 1])
    && forall i :: 0 <= i < |w| ==> IsDigit(w[i]) || w[i] == '-'
  }

  lemma {:induction false} IntTextsShape(xs: seq<int>)
    ensures forall k :: 0 <= k < |IntTexts(xs)| ==> NumWord(IntTexts(xs)[k])
  {
    if xs != [] {
      IntTextsShape(xs[1..]);
      var ws := IntTexts(xs);
      assert forall k :: 0 < k < |ws| ==> ws[k] == IntTexts(xs[1..])[k - 1];
    }
  }

  lemma {:induction false} JoinWordsChars(ws: seq<string>)
    requires forall k :: 0 <= k < |ws| ==> NumWord(ws[k])
    ensures forall i :: 0 <= i < |JoinWords(ws)| ==> NumChar(JoinWords(ws)[i])
    ensures JoinWords(ws) == [] || (!IsSpace(JoinWords(ws)[0]) && !IsSpace(JoinWords(ws)[|JoinWords(ws)| - 1]))
  {
    if |ws| > 1 {
      var rest := JoinWords(ws[1..]);
      JoinWordsChars(ws[1..]);
      assert NumWord(ws[0]);
      var s := ws[0] + " " + rest;
      forall i | 0 <= i < |s| ensures NumChar(s[i]) {
        if i < |ws[0]| {
          assert s[i] == ws[0][i];
        } else if i > |ws[0]| {
          assert s[i] == rest[i - |ws[0]| - 1];
        }
      }
    } else if |ws| == 1 {
      assert NumWord(ws[0]);
    }
  }

  /** `' '.join(words).split() == words` for non-empty words without whitespace. */
  lemma {:induction false} WordsJoinWords(ws: seq<string>)
    requires forall k :: 0 <= k < |ws| ==> NumWord(ws[k])
    ensures Words(JoinWords(ws)) == ws
    decreases |ws|, 1
  {
    if |ws| == 1 {
      var w := ws[0];
      WordsOfWord(w, []);
      assert w + [] == w;
      assert Words([]) == [];
    } else if |ws| > 1 {
      WordsJoinWordsCons(ws);
    }
  }

  lemma {:induction false} WordsJoinWordsCons(ws: seq<string>)
    requires |ws| > 1 && forall k :: 0 <= k < |ws| ==> NumWord(ws[k])
    ensures Words(JoinWords(ws)) == ws
    decreases |ws|, 0
  {
    var w, tl := ws[0], ws[1..];
    var rest := JoinWords(tl);
    assert forall k :: 0 <= k < |tl| ==> NumWord(tl[k]) by {
      forall k | 0 <= k < |tl| ensures NumWord(tl[k]) {
        assert tl[k] == ws[k + 1];
      }
    }
    var full := JoinWords(ws);
    assert full == w + (" " + rest);
    assert [w] + tl == ws;
    WordsJoinWords(tl);
    WordsOfWord(w, " " + rest);
    WordsSkipSpace(rest);
  }

  /** The first word of `w + t`, when `t` is empty or starts with a space, is `w`. */
  lemma WordsOfWord(w: string, t: string)
    requires NumWord(w)
    requires t == [] || t[0] == ' '
    ensures Words(w + t) == [w] + Words(t)
  {
    var s := w + t;
    assert s[0] == w[0];
    assert LeadingSpaces(s) == 0;
    assert LStrip(s) == s;
    WordLengthOf(w, t);
    assert s[..|w|] == w && s[|w|..] == t;
  }

  lemma {:induction false} WordLengthOf(w: string, t: string)
    requires forall i :: 0 <= i < |w| ==> !IsSpace(w[i])
    requires t == [] || t[0] == ' '
    ensures WordLength(w + t) == |w|
  {
    if w != [] {
      assert (w + t)[1..] == w[1..] + t;
      WordLengthOf(w[1..], t);
    } else {
      assert w + t == t;
    }
  }

  /** A leading space changes nothing about the words. */
  lemma WordsSkipSpace(s: string)
    ensures Words(" " + s) == Words(s)
  {
    var t := " " + s;
    assert t[1..] == s;
    assert LeadingSpaces(t) == 1 + LeadingSpaces(s);
    assert t[1 + LeadingSpaces(s)..] == s[LeadingSpaces(s)..];
  }

  /** A text that neither starts nor ends with whitespace is its own `strip()`. */
  lemma StripUnchanged(s: string)
    requires s == [] || (!IsSpace(s[0]) && !IsSpace(s[|s| - 1]))
    ensures Strip(s) == s
  {
    if s != [] {
      assert LeadingSpaces(s) == 0 && TrailingStart(s) == |s|;
    }
    assert LStrip(s) == s[0..] == s;
    assert RStrip(s) == s[..|s|] == s;
  }

  /** `p` first occurs at `k` when no character before `k` is the first character of `p`. */
  lemma FirstOccurrence(s: string, p: string, k: nat)
    requires p != [] && OccursAt(s, p, k)
    requires forall i :: 0 <= i < k ==> s[i] != p[0]
    ensures FindFrom(s, p, 0) == Some(k)
  {
    forall j | 0 <= j < k ensures !OccursAt(s, p, j) {
      if j + |p| <= |s| {
        assert s[j..j + |p|][0] == s[j];
      }
    }
  }

  /** Same, judged by the character at offset `off` of `p`. */
  lemma FirstOccurrenceBy(s: string, p: string, k: nat, off: nat)
    requires off < |p| && OccursAt(s, p, k)
    requires forall i :: off <= i < k + off ==> s[i] != p[off]
    ensures FindFrom(s, p, 0) == Some(k)
  {
    forall j | 0 <= j < k ensures !OccursAt(s, p, j) {
      if j + |p| <= |s| {
        assert s[j..j + |p|][off] == s[j + off];
      }
    }
  }

  /** Cutting at the first `p` and then at the first `q` is cutting at the
      first `q`, when `p` cannot start before that `q` ends. */
  lemma CutTwice(s: string, p: string, q: string, k: nat)
    requires p != [] && q != [] && OccursAt(s, q, k)
    requires forall i :: 0 <= i < k ==> s[i] != q[0]
    requires forall i :: 0 <= i < k + |q| && i < |s| ==> s[i] != p[0]
    ensures UpTo(UpTo(s, p), q) == s[..k]
  {
    var u := UpTo(s, p);
    match FindFrom(s, p, 0)
    case None =>
      FirstOccurrence(s, q, k);
    case Some(m) =>
      assert s[m..m + |p|][0] == s[m];
      assert m >= k + |q|;
      assert u == s[..m];
      assert u[k..k + |q|] == s[k..k + |q|];
      FirstOccurrence(u, q, k);
  }

  /** The coordinates after a `key` that first occurs at `|pre|` and is followed
      by a point list and `]],`. */
  lemma CoordinatesAt(line: string, key: string, pre: string, xs: seq<int>, tail: string)
    requires key == "x: " || key == "y: "
    requires line == pre + key + ("[[" + Nums(xs) + "]],") + tail
    requires forall i :: 0 <= i < |pre| ==> pre[i] != key[0]
    ensures Coordinates(line, key) == Some(xs)
  {
    var n := Nums(xs);
    var rest := "[[" + n + "]]," + tail;
    assert line == pre + key + rest;
    FieldAfterFirst(line, key, pre, rest);
    NumsChars(xs);
    PointListCut(n, tail, key);
    PointListValues(xs);
  }

  /** `line.split(key)[1]` when `key` first occurs right after `pre`. */
  lemma FieldAfterFirst(line: string, key: string, pre: string, rest: string)
    requires key != [] && line == pre + key + rest
    requires forall i :: 0 <= i < |pre| ==> pre[i] != key[0]
    ensures SecondField(line, key) == Some(UpTo(rest, key))
  {
    assert line[|pre|..|pre| + |key|] == key;
    assert line[|pre| + |key|..] == rest;
    assert forall i :: 0 <= i < |pre| ==> line[i] == pre[i];
    FirstOccurrence(line, key, |pre|);
  }

  /** `.split(']],')[0] + ']]'` of the field after a key gives the bracketed point list. */
  lemma PointListCut(n: string, tail: string, key: string)
    requires key == "x: " || key == "y: "
    requires forall i :: 0 <= i < |n| ==> NumChar(n[i])
    ensures UpTo(UpTo("[[" + n + "]]," + tail, key), "]],") + "]]" == "[[" + n + "]]"
  {
    var rest := "[[" + n + "]]," + tail;
    var k := 2 + |n|;
    assert rest[k..k + 3] == "]],";
    assert rest[..k] == "[[" + n;
    forall i | 0 <= i < k + 3
      ensures rest[i] != ']' || i >= k
      ensures rest[i] != key[0]
    {
      if 2 <= i < k {
        assert rest[i] == n[i - 2];
      }
    }
    CutTwice(rest, key, "]],", k);
  }

  /** The bracketed point list reads back as the numbers it was written from. */
  lemma PointListValues(xs: seq<int>)
    ensures ParseInts(Words(Strip(RemoveBrackets("[[" + Nums(xs) + "]]")))) == Some(xs)
  {
    var n := Nums(xs);
    NumsChars(xs);
    assert NoBrackets(n);
    RemoveBracketsAppend("[[" + n, "]]");
    RemoveBracketsAppend("[[", n);
    RemoveBracketsNone(n);
    assert RemoveBrackets("[[") == [] && RemoveBrackets("]]") == [];
    assert RemoveBrackets("[[" + n + "]]") == n;
    StripUnchanged(n);
    NumsWords(xs);
    ParseIntsRoundTrip(xs);
  }

  lemma {:induction false} ParseIntsRoundTrip(xs: seq<int>)
    ensures ParseInts(IntTexts(xs)) == Some(xs)
  {
    if xs != [] {
      IntRoundTrip(xs[0]);
      ParseIntsRoundTrip(xs[1..]);
      assert IntTexts(xs)[1..] == IntTexts(xs[1..]);
      assert xs == [xs[0]] + xs[1..];
    }
  }

  /** The transcription part of a line whose only `transcriptions: ` is the
      one after `pre`, which holds no `p`. */
  lemma TransPartAt(line: string, pre: string, text: string)
    requires line == pre + ("transcriptions: " + Quoted(text))
    requires forall i :: 0 <= i < |pre| ==> pre[i] != 'p'
    requires forall j: nat :: !OccursAt(Quoted(text), "transcriptions: ", j)
    ensures TransPart(line) == Some(Quoted(text))
  {
    var key := "transcriptions: ";
    var q := Quoted(text);
    assert line[|pre|..|pre| + |key|] == key;
    forall i | 8 <= i < |pre| + 8 ensures line[i] != key[8] {
      if i < |pre| {
        assert line[i] == pre[i];
      } else {
        assert line[i] == key[i - |pre|];
      }
    }
    FirstOccurrenceBy(line, key, |pre|, 8);
    assert line[|pre| + |key|..] == q;
    assert UpTo(q, key) == q;
    StripUnchanged(q);
  }
}
