/** The Python string operations the scripts rely on: `str.strip()`,
    `str.split()` on whitespace, `str.split(sep)[1]`, iteration over the lines
    of a file opened in text mode, `str.lower().endswith(...)` and `sorted()`
    on a list of strings. */
module Text {
  import opened Wrappers

  /** The characters for which Python's `str.isspace()` holds; these are the
      characters `strip()` and `split()` (without arguments) treat as whitespace. */
  predicate IsSpace(c: char) {
    var u := c as int;
    || (0x09 <= u <= 0x0D) || (0x1C <= u <= 0x20) || u == 0x85 || u == 0xA0
    || u == 0x1680 || (0x2000 <= u <= 0x200A) || u == 0x2028 || u == 0x2029
    || u == 0x202F || u == 0x205F || u == 0x3000
  }

  predicate AllSpace(s: string) {
    forall i :: 0 <= i < |s| ==> IsSpace(s[i])
  }

  /** How many whitespace characters `s` starts with. */
  function LeadingSpaces(s: string): (n: nat)
    ensures n <= |s|
    ensures forall k :: 0 <= k < n ==> IsSpace(s[k])
    ensures n == |s| || !IsSpace(s[n])
  {
    if s == [] || !IsSpace(s[0]) then 0 else 1 + LeadingSpaces(s[1..])
  }

  /** Where the whitespace that `s` ends with begins. */
  function TrailingStart(s: string): (n: nat)
    ensures n <= |s|
    ensures forall k :: n <= k < |s| ==> IsSpace(s[k])
    ensures n == 0 || !IsSpace(s[n - 1])
  {
    if s == [] || !IsSpace(s[|s| - 1]) then |s| else TrailingStart(s[..|s| - 1])
  }

  /** `s.lstrip()`: drops the leading whitespace. */
  function LStrip(s: string): string {
    s[LeadingSpaces(s)..]
  }

  /** `s.rstrip()`: drops the trailing whitespace. */
  function RStrip(s: string): string {
    s[..TrailingStart(s)]
  }

  /** `s.strip()`: the part of `s` between its leading and its trailing
      whitespace, which itself neither starts nor ends with whitespace. */
  function Strip(s: string): (r: string)
    ensures exists i, j :: 0 <= i <= j <= |s| && r == s[i..j] && AllSpace(s[..i]) && AllSpace(s[j..])
    ensures r == [] || (!IsSpace(r[0]) && !IsSpace(r[|r| - 1]))
    ensures r == [] <==> AllSpace(s)
  {
    var i := LeadingSpaces(s);
    var t := s[i..];
    var n := TrailingStart(t);
    StripParts(s, i, n);
    RStrip(LStrip(s))
  }

  lemma StripParts(s: string, i: nat, n: nat)
    requires i == LeadingSpaces(s) && n == TrailingStart(s[i..])
    ensures RStrip(LStrip(s)) == s[i..i + n]
    ensures AllSpace(s[..i]) && AllSpace(s[i + n..])
    ensures n == 0 || (!IsSpace(s[i]) && !IsSpace(s[i + n - 1]))
    ensures n == 0 <==> AllSpace(s)
  {
    AllSpacePrefix(s, i);
    StripTail(s, i, n);
    StripEnds(s, i, n);
  }

  lemma StripTail(s: string, i: nat, n: nat)
    requires i == LeadingSpaces(s) && n == TrailingStart(s[i..])
    ensures AllSpace(s[i + n..])
  {
    var t := s[i..];
    forall k | i + n <= k < |s| ensures IsSpace(s[k]) {
      assert s[k] == t[k - i];
    }
    AllSpaceSuffix(s, i + n);
  }

  lemma StripEnds(s: string, i: nat, n: nat)
    requires i == LeadingSpaces(s) && n == TrailingStart(s[i..])
    ensures n == 0 || (!IsSpace(s[i]) && !IsSpace(s[i + n - 1]))
    ensures n == 0 ==> i == |s|
  {
    var t := s[i..];
    if n > 0 {
      assert s[i] == t[0] && s[i + n - 1] == t[n - 1];
    }
  }

  lemma AllSpacePrefix(s: string, i: nat)
    requires i <= |s| && forall k :: 0 <= k < i ==> IsSpace(s[k])
    ensures AllSpace(s[..i])
  {
    forall k | 0 <= k < i ensures IsSpace(s[..i][k]) {
      assert s[..i][k] == s[k];
    }
  }

  lemma AllSpaceSuffix(s: string, j: nat)
    requires j <= |s| && forall k :: j <= k < |s| ==> IsSpace(s[k])
    ensures AllSpace(s[j..])
  {
    forall k | 0 <= k < |s| - j ensures IsSpace(s[j..][k]) {
      assert s[j..][k] == s[j + k];
    }
  }

  /** Text-mode reading with universal newlines: every "\r\n" and every lone
      "\r" reaches the program as "\n". */
  function UniversalNewlines(s: string): (r: string)
    ensures forall i :: 0 <= i < |r| ==> r[i] != '\r'
  {
    if s == [] then []
    else if s[0] == '\r' then "\n" + UniversalNewlines(if |s| > 1 && s[1] == '\n' then s[2..] else s[1..])
    else [s[0]] + UniversalNewlines(s[1..])
  }

  /** Length of the first line of `t`, its newline included when there is one. */
  function LineLength(t: string): (n: nat)
    requires t != []
    ensures 0 < n <= |t|
    ensures forall i :: 0 <= i < n - 1 ==> t[i] != '\n'
    ensures n < |t| ==> t[n - 1] == '\n'
  {
    if t[0] == '\n' || |t| == 1 then 1 else 1 + LineLength(t[1..])
  }

  /** The lines that iterating over a file (or `readlines()`) yields for the
      already newline-translated text `t`: each keeps its "\n", and a final
      line without one is yielded as it is; an empty text yields no line. */
  function Lines(t: string): seq<string>
    decreases |t|
  {
    if t == [] then [] else var n := LineLength(t); [t[..n]] + Lines(t[n..])
  }

  /** The lines of a file's raw contents, read in text mode. */
  function FileLines(contents: string): seq<string> {
    Lines(UniversalNewlines(contents))
  }

  function Concat(lines: seq<string>): string {
    if lines == [] then [] else lines[0] + Concat(lines[1..])
  }

  /** Iterating over the lines loses nothing and invents nothing: the lines
      concatenate back to the text. */
  lemma {:induction false} LinesConcat(t: string)
    ensures Concat(Lines(t)) == t
    decreases |t|
  {
    if t != [] {
      var n := LineLength(t);
      LinesConcat(t[n..]);
      assert t == t[..n] + t[n..];
    }
  }

  /** No line is empty, only a line's last character can be a newline, and
      every line but the last ends with one. */
  lemma {:induction false} LinesShape(t: string)
    ensures forall k :: 0 <= k < |Lines(t)| ==> LineShaped(Lines(t)[k], k == |Lines(t)| - 1)
    decreases |t|
  {
    if t != [] {
      var n := LineLength(t);
      var rest := Lines(t[n..]);
      LinesShape(t[n..]);
      assert LineShaped(t[..n], rest == []);
      forall k | 0 < k < |Lines(t)|
        ensures LineShaped(Lines(t)[k], k == |Lines(t)| - 1)
      {
        assert Lines(t)[k] == rest[k - 1];
      }
    }
  }

  /** A line as iteration yields it: not empty, with a newline as its last
      character only (and certainly there unless it is the last line). */
  predicate LineShaped(line: string, isLast: bool) {
    && line != []
    && (forall i :: 0 <= i < |line| - 1 ==> line[i] != '\n')
    && (!isLast ==> line[|line| - 1] == '\n')
  }

  predicate NoNewline(s: string) {
    forall i :: 0 <= i < |s| ==> s[i] != '\n'
  }

  /** A text written one entry per line, each entry followed by "\n". */
  function JoinLines(ids: seq<string>): string {
    if ids == [] then [] else ids[0] + "\n" + JoinLines(ids[1..])
  }

  /** Writing one more line appends it at the end. */
  lemma {:induction false} JoinLinesSnoc(ids: seq<string>, id: string)
    ensures JoinLines(ids + [id]) == JoinLines(ids) + id + "\n"
  {
    if ids != [] {
      assert (ids + [id])[1..] == ids[1..] + [id];
      JoinLinesSnoc(ids[1..], id);
    } else {
      assert ids + [id] == [id];
    }
  }

  /** The first line of `id + "\n" + rest` is `id + "\n"`. */
  lemma {:induction false} FirstLineLength(id: string, rest: string)
    requires NoNewline(id)
    ensures LineLength(id + "\n" + rest) == |id| + 1
    decreases |id|
  {
    if id != [] {
      assert (id + "\n" + rest)[1..] == id[1..] + "\n" + rest;
      FirstLineLength(id[1..], rest);
    }
  }

  /** Reading back a text written one entry per line yields exactly the
      entries, each with its newline, when no entry holds a newline itself. */
  lemma {:induction false} JoinLinesLines(ids: seq<string>)
    requires forall k :: 0 <= k < |ids| ==> NoNewline(ids[k])
    ensures Lines(JoinLines(ids)) == seq(|ids|, k requires 0 <= k < |ids| => ids[k] + "\n")
  {
    if ids != [] {
      var rest := JoinLines(ids[1..]);
      assert JoinLines(ids) == ids[0] + "\n" + rest;
      FirstLineLength(ids[0], rest);
      assert (ids[0] + "\n" + rest)[..|ids[0]| + 1] == ids[0] + "\n";
      assert (ids[0] + "\n" + rest)[|ids[0]| + 1..] == rest;
      JoinLinesLines(ids[1..]);
    }
  }

  /** Length of the run of non-whitespace characters that starts `s`. */
  function WordLength(s: string): (n: nat)
    ensures n <= |s|
    ensures forall i :: 0 <= i < n ==> !IsSpace(s[i])
    ensures n == |s| || IsSpace(s[n])
  {
    if s == [] || IsSpace(s[0]) then 0 else 1 + WordLength(s[1..])
  }

  /** `s.split()`: the maximal runs of non-whitespace characters, in order. */
  function Words(s: string): (ws: seq<string>)
    ensures forall k :: 0 <= k < |ws| ==> ws[k] != []
    ensures forall k, i :: 0 <= k < |ws| && 0 <= i < |ws[k]| ==> !IsSpace(ws[k][i])
    decreases |s|
  {
    var t := LStrip(s);
    if t == [] then []
    else
      var n := WordLength(t);
      var w := t[..n];
      var rest := Words(t[n..]);
      assert w != [] && forall i :: 0 <= i < |w| ==> !IsSpace(w[i]);
      WordsCons(w, rest);
      [w] + rest
  }

  lemma WordsCons(w: string, rest: seq<string>)
    requires w != [] && forall i :: 0 <= i < |w| ==> !IsSpace(w[i])
    requires forall k :: 0 <= k < |rest| ==> rest[k] != []
    requires forall k, i :: 0 <= k < |rest| && 0 <= i < |rest[k]| ==> !IsSpace(rest[k][i])
    ensures forall k :: 0 <= k < |[w] + rest| ==> ([w] + rest)[k] != []
    ensures forall k, i :: 0 <= k < |[w] + rest| && 0 <= i < |([w] + rest)[k]| ==> !IsSpace(([w] + rest)[k][i])
  {
    forall k | 0 < k < |[w] + rest|
      ensures ([w] + rest)[k] == rest[k - 1]
    {
    }
  }

  predicate OccursAt(s: string, pat: string, j: nat) {
    j + |pat| <= |s| && s[j..j + |pat|] == pat
  }

  /** The first position at or after `i` where `pat` occurs in `s`. */
  function FindFrom(s: string, pat: string, i: nat): (r: Option<nat>)
    requires i <= |s|
    ensures r.Some? ==> i <= r.value && OccursAt(s, pat, r.value)
    ensures r.Some? ==> forall j :: i <= j < r.value ==> !OccursAt(s, pat, j)
    ensures r.None? ==> forall j :: i <= j ==> !OccursAt(s, pat, j)
    decreases |s| - i
  {
    if OccursAt(s, pat, i) then Some(i)
    else if i == |s| then None
    else FindFrom(s, pat, i + 1)
  }

  /** `s.split(sep)[0]`: the text before the first occurrence of `sep`, or all of `s`. */
  function UpTo(s: string, sep: string): (r: string)
    ensures |r| <= |s| && r == s[..|r|]
    ensures || (r == s && forall j: nat :: !OccursAt(s, sep, j))
            || (OccursAt(s, sep, |r|) && forall j: nat :: j < |r| ==> !OccursAt(s, sep, j))
  {
    match FindFrom(s, sep, 0)
    case None => s
    case Some(k) => s[..k]
  }

  /** `s.split(sep)[1]`: the text between the first and the second occurrence
      of `sep` (or the end); None where Python raises IndexError because `sep`
      does not occur. */
  function SecondField(s: string, sep: string): (r: Option<string>)
    ensures r.None? ==> forall j: nat :: !OccursAt(s, sep, j)
    ensures r.Some? ==> exists k: nat ::
      && OccursAt(s, sep, k) && (forall j: nat :: j < k ==> !OccursAt(s, sep, j))
      && r.value == UpTo(s[k + |sep|..], sep)
  {
    var f := FindFrom(s, sep, 0);
    if f.None? then None
    else
      var k := f.value;
      assert OccursAt(s, sep, k);
      Some(UpTo(s[k + |sep|..], sep))
  }

  function AsciiLower(s: string): (r: string)
    ensures |r| == |s|
  {
    seq(|s|, i requires 0 <= i < |s| => if 'A' <= s[i] <= 'Z' then ((s[i] as int) + 32) as char else s[i])
  }

  predicate EndsWith(s: string, suffix: string) {
    |suffix| <= |s| && s[|s| - |suffix|..] == suffix
  }

  /** Python's `<=` on strings: lexicographic by code point. */
  predicate LexLe(a: string, b: string)
    decreases |a|
  {
    a == [] || (b != [] && (a[0] < b[0] || (a[0] == b[0] && LexLe(a[1..], b[1..]))))
  }

  lemma {:induction false} LexLeTotal(a: string, b: string)
    ensures LexLe(a, b) || LexLe(b, a)
    decreases |a|
  {
    if a != [] && b != [] && a[0] == b[0] {
      LexLeTotal(a[1..], b[1..]);
    }
  }

  lemma {:induction false} LexLeAntisymmetric(a: string, b: string)
    requires LexLe(a, b) && LexLe(b, a)
    ensures a == b
    decreases |a|
  {
    if a != [] {
      LexLeAntisymmetric(a[1..], b[1..]);
      assert a == [a[0]] + a[1..] && b == [b[0]] + b[1..];
    }
  }

  lemma {:induction false} LexLeReflexive(a: string)
    ensures LexLe(a, a)
    decreases |a|
  {
    if a != [] {
      LexLeReflexive(a[1..]);
    }
  }

  lemma {:induction false} LexLeTransitive(a: string, b: string, c: string)
    requires LexLe(a, b) && LexLe(b, c)
    ensures LexLe(a, c)
    decreases |a|
  {
    if a != [] && a[0] == b[0] && b[0] == c[0] {
      LexLeTransitive(a[1..], b[1..], c[1..]);
    }
  }

  predicate Sorted(s: seq<string>) {
    forall i :: 0 < i < |s| ==> LexLe(s[i - 1], s[i])
  }

  function Insert(x: string, s: seq<string>): (r: seq<string>)
    requires Sorted(s)
    ensures Sorted(r) && multiset(r) == multiset(s) + multiset{x}
    ensures r[0] == x || (s != [] && r[0] == s[0])
  {
    if s == [] then [x]
    else if LexLe(x, s[0]) then [x] + s
    else
      LexLeTotal(x, s[0]);
      var rest := Insert(x, s[1..]);
      assert s == [s[0]] + s[1..];
      [s[0]] + rest
  }

  /** `sorted(names)`: the names in ascending order, each kept as often as it occurs. */
  function Sort(names: seq<string>): (r: seq<string>)
    ensures Sorted(r) && multiset(r) == multiset(names)
  {
    if names == [] then []
    else
      assert names == [names[0]] + names[1..];
      Insert(names[0], Sort(names[1..]))
  }
}
