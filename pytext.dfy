/**
 * The Python string operations the gateway relies on, over ASCII.
 *
 * Simplifications, stated once for the whole model:
 *  - `str.isspace()` and the regex class `\s` are taken to be the ASCII
 *    whitespace Python recognises: space, \t \n \v \f \r and the separators
 *    \x1c-\x1f (Unicode spaces such as U+00A0 are not modelled);
 *  - the regex classes `\w` and `\d` are `[A-Za-z0-9_]` and `[0-9]`;
 *  - `str.lower()` and `re.IGNORECASE` fold only the ASCII letters A-Z.
 */
module PyText {

  predicate IsSpace(c: char) {
    c == ' ' || ('\t' <= c <= '\r') || ('\U{1C}' <= c <= '\U{1F}')
  }

  predicate IsDigit(c: char) {
    '0' <= c <= '9'
  }

  predicate IsLetter(c: char) {
    ('a' <= c <= 'z') || ('A' <= c <= 'Z')
  }

  /** The regex class `\w`: the characters on the inside of a word boundary `\b`. */
  predicate IsWordChar(c: char) {
    IsLetter(c) || IsDigit(c) || c == '_'
  }

  /** ASCII lower-casing: letters keep their letter-ness, every other character is fixed. */
  function Lower(c: char): (r: char)
    ensures IsLetter(c) <==> IsLetter(r)
    ensures IsWordChar(c) <==> IsWordChar(r)
    ensures !IsLetter(c) ==> r == c
    ensures IsLetter(c) ==> 'a' <= r <= 'z'
  {
    if 'A' <= c <= 'Z' then (c as int + 32) as char else c
  }

  /** `s.lower()` */
  function LowerStr(s: string): (r: string)
    ensures |r| == |s|
    ensures forall i :: 0 <= i < |s| ==> r[i] == Lower(s[i])
  {
    seq(|s|, i requires 0 <= i < |s| => Lower(s[i]))
  }

  /** `s.lstrip()`: the longest suffix of `s` whose first character is not whitespace. */
  function LStrip(s: string): (r: string)
    ensures |r| <= |s| && r == s[|s| - |r|..]
    ensures forall i :: 0 <= i < |s| - |r| ==> IsSpace(s[i])
    ensures r != [] ==> !IsSpace(r[0])
  {
    if s != [] && IsSpace(s[0]) then LStrip(s[1..]) else s
  }

  /** Leading whitespace makes no difference to `lstrip()`. */
  lemma {:induction false} LStripPadding(pad: string, s: string)
    requires forall i :: 0 <= i < |pad| ==> IsSpace(pad[i])
    ensures LStrip(pad + s) == LStrip(s)
    decreases |pad|
  {
    if pad == [] {
      assert pad + s == s;
    } else {
      var t := pad + s;
      assert t[0] == pad[0] && t[1..] == pad[1..] + s;
      LStripPadding(pad[1..], s);
    }
  }

  /** `s.rstrip()`: the longest prefix of `s` whose last character is not whitespace. */
  function RStrip(s: string): (r: string)
    ensures |r| <= |s| && r == s[..|r|]
    ensures forall i :: |r| <= i < |s| ==> IsSpace(s[i])
    ensures r != [] ==> !IsSpace(r[|r| - 1])
  {
    if s != [] && IsSpace(s[|s| - 1]) then RStrip(s[..|s| - 1]) else s
  }

  /** `s.strip()` */
  function Strip(s: string): (r: string)
    ensures r != [] ==> !IsSpace(r[0]) && !IsSpace(r[|r| - 1])
    ensures r == [] <==> forall i :: 0 <= i < |s| ==> IsSpace(s[i])
  {
    RStrip(LStrip(s))
  }

  /** `s.rstrip(c)`: every trailing copy of `c` removed, nothing else. */
  function RStripChar(s: string, c: char): (r: string)
    ensures |r| <= |s| && r == s[..|r|]
    ensures forall i :: |r| <= i < |s| ==> s[i] == c
    ensures r != [] ==> r[|r| - 1] != c
  {
    if s != [] && s[|s| - 1] == c then RStripChar(s[..|s| - 1], c) else s
  }

  /** `s.startswith(p)` */
  predicate StartsWith(s: string, p: string) {
    |p| <= |s| && s[..|p|] == p
  }

  /** `t` occurs in `s` starting at index `i`. */
  predicate OccursAt(s: string, t: string, i: int) {
    0 <= i && i + |t| <= |s| && s[i..i + |t|] == t
  }

  /** `t in s`, as a statement about positions. */
  ghost predicate Contains(s: string, t: string) {
    exists i :: OccursAt(s, t, i)
  }

  /** The substring search behind Python's `in`, scanning left to right from `from`. */
  function SearchFrom(s: string, t: string, from: nat): (found: bool)
    ensures found <==> exists i :: from <= i && OccursAt(s, t, i)
    decreases |s| - from
  {
    if from + |t| > |s| then false
    else OccursAt(s, t, from) || SearchFrom(s, t, from + 1)
  }

  /** `sep.join(parts)` */
  function Join(sep: string, parts: seq<string>): string {
    if |parts| == 0 then ""
    else if |parts| == 1 then parts[0]
    else parts[0] + sep + Join(sep, parts[1..])
  }

  /** The index of the first `c` in `s`, or `|s|` when there is none. */
  function IndexOf(s: string, c: char): (k: nat)
    ensures k <= |s|
    ensures k < |s| ==> s[k] == c
    ensures forall i :: 0 <= i < k ==> s[i] != c
  {
    if s == [] then 0
    else if s[0] == c then 0
    else 1 + IndexOf(s[1..], c)
  }

  /** `s.split(c)` for a one-character separator. */
  function Split(s: string, c: char): (parts: seq<string>)
    ensures parts != []
    decreases |s|
  {
    var k := IndexOf(s, c);
    if k == |s| then [s] else [s[..k]] + Split(s[k + 1..], c)
  }

  /** A character found in neither the separator nor any part is not in the joined text. */
  lemma {:induction false} JoinAvoids(sep: string, parts: seq<string>, c: char)
    requires c !in sep
    requires forall i :: 0 <= i < |parts| ==> c !in parts[i]
    ensures c !in Join(sep, parts)
    decreases |parts|
  {
    if |parts| > 1 {
      JoinAvoids(sep, parts[1..], c);
    }
  }

  /** Putting `tail` before a joined text is the same as putting it before the first part. */
  lemma JoinPrefix(sep: string, tail: string, p: string, ps: seq<string>)
    ensures tail + Join(sep, [p] + ps) == Join(sep, [tail + p] + ps)
  {
    if ps != [] {
      assert ([p] + ps)[1..] == ps && ([tail + p] + ps)[1..] == ps;
    }
  }

  /**
   * Splitting a text joined with `c + tail` at `c` gives back the parts, each
   * after the first with `tail` in front of it, as long as neither the parts
   * nor `tail` hold `c`.
   */
  lemma {:induction false} SplitJoin(parts: seq<string>, c: char, tail: string)
    requires parts != [] && c !in tail
    requires forall i :: 0 <= i < |parts| ==> c !in parts[i]
    ensures var pieces := Split(Join([c] + tail, parts), c);
            |pieces| == |parts| && pieces[0] == parts[0]
            && forall i :: 1 <= i < |parts| ==> pieces[i] == tail + parts[i]
    decreases |parts|
  {
    var sep := [c] + tail;
    if |parts| == 1 {
      SplitNone(parts[0], c);
    } else {
      var next := [tail + parts[1]] + parts[2..];
      JoinUnfold(parts, c, tail);
      SplitStep(parts[0], c, Join(sep, next));
      assert forall i :: 0 <= i < |next| ==> c !in next[i];
      SplitJoin(next, c, tail);
    }
  }

  /** A text without `c` splits into itself alone. */
  lemma SplitNone(a: string, c: char)
    requires c !in a
    ensures Split(a, c) == [a]
  {
    assert IndexOf(a, c) == |a|;
  }

  /** Joining two or more parts puts the first, then `c`, then the rest joined with `tail` moved onto the second part. */
  lemma JoinUnfold(parts: seq<string>, c: char, tail: string)
    requires |parts| >= 2
    ensures Join([c] + tail, parts) == parts[0] + [c] + Join([c] + tail, [tail + parts[1]] + parts[2..])
  {
    assert parts[1..] == [parts[1]] + parts[2..];
    JoinPrefix([c] + tail, tail, parts[1], parts[2..]);
  }

  /** Splitting at the first `c` takes off the text before it as the first part. */
  lemma SplitStep(a: string, c: char, b: string)
    requires c !in a
    ensures Split(a + [c] + b, c) == [a] + Split(b, c)
  {
    var s := a + [c] + b;
    assert s[|a|] == c;
    assert forall i :: 0 <= i < |a| ==> s[i] == a[i];
    assert IndexOf(s, c) == |a|;
    assert s[..|a|] == a && s[|a| + 1..] == b;
  }
}
