/**
 * The query sanitizer `ensure_select_with_limit`: a short-circuiting lexical
 * validator that turns an untrusted SQL string into a bounded, read-only
 * statement or rejects it with a reason.
 *
 * The three regular expressions of the source are replaced by explicit
 * character-level predicates (see PyText for the ASCII character classes):
 *  - `\b(INSERT|...|REVOKE)\b` with IGNORECASE: `WholeWordAt`, a
 *    case-insensitive match whose two ends are `\b` boundaries, where `\b`
 *    lies between a `[A-Za-z0-9_]` character and a character outside that
 *    class (or an end of the text);
 *  - `^SELECT\s` with IGNORECASE: `StartsWithSelect`;
 *  - `\bLIMIT\s+\d+\b` with IGNORECASE: `LimitClauseAt`.
 * The keyword and LIMIT patterns are written the way the regex reads (an
 * existential over positions) and are decided by token scanners proved
 * equivalent to them; the anchored SELECT pattern is checked directly.
 */
module Sanitizer {
  import opened Wrappers
  import opened PyText
  import Numerals

  /** `SAFE_ROW_LIMIT`: the bound appended when the query carries none. */
  const SafeRowLimit: nat := 200

  /** The mutating keywords, lower-cased; matching is case-insensitive. */
  const ForbiddenKeywords: seq<string> :=
    ["insert", "update", "delete", "drop", "alter", "truncate", "create", "replace", "grant", "revoke"]

  /** The three reasons `ensure_select_with_limit` raises `ValueError`. */
  datatype SanitizeError = EmptyQuery | ForbiddenKeyword | NotSelect {
    function Message(): string {
      match this
      case EmptyQuery => "La consulta SQL está vacía"
      case ForbiddenKeyword => "Solo se permiten consultas SELECT seguras"
      case NotSelect => "La consulta debe iniciar con SELECT"
    }
  }

  /** The three rejections raise three different messages, so a caller can tell them apart by the text. */
  lemma MessagesDistinct(e1: SanitizeError, e2: SanitizeError)
    ensures e1.Message() == e2.Message() <==> e1 == e2
  {
    if e1 != e2 {
      assert e1.Message()[0] != e2.Message()[0] || e1.Message()[12] != e2.Message()[12];
    }
  }

  /** `f" LIMIT {SAFE_ROW_LIMIT}"` */
  const DefaultLimitClause: string := " LIMIT " + Numerals.NatToDecimal(SafeRowLimit)

  /** `sql.strip().rstrip(";")`: whitespace trimmed first, then every trailing `;`. */
  function Clean(sql: string): string {
    RStripChar(Strip(sql), ';')
  }

  // ---------------------------------------------------------------------------
  // The regular expressions, stated over positions

  /** A `\w` character at index `k`; false outside the text. */
  predicate WordCharAt(s: string, k: int) {
    0 <= k < |s| && IsWordChar(s[k])
  }

  /** `\b` at index `i`: exactly one of the two neighbouring characters is a word character. */
  predicate Boundary(s: string, i: int) {
    WordCharAt(s, i - 1) != WordCharAt(s, i)
  }

  /** `s[i..i + |w|]` equals the lower-case word `w` after ASCII case folding. */
  predicate MatchesAt(s: string, i: int, w: string) {
    0 <= i && i + |w| <= |s| && forall p :: 0 <= p < |w| ==> Lower(s[i + p]) == w[p]
  }

  /** `\bw\b` matches at index `i`. */
  predicate WholeWordAt(s: string, i: int, w: string) {
    MatchesAt(s, i, w) && Boundary(s, i) && Boundary(s, i + |w|)
  }

  /** The forbidden-keyword regex finds a match somewhere in `s`. */
  ghost predicate HasForbiddenWord(s: string) {
    exists k, i :: 0 <= k < |ForbiddenKeywords| && WholeWordAt(s, i, ForbiddenKeywords[k])
  }

  /** `^SELECT\s` matches: the text starts with `select` in any case and then a whitespace character. */
  predicate StartsWithSelect(s: string) {
    |s| >= 7 && MatchesAt(s, 0, "select") && IsSpace(s[6])
  }

  datatype CharClass = WordClass | SpaceClass | DigitClass

  predicate InClass(c: char, cls: CharClass) {
    match cls
    case WordClass => IsWordChar(c)
    case SpaceClass => IsSpace(c)
    case DigitClass => IsDigit(c)
  }

  /** Every character of `s[a..b]` is in the class. */
  predicate AllIn(s: string, a: int, b: int, cls: CharClass)
    requires 0 <= a <= b <= |s|
  {
    forall p :: a <= p < b ==> InClass(s[p], cls)
  }

  /** `\bLIMIT\s+\d+\b` matches at index `i`. */
  ghost predicate LimitClauseAt(s: string, i: int) {
    && Boundary(s, i)
    && MatchesAt(s, i, "limit")
    && exists j, k :: i + 5 < j < k <= |s| && AllIn(s, i + 5, j, SpaceClass) && AllIn(s, j, k, DigitClass) && Boundary(s, k)
  }

  /** The LIMIT regex finds a match somewhere in `s`. */
  ghost predicate HasLimitClause(s: string) {
    exists i :: LimitClauseAt(s, i)
  }

  /** What every accepted query satisfies: read-only start, no mutating keyword, a row bound. */
  ghost predicate IsSafeQuery(q: string) {
    StartsWithSelect(q) && !HasForbiddenWord(q) && HasLimitClause(q)
  }

  // ---------------------------------------------------------------------------
  // The scanners that decide them

  /** The end of the longest run of class characters starting at `i`. */
  function RunEnd(s: string, i: nat, cls: CharClass): (e: nat)
    requires i <= |s|
    ensures i <= e <= |s|
    ensures AllIn(s, i, e, cls)
    ensures e < |s| ==> !InClass(s[e], cls)
    decreases |s| - i
  {
    if i < |s| && InClass(s[i], cls) then RunEnd(s, i + 1, cls) else i
  }

  /** A run that ends where the class stops is the longest run. */
  lemma RunEndIs(s: string, i: nat, e: nat, cls: CharClass)
    requires i <= e <= |s|
    requires AllIn(s, i, e, cls)
    requires e < |s| ==> !InClass(s[e], cls)
    ensures RunEnd(s, i, cls) == e
  {
  }

  /** `pos` does not split a word: scanning for whole words may start there. */
  predicate AtTokenEdge(s: string, pos: int) {
    !(WordCharAt(s, pos - 1) && WordCharAt(s, pos))
  }

  lemma KeywordsAreLetters()
    ensures forall k, p :: 0 <= k < |ForbiddenKeywords| && 0 <= p < |ForbiddenKeywords[k]| ==> 'a' <= ForbiddenKeywords[k][p] <= 'z'
    ensures forall k :: 0 <= k < |ForbiddenKeywords| ==> |ForbiddenKeywords[k]| > 0 && ForbiddenKeywords[k][0] != 'l'
  {
  }

  /**
   * A whole-word match of a word made of letters is exactly a word token: it
   * starts at a token edge and the longest word run from there is the match.
   */
  lemma {:induction false} WholeWordIsToken(s: string, i: int, w: string)
    requires w != [] && forall p :: 0 <= p < |w| ==> 'a' <= w[p] <= 'z'
    requires WholeWordAt(s, i, w)
    ensures 0 <= i < |s| && IsWordChar(s[i]) && AtTokenEdge(s, i)
    ensures RunEnd(s, i, WordClass) == i + |w|
    ensures LowerStr(s[i..i + |w|]) == w
  {
    assert Lower(s[i]) == w[0];
    forall p | i <= p < i + |w| ensures InClass(s[p], WordClass) {
      assert Lower(s[i + (p - i)]) == w[p - i];
    }
    RunEndIs(s, i, i + |w|, WordClass);
    var t := LowerStr(s[i..i + |w|]);
    forall p | 0 <= p < |w| ensures t[p] == w[p] {
      assert s[i..i + |w|][p] == s[i + p];
    }
  }

  /** A letter-word match that starts inside a word token starts at the token's first character. */
  lemma {:induction false} MatchInsideTokenIsAtStart(s: string, pos: nat, i: int, w: string)
    requires pos < |s| && IsWordChar(s[pos]) && AtTokenEdge(s, pos)
    requires w != [] && forall p :: 0 <= p < |w| ==> 'a' <= w[p] <= 'z'
    requires WholeWordAt(s, i, w)
    requires pos <= i < RunEnd(s, pos, WordClass)
    ensures i == pos
  {
  }

  /**
   * Scans the word tokens of `s` from `pos` and reports whether one of them,
   * lower-cased, is a forbidden keyword.
   */
  function ScanForbidden(s: string, pos: nat): (found: bool)
    requires pos <= |s| && AtTokenEdge(s, pos)
    decreases |s| - pos
  {
    if pos == |s| then false
    else if !IsWordChar(s[pos]) then ScanForbidden(s, pos + 1)
    else
      var e := RunEnd(s, pos, WordClass);
      LowerStr(s[pos..e]) in ForbiddenKeywords || ScanForbidden(s, e)
  }

  /** The scanner finds a keyword token exactly when the regex finds a whole-word match. */
  lemma {:induction false} ScanForbiddenCorrect(s: string, pos: nat)
    requires pos <= |s| && AtTokenEdge(s, pos)
    ensures ScanForbidden(s, pos) <==>
            exists k, i :: 0 <= k < |ForbiddenKeywords| && pos <= i && WholeWordAt(s, i, ForbiddenKeywords[k])
    decreases |s| - pos
  {
    KeywordsAreLetters();
    if pos == |s| {
    } else if !IsWordChar(s[pos]) {
      ScanForbiddenCorrect(s, pos + 1);
    } else {
      var e := RunEnd(s, pos, WordClass);
      ScanForbiddenCorrect(s, e);
      ScanForbiddenStep(s, pos, e, LowerStr(s[pos..e]), ScanForbidden(s, e));
    }
  }

  lemma {:induction false} ScanForbiddenStep(s: string, pos: nat, e: nat, token: string, rest: bool)
    requires pos < |s| && IsWordChar(s[pos]) && AtTokenEdge(s, pos)
    requires e == RunEnd(s, pos, WordClass) && token == LowerStr(s[pos..e])
    requires rest <==> exists k, i :: 0 <= k < |ForbiddenKeywords| && e <= i && WholeWordAt(s, i, ForbiddenKeywords[k])
    ensures (token in ForbiddenKeywords || rest) <==>
            exists k, i :: 0 <= k < |ForbiddenKeywords| && pos <= i && WholeWordAt(s, i, ForbiddenKeywords[k])
  {
    if token in ForbiddenKeywords {
      var k :| 0 <= k < |ForbiddenKeywords| && ForbiddenKeywords[k] == token;
      TokenIsWholeWord(s, pos, e, k);
    }
    if exists k, i :: 0 <= k < |ForbiddenKeywords| && pos <= i && WholeWordAt(s, i, ForbiddenKeywords[k]) {
      var k, i :| 0 <= k < |ForbiddenKeywords| && pos <= i && WholeWordAt(s, i, ForbiddenKeywords[k]);
      if i < e {
        MatchInTokenIsToken(s, pos, e, i, k);
      }
    }
  }

  /** A word token that is a keyword, lower-cased, is a whole-word match of it. */
  lemma TokenIsWholeWord(s: string, pos: nat, e: nat, k: nat)
    requires pos < |s| && IsWordChar(s[pos]) && AtTokenEdge(s, pos)
    requires e == RunEnd(s, pos, WordClass) && k < |ForbiddenKeywords|
    requires LowerStr(s[pos..e]) == ForbiddenKeywords[k]
    ensures WholeWordAt(s, pos, ForbiddenKeywords[k])
  {
    var token := LowerStr(s[pos..e]);
    forall p | 0 <= p < |token| ensures Lower(s[pos + p]) == token[p] {
      assert s[pos..e][p] == s[pos + p];
    }
    assert WordCharAt(s, e - 1);
  }

  /** A whole-word match starting inside a word token is the whole token. */
  lemma MatchInTokenIsToken(s: string, pos: nat, e: nat, i: int, k: nat)
    requires pos < |s| && IsWordChar(s[pos]) && AtTokenEdge(s, pos)
    requires e == RunEnd(s, pos, WordClass) && k < |ForbiddenKeywords|
    requires pos <= i < e && WholeWordAt(s, i, ForbiddenKeywords[k])
    ensures LowerStr(s[pos..e]) == ForbiddenKeywords[k]
  {
    KeywordsAreLetters();
    MatchInsideTokenIsAtStart(s, pos, i, ForbiddenKeywords[k]);
    WholeWordIsToken(s, i, ForbiddenKeywords[k]);
  }

  /** After a `limit` token ending at `e`: a whitespace run, then a digit run that ends at a word boundary. */
  predicate BoundFollows(s: string, e: nat)
    requires e <= |s|
  {
    var j := RunEnd(s, e, SpaceClass);
    var k := RunEnd(s, j, DigitClass);
    e < j < k && !WordCharAt(s, k)
  }

  /** The clause half of `LimitClauseAt`, given where the keyword ends, is decided by `BoundFollows`. */
  lemma {:induction false} BoundFollowsIff(s: string, e: nat)
    requires 0 < e <= |s| && IsWordChar(s[e - 1])
    ensures BoundFollows(s, e) <==>
            exists j, k :: e < j < k <= |s| && AllIn(s, e, j, SpaceClass) && AllIn(s, j, k, DigitClass) && Boundary(s, k)
  {
    var j := RunEnd(s, e, SpaceClass);
    var k := RunEnd(s, j, DigitClass);
    if BoundFollows(s, e) {
      assert WordCharAt(s, k - 1);
      assert AllIn(s, e, j, SpaceClass) && AllIn(s, j, k, DigitClass) && Boundary(s, k);
    }
    if exists j', k' :: e < j' < k' <= |s| && AllIn(s, e, j', SpaceClass) && AllIn(s, j', k', DigitClass) && Boundary(s, k') {
      var j', k' :| e < j' < k' <= |s| && AllIn(s, e, j', SpaceClass) && AllIn(s, j', k', DigitClass) && Boundary(s, k');
      assert InClass(s[j'], DigitClass);
      RunEndIs(s, e, j', SpaceClass);
      assert WordCharAt(s, k' - 1) by { assert InClass(s[k' - 1], DigitClass); }
      assert k' < |s| ==> !InClass(s[k'], DigitClass);
      RunEndIs(s, j', k', DigitClass);
    }
  }

  /** Scans the word tokens of `s` from `pos` for a `limit` token that a bound follows. */
  function ScanLimit(s: string, pos: nat): (found: bool)
    requires pos <= |s| && AtTokenEdge(s, pos)
    decreases |s| - pos
  {
    if pos == |s| then false
    else if !IsWordChar(s[pos]) then ScanLimit(s, pos + 1)
    else
      var e := RunEnd(s, pos, WordClass);
      (LowerStr(s[pos..e]) == "limit" && BoundFollows(s, e)) || ScanLimit(s, e)
  }

  /** The scanner finds a `limit` token with a bound exactly when the LIMIT regex matches. */
  lemma {:induction false} ScanLimitCorrect(s: string, pos: nat)
    requires pos <= |s| && AtTokenEdge(s, pos)
    ensures ScanLimit(s, pos) <==> exists i :: pos <= i && LimitClauseAt(s, i)
    decreases |s| - pos
  {
    if pos == |s| {
    } else if !IsWordChar(s[pos]) {
      ScanLimitCorrect(s, pos + 1);
      ScanLimitSkip(s, pos);
    } else {
      var e := RunEnd(s, pos, WordClass);
      ScanLimitCorrect(s, e);
      ScanLimitStep(s, pos, e, ScanLimit(s, e));
    }
  }

  lemma ScanLimitSkip(s: string, pos: nat)
    requires pos < |s| && !IsWordChar(s[pos])
    ensures !LimitClauseAt(s, pos)
  {
    assert "limit"[0] == 'l';
  }

  lemma {:induction false} ScanLimitStep(s: string, pos: nat, e: nat, rest: bool)
    requires pos < |s| && IsWordChar(s[pos]) && AtTokenEdge(s, pos)
    requires e == RunEnd(s, pos, WordClass)
    requires rest <==> exists i :: e <= i && LimitClauseAt(s, i)
    ensures ((LowerStr(s[pos..e]) == "limit" && BoundFollows(s, e)) || rest) <==>
            exists i :: pos <= i && LimitClauseAt(s, i)
  {
    if LowerStr(s[pos..e]) == "limit" && BoundFollows(s, e) {
      LimitTokenIsClause(s, pos, e);
    }
    if exists i :: pos <= i && LimitClauseAt(s, i) {
      var i :| pos <= i && LimitClauseAt(s, i);
      if i < e {
        ClauseInTokenIsLimitToken(s, pos, e, i);
      }
    }
  }

  lemma LimitTokenIsClause(s: string, pos: nat, e: nat)
    requires pos < |s| && IsWordChar(s[pos]) && AtTokenEdge(s, pos)
    requires e == RunEnd(s, pos, WordClass)
    requires LowerStr(s[pos..e]) == "limit" && BoundFollows(s, e)
    ensures LimitClauseAt(s, pos)
  {
    assert e == pos + 5;
    assert WordCharAt(s, e - 1);
    BoundFollowsIff(s, e);
    assert MatchesAt(s, pos, "limit") by {
      forall p | 0 <= p < 5 ensures Lower(s[pos + p]) == "limit"[p] {
        assert s[pos..e][p] == s[pos + p];
      }
    }
  }

  lemma ClauseInTokenIsLimitToken(s: string, pos: nat, e: nat, i: nat)
    requires pos < |s| && IsWordChar(s[pos]) && AtTokenEdge(s, pos)
    requires e == RunEnd(s, pos, WordClass)
    requires pos <= i < e && LimitClauseAt(s, i)
    ensures LowerStr(s[pos..e]) == "limit" && BoundFollows(s, e)
  {
    var j, k :| i + 5 < j < k <= |s| && AllIn(s, i + 5, j, SpaceClass) && AllIn(s, j, k, DigitClass) && Boundary(s, k);
    assert Boundary(s, i + 5) by {
      assert InClass(s[i + 5], SpaceClass);
      assert Lower(s[i + 4]) == "limit"[4];
    }
    assert WholeWordAt(s, i, "limit");
    MatchInsideTokenIsAtStart(s, pos, i, "limit");
    WholeWordIsToken(s, i, "limit");
    assert WordCharAt(s, e - 1);
    BoundFollowsIff(s, e);
  }

  /**
   * Past a word that is not a forbidden keyword, and the non-word characters
   * after it, the keyword scan goes on unchanged; so does the LIMIT scan
   * unless the word is `limit`.
   */
  lemma PastWord(s: string, pos: nat, e: nat, q: nat, w: string)
    requires pos < e <= q <= |s| && AtTokenEdge(s, pos)
    requires AllIn(s, pos, e, WordClass) && (e < |s| ==> !IsWordChar(s[e]))
    requires forall k :: e <= k < q ==> !IsWordChar(s[k])
    requires LowerStr(s[pos..e]) == w && w !in ForbiddenKeywords
    ensures ScanForbidden(s, pos) == ScanForbidden(s, q)
    ensures w != "limit" ==> ScanLimit(s, pos) == ScanLimit(s, q)
  {
    RunEndIs(s, pos, e, WordClass);
    PastGap(s, e, q);
  }

  /** A `limit` word followed by whitespace and digits completes the clause; the forbidden-word scan goes on past it to the digits. */
  lemma AtLimitClause(s: string, pos: nat, j: nat, k: nat)
    requires pos + 5 < j < k <= |s| && AtTokenEdge(s, pos)
    requires AllIn(s, pos, pos + 5, WordClass) && LowerStr(s[pos..pos + 5]) == "limit"
    requires AllIn(s, pos + 5, j, SpaceClass) && AllIn(s, j, k, DigitClass)
    requires k < |s| ==> !IsWordChar(s[k])
    ensures ScanLimit(s, pos)
    ensures ScanForbidden(s, pos) == ScanForbidden(s, j)
  {
    var e := pos + 5;
    RunEndIs(s, pos, e, WordClass);
    RunEndIs(s, e, j, SpaceClass);
    RunEndIs(s, j, k, DigitClass);
    PastGap(s, e, j);
  }

  /** Non-word characters are skipped by both scans. */
  lemma {:induction false} PastGap(s: string, pos: nat, q: nat)
    requires pos <= q <= |s| && AtTokenEdge(s, pos)
    requires forall k :: pos <= k < q ==> !IsWordChar(s[k])
    ensures ScanForbidden(s, pos) == ScanForbidden(s, q)
    ensures ScanLimit(s, pos) == ScanLimit(s, q)
    decreases q - pos
  {
    if pos < q {
      PastGap(s, pos + 1, q);
    }
  }

  // ---------------------------------------------------------------------------
  // The sanitizer

  /**
   * `ensure_select_with_limit`: the first failing check wins (empty, then a
   * forbidden keyword anywhere, then the SELECT prefix); an accepted query
   * gets the default bound only when it carries no LIMIT clause.
   */
  function Sanitize(sql: string): (r: Result<string, SanitizeError>)
    ensures r == Err(EmptyQuery) <==> Clean(sql) == []
    ensures r == Err(ForbiddenKeyword) <==> Clean(sql) != [] && HasForbiddenWord(Clean(sql))
    ensures r == Err(NotSelect) <==>
            Clean(sql) != [] && !HasForbiddenWord(Clean(sql)) && !StartsWithSelect(Clean(sql))
    ensures r.Ok? ==> IsSafeQuery(r.value)
    ensures r.Ok? && HasLimitClause(Clean(sql)) ==> r.value == Clean(sql)
    ensures r.Ok? && !HasLimitClause(Clean(sql)) ==> r.value == Clean(sql) + " LIMIT 200"
  {
    var c := Clean(sql);
    ScanForbiddenCorrect(c, 0);
    ScanLimitCorrect(c, 0);
    if c == [] then Err(EmptyQuery)
    else if ScanForbidden(c, 0) then Err(ForbiddenKeyword)
    else if !StartsWithSelect(c) then Err(NotSelect)
    else if ScanLimit(c, 0) then Ok(c)
    else
      DefaultClauseKeepsSafe(c);
      Ok(c + DefaultLimitClause)
  }

  lemma DefaultClauseText()
    ensures DefaultLimitClause == " LIMIT 200"
  {
    assert Numerals.NatToDecimal(2) == "2";
    assert Numerals.NatToDecimal(20) == "20";
    assert Numerals.NatToDecimal(200) == "200";
  }

  /** Nothing in the appended default clause is a forbidden keyword. */
  lemma DefaultClauseIsClean()
    ensures !HasForbiddenWord(" LIMIT 200")
  {
    ScanForbiddenCorrect(" LIMIT 200", 0);
    DefaultClauseHead();
    DefaultClauseTail();
  }

  lemma DefaultClauseHead()
    ensures ScanForbidden(" LIMIT 200", 0) == ScanForbidden(" LIMIT 200", 1)
  {
    PastGap(" LIMIT 200", 0, 1);
  }

  lemma DefaultClauseTail()
    ensures ScanForbidden(" LIMIT 200", 1) == ScanForbidden(" LIMIT 200", 7)
    ensures !ScanForbidden(" LIMIT 200", 7)
  {
    PastWord(" LIMIT 200", 1, 6, 7, "limit");
    PastWord(" LIMIT 200", 7, 10, 10, "200");
  }

  /** Every character a letter-word match covers is a word character. */
  lemma MatchIsWordChars(s: string, i: int, w: string, q: int)
    requires forall p :: 0 <= p < |w| ==> 'a' <= w[p] <= 'z'
    requires MatchesAt(s, i, w) && i <= q < i + |w|
    ensures IsWordChar(s[q])
  {
    assert Lower(s[i + (q - i)]) == w[q - i];
  }

  /**
   * Appending text that starts with a non-word character neither splits nor
   * joins words: a whole-word match in the result lies entirely in one part.
   */
  lemma {:induction false} WholeWordSplit(a: string, b: string, i: int, w: string)
    requires b != [] && !IsWordChar(b[0])
    requires w != [] && forall p :: 0 <= p < |w| ==> 'a' <= w[p] <= 'z'
    requires WholeWordAt(a + b, i, w)
    ensures (i + |w| <= |a| && WholeWordAt(a, i, w)) || (i > |a| && WholeWordAt(b, i - |a|, w))
  {
    var s := a + b;
    if i <= |a| < i + |w| {
      MatchIsWordChars(s, i, w, |a|);
      assert false;
    }
    if i + |w| <= |a| {
      assert WordCharAt(a, i - 1) == WordCharAt(s, i - 1);
      assert WordCharAt(a, i) == WordCharAt(s, i);
      assert WordCharAt(a, i + |w| - 1) == WordCharAt(s, i + |w| - 1);
      assert WordCharAt(a, i + |w|) == WordCharAt(s, i + |w|);
      assert MatchesAt(a, i, w) by {
        forall p | 0 <= p < |w| ensures Lower(a[i + p]) == w[p] {
          assert s[i + p] == a[i + p];
        }
      }
    } else {
      var i' := i - |a|;
      assert WordCharAt(b, i' - 1) == WordCharAt(s, i - 1);
      assert WordCharAt(b, i') == WordCharAt(s, i);
      assert WordCharAt(b, i' + |w|) == WordCharAt(s, i + |w|);
      assert MatchesAt(b, i', w) by {
        forall p | 0 <= p < |w| ensures Lower(b[i' + p]) == w[p] {
          assert s[i + p] == b[i' + p];
        }
      }
    }
  }

  /** Appending keeps the `SELECT` prefix. */
  lemma SelectPrefixKept(c: string, d: string)
    requires StartsWithSelect(c)
    ensures StartsWithSelect(c + d)
  {
    assert forall p :: 0 <= p < 7 ==> (c + d)[p] == c[p];
  }

  /** Appending the default clause introduces no forbidden keyword. */
  lemma DefaultClauseAddsNoKeyword(c: string)
    requires !HasForbiddenWord(c)
    ensures !HasForbiddenWord(c + " LIMIT 200")
  {
    var d := " LIMIT 200";
    var s := c + d;
    if HasForbiddenWord(s) {
      var k, i :| 0 <= k < |ForbiddenKeywords| && WholeWordAt(s, i, ForbiddenKeywords[k]);
      KeywordsAreLetters();
      WholeWordSplit(c, d, i, ForbiddenKeywords[k]);
      DefaultClauseIsClean();
      assert false;
    }
  }

  /** The default clause is itself a LIMIT clause, found right after the query it is appended to. */
  lemma DefaultClauseIsLimitClause(c: string)
    ensures LimitClauseAt(c + " LIMIT 200", |c| + 1)
  {
    var s := c + " LIMIT 200";
    var i := |c| + 1;
    assert s[i - 1] == ' ' && s[i] == 'L';
    assert forall p :: 0 <= p < 5 ==> s[i + p] == "LIMIT"[p];
    assert AllIn(s, i + 5, i + 6, SpaceClass);
    assert forall p :: i + 6 <= p < i + 9 ==> s[p] == "200"[p - (i + 6)];
    assert AllIn(s, i + 6, i + 9, DigitClass);
    assert Boundary(s, i + 9);
  }

  /** The default bound turns an otherwise safe, unbounded query into a safe query. */
  lemma DefaultClauseKeepsSafe(c: string)
    requires StartsWithSelect(c) && !HasForbiddenWord(c)
    ensures DefaultLimitClause == " LIMIT 200"
    ensures IsSafeQuery(c + DefaultLimitClause)
  {
    DefaultClauseText();
    SelectPrefixKept(c, " LIMIT 200");
    DefaultClauseAddsNoKeyword(c);
    DefaultClauseIsLimitClause(c);
  }

  // ---------------------------------------------------------------------------
  // Properties of the sanitizer

  /** The query is empty exactly when, once whitespace is trimmed, only `;` characters remain. */
  lemma EmptyIffOnlyTerminators(sql: string)
    ensures Sanitize(sql) == Err(EmptyQuery) <==> forall i :: 0 <= i < |Strip(sql)| ==> Strip(sql)[i] == ';'
  {
  }

  /** Whitespace-only input is rejected as empty. */
  lemma WhitespaceOnlyIsEmpty(sql: string)
    requires forall i :: 0 <= i < |sql| ==> IsSpace(sql[i])
    ensures Sanitize(sql) == Err(EmptyQuery)
  {
  }

  /** Cleaning changes nothing in a text with no whitespace at either end and no `;` at the end. */
  lemma CleanKeeps(q: string)
    requires q != [] && !IsSpace(q[0]) && !IsSpace(q[|q| - 1]) && q[|q| - 1] != ';'
    ensures Clean(q) == q
  {
    assert LStrip(q) == q;
    assert RStrip(q) == q;
  }

  /** Cleaning a text with one `;` at the end, not preceded by another, removes exactly that `;`. */
  lemma CleanDropsTerminator(q: string)
    requires |q| >= 2 && !IsSpace(q[0]) && q[|q| - 1] == ';' && q[|q| - 2] != ';'
    ensures Clean(q) == q[..|q| - 1]
  {
    assert LStrip(q) == q;
    assert RStrip(q) == q;
    assert RStripChar(q[..|q| - 1], ';') == q[..|q| - 1];
  }

  /** Leading whitespace before such a text is all that cleaning removes. */
  lemma CleanDropsPadding(pad: string, q: string)
    requires forall i :: 0 <= i < |pad| ==> IsSpace(pad[i])
    requires q != [] && !IsSpace(q[0]) && !IsSpace(q[|q| - 1]) && q[|q| - 1] != ';'
    ensures Clean(pad + q) == q
  {
    LStripPadding(pad, q);
    CleanKeeps(q);
  }

  /**
   * Re-sanitising an accepted query returns it unchanged exactly when
   * cleaning leaves it alone, that is, when no whitespace was left before a
   * stripped `;`.
   */
  lemma FixedPointIffClean(sql: string)
    requires Sanitize(sql).Ok?
    ensures var q := Sanitize(sql).value; Sanitize(q) == Ok(q) <==> Clean(q) == q
  {
    var q := Sanitize(sql).value;
    assert Lower(q[0]) == "select"[0];
    if Sanitize(q) == Ok(q) && !HasLimitClause(Clean(q)) {
      DefaultClauseText();
      assert q[|q| - 1] == '0';
      CleanKeeps(q);
    }
  }

  /** A query that received the default bound is a fixed point of the sanitizer. */
  lemma ResanitizeAppended(sql: string)
    requires Sanitize(sql).Ok? && !HasLimitClause(Clean(sql))
    ensures Sanitize(Sanitize(sql).value) == Sanitize(sql)
  {
    var q := Sanitize(sql).value;
    assert Lower(q[0]) == "select"[0];
    DefaultClauseText();
    assert q[|q| - 1] == '0';
    CleanKeeps(q);
    FixedPointIffClean(sql);
  }
}
