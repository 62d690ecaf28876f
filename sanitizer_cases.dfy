/**
 * Worked inputs for `ensure_select_with_limit`:
 * what is rejected and why, where the default bound goes, and where the
 * code's behaviour differs from a naive reading of it.
 */
module SanitizerCases {
  import opened Wrappers
  import opened PyText
  import opened Sanitizer

  // ---------------------------------------------------------------------------
  // From the three checks on the cleaned text to the sanitizer's answer

  lemma AcceptedWithDefault(sql: string, c: string)
    requires Clean(sql) == c && StartsWithSelect(c) && !ScanForbidden(c, 0) && !ScanLimit(c, 0)
    ensures Sanitize(sql) == Ok(c + " LIMIT 200")
  {
    DefaultClauseText();
  }

  lemma AcceptedAsIs(sql: string, c: string)
    requires Clean(sql) == c && StartsWithSelect(c) && !ScanForbidden(c, 0) && ScanLimit(c, 0)
    ensures Sanitize(sql) == Ok(c)
  {
  }

  lemma RejectedAsEmpty(sql: string)
    requires Clean(sql) == []
    ensures Sanitize(sql) == Err(EmptyQuery)
  {
  }

  lemma RejectedForKeyword(sql: string, c: string, k: nat, i: int)
    requires Clean(sql) == c && c != [] && k < |ForbiddenKeywords| && WholeWordAt(c, i, ForbiddenKeywords[k])
    ensures Sanitize(sql) == Err(ForbiddenKeyword)
  {
  }

  lemma RejectedAsNotSelect(sql: string, c: string)
    requires Clean(sql) == c && c != [] && !ScanForbidden(c, 0) && !StartsWithSelect(c)
    ensures Sanitize(sql) == Err(NotSelect)
  {
    ScanForbiddenCorrect(c, 0);
  }

  // ---------------------------------------------------------------------------
  // The cases

  lemma PaddedTerminatorsStripped()
    ensures Strip(" ;; ") == ";;"
  {
    assert LStrip(" ;; ") == ";; ";
    assert RStrip(";; ") == ";;";
  }

  lemma PaddedTerminatorsCleaned()
    ensures Clean(" ;; ") == []
  {
    PaddedTerminatorsStripped();
    assert RStripChar(";;", ';') == [];
  }

  /** Whitespace and terminators alone make an empty query. */
  lemma TerminatorsOnlyAreEmpty()
    ensures Sanitize(" ;; ") == Err(EmptyQuery)
  {
    PaddedTerminatorsCleaned();
    RejectedAsEmpty(" ;; ");
  }

  lemma DropTextIsClean()
    ensures Clean("SELECT * FROM t; DROP TABLE t") == "SELECT * FROM t; DROP TABLE t"
  {
    CleanKeeps("SELECT * FROM t; DROP TABLE t");
  }

  lemma DropIsWholeWord()
    ensures WholeWordAt("SELECT * FROM t; DROP TABLE t", 17, ForbiddenKeywords[3])
  {
  }

  /** A mutating keyword after a valid SELECT is still found. */
  lemma SmuggledDropIsForbidden()
    ensures Sanitize("SELECT * FROM t; DROP TABLE t") == Err(ForbiddenKeyword)
  {
    DropTextIsClean();
    DropIsWholeWord();
    RejectedForKeyword("SELECT * FROM t; DROP TABLE t", "SELECT * FROM t; DROP TABLE t", 3, 17);
  }

  lemma UpdateTextCleaned()
    ensures Clean("  " + "update t set x=1") == "update t set x=1"
  {
    CleanDropsPadding("  ", "update t set x=1");
  }

  lemma UpdateIsWholeWord()
    ensures WholeWordAt("update t set x=1", 0, ForbiddenKeywords[1])
  {
  }

  /** A mutating statement is reported as a forbidden keyword, not as a missing SELECT: that check comes first. */
  lemma UpdateIsForbiddenBeforeSelectCheck()
    ensures Sanitize("  " + "update t set x=1") == Err(ForbiddenKeyword)
  {
    UpdateTextCleaned();
    UpdateIsWholeWord();
    RejectedForKeyword("  " + "update t set x=1", "update t set x=1", 1, 0);
  }

  lemma UsersTextIsClean()
    ensures Clean("SELECT * FROM users") == "SELECT * FROM users"
  {
    CleanKeeps("SELECT * FROM users");
  }

  lemma UsersStartsWithSelect()
    ensures StartsWithSelect("SELECT * FROM users")
  {
  }

  lemma UsersWord0()
    ensures ScanForbidden("SELECT * FROM users", 0) == ScanForbidden("SELECT * FROM users", 9)
    ensures ScanLimit("SELECT * FROM users", 0) == ScanLimit("SELECT * FROM users", 9)
  {
    PastWord("SELECT * FROM users", 0, 6, 9, "select");
  }

  lemma UsersWord1()
    ensures ScanForbidden("SELECT * FROM users", 9) == ScanForbidden("SELECT * FROM users", 14)
    ensures ScanLimit("SELECT * FROM users", 9) == ScanLimit("SELECT * FROM users", 14)
  {
    PastWord("SELECT * FROM users", 9, 13, 14, "from");
  }

  lemma UsersWord2()
    ensures !ScanForbidden("SELECT * FROM users", 14) && !ScanLimit("SELECT * FROM users", 14)
  {
    PastWord("SELECT * FROM users", 14, 19, 19, "users");
  }

  /** With no LIMIT clause the default bound is appended and nothing else changes. */
  lemma UnboundedGetsDefault()
    ensures Sanitize("SELECT * FROM users") == Ok("SELECT * FROM users" + " LIMIT 200")
  {
    UsersTextIsClean();
    UsersStartsWithSelect();
    UsersWord0();
    UsersWord1();
    UsersWord2();
    AcceptedWithDefault("SELECT * FROM users", "SELECT * FROM users");
  }
  lemma BoundedWord0()
    ensures ScanForbidden("SELECT * FROM users LIMIT 5", 0) == ScanForbidden("SELECT * FROM users LIMIT 5", 9)
    ensures ScanLimit("SELECT * FROM users LIMIT 5", 0) == ScanLimit("SELECT * FROM users LIMIT 5", 9)
  {
    assert "SELECT * FROM users LIMIT 5"[0..6] == "SELECT";
    PastWord("SELECT * FROM users LIMIT 5", 0, 6, 9, "select");
  }

  lemma BoundedWord1()
    ensures ScanForbidden("SELECT * FROM users LIMIT 5", 9) == ScanForbidden("SELECT * FROM users LIMIT 5", 14)
    ensures ScanLimit("SELECT * FROM users LIMIT 5", 9) == ScanLimit("SELECT * FROM users LIMIT 5", 14)
  {
    PastWord("SELECT * FROM users LIMIT 5", 9, 13, 14, "from");
  }

  lemma BoundedWord2()
    ensures ScanForbidden("SELECT * FROM users LIMIT 5", 14) == ScanForbidden("SELECT * FROM users LIMIT 5", 20)
    ensures ScanLimit("SELECT * FROM users LIMIT 5", 14) == ScanLimit("SELECT * FROM users LIMIT 5", 20)
  {
    PastWord("SELECT * FROM users LIMIT 5", 14, 19, 20, "users");
  }

  lemma BoundedClause()
    ensures ScanLimit("SELECT * FROM users LIMIT 5", 20)
    ensures ScanForbidden("SELECT * FROM users LIMIT 5", 20) == ScanForbidden("SELECT * FROM users LIMIT 5", 26)
  {
    AtLimitClause("SELECT * FROM users LIMIT 5", 20, 26, 27);
  }

  lemma BoundedDigits()
    ensures !ScanForbidden("SELECT * FROM users LIMIT 5", 26)
  {
    PastWord("SELECT * FROM users LIMIT 5", 26, 27, 27, "5");
  }

  lemma BoundedTextIsClean()
    ensures Clean("SELECT * FROM users LIMIT 5") == "SELECT * FROM users LIMIT 5"
  {
    CleanKeeps("SELECT * FROM users LIMIT 5");
  }

  lemma BoundedStartsWithSelect()
    ensures StartsWithSelect("SELECT * FROM users LIMIT 5")
  {
  }

  /** An explicit bound is left exactly as the caller wrote it. */
  lemma ExplicitBoundKept()
    ensures Sanitize("SELECT * FROM users LIMIT 5") == Ok("SELECT * FROM users LIMIT 5")
  {
    BoundedTextIsClean();
    BoundedStartsWithSelect();
    BoundedWord0();
    BoundedWord1();
    BoundedWord2();
    BoundedClause();
    BoundedDigits();
    AcceptedAsIs("SELECT * FROM users LIMIT 5", "SELECT * FROM users LIMIT 5");
  }

  lemma UpdatedWord0()
    ensures ScanForbidden("SELECT updated_at FROM t", 0) == ScanForbidden("SELECT updated_at FROM t", 7)
    ensures ScanLimit("SELECT updated_at FROM t", 0) == ScanLimit("SELECT updated_at FROM t", 7)
  {
    assert "SELECT updated_at FROM t"[0..6] == "SELECT";
    PastWord("SELECT updated_at FROM t", 0, 6, 7, "select");
  }

  lemma UpdatedWord1()
    ensures ScanForbidden("SELECT updated_at FROM t", 7) == ScanForbidden("SELECT updated_at FROM t", 18)
    ensures ScanLimit("SELECT updated_at FROM t", 7) == ScanLimit("SELECT updated_at FROM t", 18)
  {
    PastWord("SELECT updated_at FROM t", 7, 17, 18, "updated_at");
  }

  lemma UpdatedWord2()
    ensures ScanForbidden("SELECT updated_at FROM t", 18) == ScanForbidden("SELECT updated_at FROM t", 23)
    ensures ScanLimit("SELECT updated_at FROM t", 18) == ScanLimit("SELECT updated_at FROM t", 23)
  {
    PastWord("SELECT updated_at FROM t", 18, 22, 23, "from");
  }

  lemma UpdatedWord3()
    ensures !ScanForbidden("SELECT updated_at FROM t", 23) && !ScanLimit("SELECT updated_at FROM t", 23)
  {
    PastWord("SELECT updated_at FROM t", 23, 24, 24, "t");
  }

  lemma UpdatedTextIsClean()
    ensures Clean("SELECT updated_at FROM t") == "SELECT updated_at FROM t"
  {
    CleanKeeps("SELECT updated_at FROM t");
  }

  lemma UpdatedStartsWithSelect()
    ensures StartsWithSelect("SELECT updated_at FROM t")
  {
  }

  /** A keyword inside a longer identifier is not a whole word, so the query is accepted. */
  lemma KeywordInsideIdentifierAllowed()
    ensures Sanitize("SELECT updated_at FROM t") == Ok("SELECT updated_at FROM t" + " LIMIT 200")
  {
    UpdatedTextIsClean();
    UpdatedStartsWithSelect();
    UpdatedWord0();
    UpdatedWord1();
    UpdatedWord2();
    UpdatedWord3();
    AcceptedWithDefault("SELECT updated_at FROM t", "SELECT updated_at FROM t");
  }

  lemma GluedWord0()
    ensures ScanForbidden("select*from t", 0) == ScanForbidden("select*from t", 7)
    ensures ScanLimit("select*from t", 0) == ScanLimit("select*from t", 7)
  {
    PastWord("select*from t", 0, 6, 7, "select");
  }

  lemma GluedWord1()
    ensures ScanForbidden("select*from t", 7) == ScanForbidden("select*from t", 12)
    ensures ScanLimit("select*from t", 7) == ScanLimit("select*from t", 12)
  {
    PastWord("select*from t", 7, 11, 12, "from");
  }

  lemma GluedWord2()
    ensures !ScanForbidden("select*from t", 12) && !ScanLimit("select*from t", 12)
  {
    PastWord("select*from t", 12, 13, 13, "t");
  }

  lemma GluedTextIsClean()
    ensures Clean("select*from t") == "select*from t"
  {
    CleanKeeps("select*from t");
  }

  /** `^SELECT\s` needs whitespace right after the keyword. */
  lemma SelectNeedsWhitespace()
    ensures Sanitize("select*from t") == Err(NotSelect)
  {
    GluedTextIsClean();
    GluedWord0();
    GluedWord1();
    GluedWord2();
    RejectedAsNotSelect("select*from t", "select*from t");
  }

  lemma SpacedWord0()
    ensures ScanForbidden("SELECT 1 LIMIT 5 ", 0) == ScanForbidden("SELECT 1 LIMIT 5 ", 7)
    ensures ScanLimit("SELECT 1 LIMIT 5 ", 0) == ScanLimit("SELECT 1 LIMIT 5 ", 7)
  {
    PastWord("SELECT 1 LIMIT 5 ", 0, 6, 7, "select");
  }

  lemma SpacedWord1()
    ensures ScanForbidden("SELECT 1 LIMIT 5 ", 7) == ScanForbidden("SELECT 1 LIMIT 5 ", 9)
    ensures ScanLimit("SELECT 1 LIMIT 5 ", 7) == ScanLimit("SELECT 1 LIMIT 5 ", 9)
  {
    PastWord("SELECT 1 LIMIT 5 ", 7, 8, 9, "1");
  }

  lemma SpacedClause()
    ensures ScanLimit("SELECT 1 LIMIT 5 ", 9)
    ensures ScanForbidden("SELECT 1 LIMIT 5 ", 9) == ScanForbidden("SELECT 1 LIMIT 5 ", 15)
  {
    AtLimitClause("SELECT 1 LIMIT 5 ", 9, 15, 16);
  }

  lemma SpacedDigits()
    ensures !ScanForbidden("SELECT 1 LIMIT 5 ", 15)
  {
    PastWord("SELECT 1 LIMIT 5 ", 15, 16, 17, "5");
  }

  lemma SpacedStartsWithSelect()
    ensures StartsWithSelect("SELECT 1 LIMIT 5 ")
  {
  }

  lemma SpacedScans()
    ensures !ScanForbidden("SELECT 1 LIMIT 5 ", 0) && ScanLimit("SELECT 1 LIMIT 5 ", 0)
  {
    SpacedWord0();
    SpacedWord1();
    SpacedClause();
    SpacedDigits();
  }

  lemma TrimmedWord0()
    ensures ScanForbidden("SELECT 1 LIMIT 5", 0) == ScanForbidden("SELECT 1 LIMIT 5", 7)
    ensures ScanLimit("SELECT 1 LIMIT 5", 0) == ScanLimit("SELECT 1 LIMIT 5", 7)
  {
    PastWord("SELECT 1 LIMIT 5", 0, 6, 7, "select");
  }

  lemma TrimmedWord1()
    ensures ScanForbidden("SELECT 1 LIMIT 5", 7) == ScanForbidden("SELECT 1 LIMIT 5", 9)
    ensures ScanLimit("SELECT 1 LIMIT 5", 7) == ScanLimit("SELECT 1 LIMIT 5", 9)
  {
    PastWord("SELECT 1 LIMIT 5", 7, 8, 9, "1");
  }

  lemma TrimmedClause()
    ensures ScanLimit("SELECT 1 LIMIT 5", 9)
    ensures ScanForbidden("SELECT 1 LIMIT 5", 9) == ScanForbidden("SELECT 1 LIMIT 5", 15)
  {
    AtLimitClause("SELECT 1 LIMIT 5", 9, 15, 16);
  }

  lemma TrimmedDigits()
    ensures !ScanForbidden("SELECT 1 LIMIT 5", 15)
  {
    PastWord("SELECT 1 LIMIT 5", 15, 16, 16, "5");
  }

  lemma TrimmedStartsWithSelect()
    ensures StartsWithSelect("SELECT 1 LIMIT 5")
  {
  }

  lemma TrimmedScans()
    ensures !ScanForbidden("SELECT 1 LIMIT 5", 0) && ScanLimit("SELECT 1 LIMIT 5", 0)
  {
    TrimmedWord0();
    TrimmedWord1();
    TrimmedClause();
    TrimmedDigits();
  }

  lemma TerminatedTextCleaned()
    ensures Clean("SELECT 1 LIMIT 5 ;") == "SELECT 1 LIMIT 5 "
  {
    CleanDropsTerminator("SELECT 1 LIMIT 5 ;");
  }

  lemma SpacedTextCleaned()
    ensures Clean("SELECT 1 LIMIT 5 ") == "SELECT 1 LIMIT 5"
  {
    var s := "SELECT 1 LIMIT 5 ";
    assert LStrip(s) == s;
    assert s[..|s| - 1] == "SELECT 1 LIMIT 5";
    assert RStrip(s) == "SELECT 1 LIMIT 5";
  }

  /**
   * `strip()` runs before `rstrip(";")`, so whitespace in front of the
   * terminator survives, and sanitising the output once more trims it: the
   * sanitizer is not idempotent on such input.
   */
  lemma SpaceBeforeTerminatorSurvives()
    ensures Sanitize("SELECT 1 LIMIT 5 ;") == Ok("SELECT 1 LIMIT 5 ")
    ensures Sanitize("SELECT 1 LIMIT 5 ") == Ok("SELECT 1 LIMIT 5")
  {
    TerminatedTextCleaned();
    SpacedStartsWithSelect();
    SpacedScans();
    AcceptedAsIs("SELECT 1 LIMIT 5 ;", "SELECT 1 LIMIT 5 ");
    SpacedTextCleaned();
    TrimmedStartsWithSelect();
    TrimmedScans();
    AcceptedAsIs("SELECT 1 LIMIT 5 ", "SELECT 1 LIMIT 5");
  }
}
