/** Properties of the command classifier and of its search-query extraction. */
module OsCommandProps {
  import opened Wrappers
  import opened JsText
  import opened Intent
  import opened OsCommand

  predicate NoLineTerminators(s: string) {
    forall i :: 0 <= i < |s| ==> !IsLineTerminator(s[i])
  }

  /** The white space a match consumes lies inside the white-space run after its keyword. */
  lemma SpacesWithinRun(s: string, m: RegexMatch)
    requires Matches(s, m)
    ensures m.spaces <= SpaceRun(s, m.start + m.keyword)
  {
    var q := m.start + m.keyword;
    var w := SpaceRun(s, q);
    assert q + w < |s| ==> !IsSpace(s[q + w]);
  }

  /** On a single-line text the capture runs to the end of the text. */
  lemma SingleLineCaptureIsSuffix(s: string)
    requires NoLineTerminators(s)
    requires FirstMatch(s, 0).Some?
    ensures SearchCapture(s) == Some(s[CaptureStart(FirstMatch(s, 0).value)..])
  {
    var m := FirstMatch(s, 0).value;
    var c := CaptureStart(m);
    assert LineRun(s, c) == |s| - c;
    assert SearchCapture(s) == Some(CaptureOf(s, m));
    assert CaptureOf(s, m) == s[c..|s|] == s[c..];
  }

  /** A match may as well take the whole white-space run after its keyword when a capturable character follows it. */
  lemma WholeRunMatches(s: string, m: RegexMatch)
    requires Matches(s, m)
    requires m.start + m.keyword + SpaceRun(s, m.start + m.keyword) < |s|
    requires !IsLineTerminator(s[m.start + m.keyword + SpaceRun(s, m.start + m.keyword)])
    ensures Matches(s, RegexMatch(m.start, m.keyword, SpaceRun(s, m.start + m.keyword)))
  {
    SpacesWithinRun(s, m);
  }

  /** When text follows the white space after the keyword, the leftmost match takes all of that white space. */
  lemma MatchTakesWholeRun(s: string)
    requires NoLineTerminators(s)
    requires FirstMatch(s, 0).Some?
    ensures var m := FirstMatch(s, 0).value;
            var q := m.start + m.keyword;
            q + SpaceRun(s, q) < |s| ==> m.spaces == SpaceRun(s, q)
  {
    var m := FirstMatch(s, 0).value;
    var q := m.start + m.keyword;
    var w := SpaceRun(s, q);
    SpacesWithinRun(s, m);
    if q + w < |s| {
      var m' := RegexMatch(m.start, m.keyword, w);
      WholeRunMatches(s, m);
      assert m'.spaces <= m.spaces;
    }
  }

  /** When the white space after the keyword runs to the end, `\s+` gives back one character for the capture. */
  lemma MatchGivesBackLast(s: string)
    requires NoLineTerminators(s)
    requires FirstMatch(s, 0).Some?
    ensures var m := FirstMatch(s, 0).value;
            var q := m.start + m.keyword;
            q + SpaceRun(s, q) == |s| ==> CaptureStart(m) == |s| - 1
  {
    var m := FirstMatch(s, 0).value;
    var q := m.start + m.keyword;
    var w := SpaceRun(s, q);
    SpacesWithinRun(s, m);
    if q + w == |s| {
      assert m.spaces < w;
      assert Matches(s, RegexMatch(m.start, m.keyword, w - 1));
    }
  }

  /**
   * On a single-line prompt the query is everything after the leftmost keyword
   * and the white space that follows it; only when that white space runs to the
   * end of the text does `\s+` give back its last character to the capture.
   */
  lemma SingleLineCapture(s: string)
    requires NoLineTerminators(s)
    requires FirstMatch(s, 0).Some?
    ensures var m := FirstMatch(s, 0).value;
            var q := m.start + m.keyword;
            && SearchCapture(s) == Some(s[CaptureStart(m)..])
            && (q + SpaceRun(s, q) < |s| ==> m.spaces == SpaceRun(s, q))
            && (q + SpaceRun(s, q) == |s| ==> CaptureStart(m) == |s| - 1)
  {
    SingleLineCaptureIsSuffix(s);
    MatchTakesWholeRun(s);
    MatchGivesBackLast(s);
  }

  /** A capture exists only where the prompt mentions "search" or "find". */
  lemma CaptureNeedsKeyword(s: string)
    requires SearchCapture(s).Some?
    ensures Contains(s, "search") || Contains(s, "find")
  {
    var m := FirstMatch(s, 0).value;
    assert OccursAt(s, m.start, "search") || OccursAt(s, m.start, "find");
  }

  lemma SearchNotesMatch()
    ensures FirstMatch("search notes", 0) == Some(RegexMatch(0, 6, 1))
  {
    var s := "search notes";
    assert OccursAt(s, 0, "search");
    assert KeywordAt(s, 0) == 6;
    assert SpaceRun(s, 7) == 0;
    assert SpaceRun(s, 6) == 1;
    assert GreedySpaces(s, 6, 1) == 1;
    assert MatchAt(s, 0) == Some(RegexMatch(0, 6, 1));
  }

  lemma SearchNotesSingleLine()
    ensures NoLineTerminators("search notes")
    ensures "search notes"[7..] == "notes"
  {
  }

  lemma SearchNotesCapture()
    ensures SearchCapture("search notes") == Some("search notes"[7..])
  {
    SearchNotesMatch();
    SearchNotesSingleLine();
    SingleLineCaptureIsSuffix("search notes");
  }

  /** "search" followed by white space and text yields that text as the query. */
  lemma SearchNotes()
    ensures SearchQuery("search notes") == "notes"
  {
    SearchNotesCapture();
    SearchNotesSingleLine();
  }

  /** A trailing keyword with nothing after it falls back to the default query. */
  lemma TrailingKeywordFallsBack()
    ensures SearchQuery("find") == FallbackQuery
  {
    var s := "find";
    assert KeywordAt(s, 0) == 4 && SpaceRun(s, 4) == 0;
    assert MatchAt(s, 0) == None;
    assert KeywordAt(s, 1) == 0 && KeywordAt(s, 2) == 0 && KeywordAt(s, 3) == 0;
    assert FirstMatch(s, 1) == None;
  }
}
