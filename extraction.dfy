/** `_extrair_sql_da_resposta` (old/TrabalhoFinal_v2.py): pick the SQL
    statement out of the free-form text a language model returned.

    The text is split into lines; each line is stripped; blank lines and
    code-fence lines are dropped.  The remaining lines are scanned from the
    last one backwards, and the scan stops at the FIRST line it meets that
    mentions "select" or "with" (case-insensitively, anywhere in the line).
    That line is returned whole when it starts with one of the two keywords;
    otherwise it is cut at the first "select", or, when it has none, at the
    first "with".

    `Extract` is the specification as a function of the text;
    `ExtractSqlFromResponse` is the code's two loops, proved equal to it. */
module SqlExtraction {
  import opened Wrappers
  import opened PyStr

  const Fence: string := "```"
  const Select: string := "select"
  const With: string := "with"

  /** A stripped line that survives cleaning: not blank, not a code fence. */
  predicate Kept(line: string) {
    line != [] && !StartsWith(line, Fence)
  }

  /** The line mentions one of the keywords, in any case, anywhere. */
  predicate Mentions(line: string) {
    Contains(Lower(line), Select) || Contains(Lower(line), With)
  }

  /** The line, lower-cased, begins with one of the keywords. */
  predicate KeywordPrefixed(line: string) {
    StartsWith(Lower(line), Select) || StartsWith(Lower(line), With)
  }

  /** `k` is the first index at which `p` occurs in `s`. */
  predicate FirstAt(s: string, k: int, p: string) {
    StartsAt(s, k, p) && forall j :: 0 <= j < k ==> !StartsAt(s, j, p)
  }

  /** A raw line of the response that the backward scan can stop at. */
  predicate Candidate(rawLine: string) {
    Kept(Strip(rawLine)) && Mentions(Strip(rawLine))
  }

  /** No raw line is a candidate. */
  predicate NoCandidate(raw: seq<string>) {
    forall k :: 0 <= k < |raw| ==> !Candidate(raw[k])
  }

  /** `raw[j]` is a candidate and no later raw line is one. */
  predicate IsLastCandidate(raw: seq<string>, j: int) {
    0 <= j < |raw| && Candidate(raw[j]) && forall k :: j < k < |raw| ==> !Candidate(raw[k])
  }

  /** `linhas_limpa`: the stripped raw lines that are kept, in order. */
  function CleanLines(raw: seq<string>): (clean: seq<string>)
    decreases |raw|
  {
    if raw == [] then []
    else
      var line := Strip(raw[|raw| - 1]);
      CleanLines(raw[..|raw| - 1]) + (if Kept(line) then [line] else [])
  }

  /** The statement taken from a line that mentions a keyword: the whole line
      when it starts with a keyword, otherwise its suffix from the first
      "select", or from the first "with" when there is no "select". */
  function Cut(line: string): (r: string)
    requires Mentions(line)
    ensures |r| <= |line| && r == line[|line| - |r|..]
    ensures r != [] && KeywordPrefixed(r)
    ensures KeywordPrefixed(line) ==> r == line
    ensures !KeywordPrefixed(line) && Contains(Lower(line), Select) ==>
              FirstAt(Lower(line), |line| - |r|, Select)
    ensures !KeywordPrefixed(line) && !Contains(Lower(line), Select) ==>
              FirstAt(Lower(line), |line| - |r|, With)
  {
    var lower := Lower(line);
    if StartsWith(lower, Select) || StartsWith(lower, With) then line
    else
      var found := Find(lower, Select);
      var idx := if found == -1 then Find(lower, With) else found;
      LowerSuffix(line, idx);
      assert StartsAt(lower, idx, Select) ==> Lower(line[idx..])[..|Select|] == lower[idx..idx + |Select|];
      assert StartsAt(lower, idx, With) ==> Lower(line[idx..])[..|With|] == lower[idx..idx + |With|];
      line[idx..]
  }

  /** The backward scan over the cleaned lines: the first line from the end
      that mentions a keyword decides the result. */
  function ScanBack(lines: seq<string>): (r: Option<string>)
    decreases |lines|
  {
    if lines == [] then None
    else
      var line := lines[|lines| - 1];
      if Mentions(line) then Some(Cut(line)) else ScanBack(lines[..|lines| - 1])
  }

  /** What `_extrair_sql_da_resposta(text)` returns. */
  function Extract(text: string): Option<string> {
    ScanBack(CleanLines(SplitLines(text)))
  }

  /** The function as the source writes it: one loop that appends the kept
      lines, one reversed loop that stops at the first line mentioning a
      keyword. */
  method ExtractSqlFromResponse(fullText: string) returns (sqlLine: Option<string>)
    ensures sqlLine == Extract(fullText)
  {
    var raw := SplitLines(fullText);
    var clean: seq<string> := [];
    for i := 0 to |raw|
      invariant clean == CleanLines(raw[..i])
    {
      CleanLinesStep(raw, i);
      var line := Strip(raw[i]);
      if line == [] {
        continue;
      }
      if StartsWith(line, Fence) {
        continue;
      }
      clean := clean + [line];
    }
    assert raw[..|raw|] == raw;

    sqlLine := None;
    var i := |clean|;
    assert clean[..i] == clean;
    while i > 0
      invariant 0 <= i <= |clean|
      invariant sqlLine == None
      invariant ScanBack(clean[..i]) == ScanBack(clean)
    {
      ScanBackStep(clean, i);
      var line := clean[i - 1];
      var lower := Lower(line);
      if StartsWith(lower, Select) || StartsWith(lower, With) {
        assert StartsAt(lower, 0, Select) || StartsAt(lower, 0, With);
        sqlLine := Some(line);
        break;
      }
      if Contains(lower, Select) || Contains(lower, With) {
        var idx := Find(lower, Select);
        if idx == -1 {
          idx := Find(lower, With);
        }
        sqlLine := Some(line[idx..]);
        break;
      }
      i := i - 1;
    }
  }

  // ------------------------------------------------------------- lemmas

  /** One turn of the cleaning loop. */
  lemma CleanLinesStep(raw: seq<string>, i: nat)
    requires i < |raw|
    ensures CleanLines(raw[..i + 1]) ==
            CleanLines(raw[..i]) + (if Kept(Strip(raw[i])) then [Strip(raw[i])] else [])
  {
    assert raw[..i + 1][..i] == raw[..i];
    assert raw[..i + 1][i] == raw[i];
  }

  /** One turn of the backward scan. */
  lemma ScanBackStep(lines: seq<string>, i: nat)
    requires 0 < i <= |lines|
    ensures ScanBack(lines[..i]) ==
            if Mentions(lines[i - 1]) then Some(Cut(lines[i - 1])) else ScanBack(lines[..i - 1])
  {
    assert lines[..i][..i - 1] == lines[..i - 1];
    assert lines[..i][i - 1] == lines[i - 1];
  }

  lemma ScanBackSnoc(lines: seq<string>, line: string)
    ensures ScanBack(lines + [line]) ==
            if Mentions(line) then Some(Cut(line)) else ScanBack(lines)
  {
    assert (lines + [line])[..|lines|] == lines;
  }

  /** One step of the scan, seen from the raw lines: the last raw line
      decides when it is a candidate, and is skipped otherwise. */
  lemma ScanSnocRaw(raw: seq<string>)
    requires raw != []
    ensures ScanBack(CleanLines(raw)) ==
            if Candidate(raw[|raw| - 1]) then Some(Cut(Strip(raw[|raw| - 1])))
            else ScanBack(CleanLines(raw[..|raw| - 1]))
  {
    var init, line := raw[..|raw| - 1], Strip(raw[|raw| - 1]);
    assert CleanLines(raw) == CleanLines(init) + (if Kept(line) then [line] else []);
    if Kept(line) {
      ScanBackSnoc(CleanLines(init), line);
      assert ScanBack(CleanLines(raw)) == if Mentions(line) then Some(Cut(line)) else ScanBack(CleanLines(init));
    } else {
      assert CleanLines(raw) == CleanLines(init);
    }
  }

  /** Nothing is found exactly when no kept line mentions a keyword. */
  lemma {:induction false} ScanNoneIff(raw: seq<string>)
    ensures ScanBack(CleanLines(raw)) == None <==> NoCandidate(raw)
    decreases |raw|
  {
    if raw != [] {
      var init, last := raw[..|raw| - 1], raw[|raw| - 1];
      ScanSnocRaw(raw);
      if Candidate(last) {
        assert Candidate(raw[|raw| - 1]);
      } else {
        ScanNoneIff(init);
        NoCandidateSnoc(raw);
      }
    }
  }

  lemma NoCandidateSnoc(raw: seq<string>)
    requires raw != [] && !Candidate(raw[|raw| - 1])
    ensures NoCandidate(raw) <==> NoCandidate(raw[..|raw| - 1])
  {
    var init := raw[..|raw| - 1];
    if NoCandidate(init) {
      forall k | 0 <= k < |raw| ensures !Candidate(raw[k]) {
        if k < |init| {
          assert raw[k] == init[k];
        }
      }
    }
  }

  /** The last candidate line decides the result, whatever comes before it. */
  lemma {:induction false} ScanPicksLastCandidate(raw: seq<string>, j: int)
    requires IsLastCandidate(raw, j)
    ensures ScanBack(CleanLines(raw)) == Some(Cut(Strip(raw[j])))
    decreases |raw|
  {
    var init := raw[..|raw| - 1];
    ScanSnocRaw(raw);
    if j < |raw| - 1 {
      assert IsLastCandidate(init, j) by {
        assert forall k :: 0 <= k < |init| ==> init[k] == raw[k];
      }
      ScanPicksLastCandidate(init, j);
    }
  }

  /** Whenever something is found, there is a last candidate line. */
  lemma {:induction false} ScanSomeHasLastCandidate(raw: seq<string>)
    ensures ScanBack(CleanLines(raw)).Some? ==> exists j :: IsLastCandidate(raw, j)
    decreases |raw|
  {
    if raw != [] {
      var init, last := raw[..|raw| - 1], raw[|raw| - 1];
      ScanSnocRaw(raw);
      if Candidate(last) {
        assert IsLastCandidate(raw, |raw| - 1);
      } else if ScanBack(CleanLines(init)).Some? {
        ScanSomeHasLastCandidate(init);
        var j :| IsLastCandidate(init, j);
        LastCandidateSnoc(raw, j);
      }
    }
  }

  /** Appending a line that is not a candidate keeps the last candidate. */
  lemma LastCandidateSnoc(raw: seq<string>, j: int)
    requires raw != [] && !Candidate(raw[|raw| - 1])
    requires IsLastCandidate(raw[..|raw| - 1], j)
    ensures IsLastCandidate(raw, j)
  {
    var init := raw[..|raw| - 1];
    assert raw[j] == init[j];
    forall k | j < k < |raw| ensures !Candidate(raw[k]) {
      if k < |init| {
        assert raw[k] == init[k];
      }
    }
  }

  /** Extraction returns None exactly when no line left after dropping
      blank and fence lines contains "select" or "with". */
  lemma ExtractNoneIff(text: string)
    ensures Extract(text) == None <==> NoCandidate(SplitLines(text))
  {
    ScanNoneIff(SplitLines(text));
  }

  /** The result comes from the last kept line that mentions a keyword,
      even when an earlier line starts with SELECT. */
  lemma ExtractFromLastCandidate(text: string, j: int)
    requires IsLastCandidate(SplitLines(text), j)
    ensures Extract(text) == Some(Cut(Strip(SplitLines(text)[j])))
  {
    ScanPicksLastCandidate(SplitLines(text), j);
  }

  /** Shape of any result: non-empty, on one line, a suffix of one kept
      (non-blank, non-fence) stripped input line, and starting with
      "select" or "with" in some case. */
  lemma ExtractShape(text: string)
    ensures Extract(text).Some? ==>
              var s := Extract(text).value;
              && s != []
              && NoLineBreak(s)
              && KeywordPrefixed(s)
              && exists j :: 0 <= j < |SplitLines(text)| && Kept(Strip(SplitLines(text)[j]))
                                && EndsWith(Strip(SplitLines(text)[j]), s)
  {
    var raw := SplitLines(text);
    if Extract(text).Some? {
      ScanSomeHasLastCandidate(raw);
      var j :| IsLastCandidate(raw, j);
      ScanPicksLastCandidate(raw, j);
      var line := Strip(raw[j]);
      var s := Cut(line);
      assert Extract(text).value == s;
      CutOfLineIsLine(raw[j]);
      assert EndsWith(line, s);
    }
  }

  /** The cut of a candidate raw line is a suffix of its stripped form and
      stays on one line. */
  lemma CutOfLineIsLine(rawLine: string)
    requires NoLineBreak(rawLine) && Candidate(rawLine)
    ensures NoLineBreak(Cut(Strip(rawLine)))
  {
    var line := Strip(rawLine);
    var s := Cut(line);
    StripNoLineBreak(rawLine);
    forall i | 0 <= i < |s| ensures !IsLineBreak(s[i]) {
      assert s[i] == line[|line| - |s| + i];
    }
  }

  /** Within the chosen line "select" beats an earlier "with": when the line
      does not start with a keyword but has a "select", the result starts
      with "select", wherever "with" occurs. */
  lemma SelectPreferredOverEarlierWith(line: string, k: int)
    requires !KeywordPrefixed(line)
    requires StartsAt(Lower(line), k, Select)
    ensures Mentions(line)
    ensures StartsWith(Lower(Cut(line)), Select)
    ensures |line| - |Cut(line)| <= k
  {
    var lower := Lower(line);
    assert Contains(lower, Select);
    var r := Cut(line);
    var idx := |line| - |r|;
    LowerSuffix(line, idx);
    assert Lower(r)[..|Select|] == lower[idx..idx + |Select|];
  }

  /** A later line that merely contains "with" (here inside "without")
      shadows an earlier line that starts with SELECT. */
  lemma LaterWithoutShadowsEarlierSelect()
    ensures ScanBack(["SELECT nome FROM hotel", "without filter"]) == Some("without filter")
  {
    var a, b := "SELECT nome FROM hotel", "without filter";
    assert Lower(b)[..4] == With;
    assert StartsAt(Lower(b), 0, With);
    ScanBackSnoc([a], b);
  }

  /** An explanation followed by a fenced statement: the fences are dropped
      and the statement line is returned as written. */
  lemma FencedAnswer()
    ensures ScanBack(CleanLines(["Explanation...", "```", "SELECT nome FROM hotel", "```"]))
            == Some("SELECT nome FROM hotel")
  {
    var raw := ["Explanation...", "```", "SELECT nome FROM hotel", "```"];
    StatementLine();
    assert LeadingSpace(Fence) == 0 && TrailingSpace(Fence) == 0;
    assert Strip(Fence) == Fence;
    FenceLine(Fence);
    assert raw[2] == "SELECT nome FROM hotel" && raw[3] == Fence;
    assert IsLastCandidate(raw, 2);
    ScanPicksLastCandidate(raw, 2);
  }

  /** The answer of a model that explains and then fences its statement:
      an explanation line, a fence, the statement and a fence. The
      parentheses only give the text the right-nested shape that
      `FencedLines` splits; they say nothing about how a model builds it. */
  function FencedReply(): string {
    "Explanation..." + "\n" + ("```" + "\n" + ("SELECT nome FROM hotel" + "\n" + "```"))
  }

  /** The same answer as the model sends it, one text with `\n` between
      the lines, from the text to the statement. */
  lemma FencedResponse()
    ensures Extract(FencedReply()) == Some("SELECT nome FROM hotel")
  {
    ResponseLines();
    FencedAnswer();
  }

  /** `splitlines()` of the answer gives its four lines. */
  lemma ResponseLines()
    ensures SplitLines(FencedReply()) == ["Explanation...", "```", "SELECT nome FROM hotel", "```"]
  {
    LiteralLinesUnbroken();
    FencedLines("Explanation...", "SELECT nome FROM hotel");
  }

  /** Any one-line explanation followed by a one-line statement between
      fences splits into those four lines. */
  lemma FencedLines(explanation: string, statement: string)
    requires NoLineBreak(explanation) && NoLineBreak(statement)
    ensures SplitLines(explanation + "\n" + (Fence + "\n" + (statement + "\n" + Fence)))
            == [explanation, Fence, statement, Fence]
  {
    FenceThenStatement(statement);
    SplitLinesCons(explanation, Fence + "\n" + (statement + "\n" + Fence));
  }

  lemma FenceThenStatement(statement: string)
    requires NoLineBreak(statement)
    ensures SplitLines(Fence + "\n" + (statement + "\n" + Fence)) == [Fence, statement, Fence]
  {
    StatementThenFence(statement);
    FenceUnbroken();
    SplitLinesCons(Fence, statement + "\n" + Fence);
  }

  lemma StatementThenFence(statement: string)
    requires NoLineBreak(statement)
    ensures SplitLines(statement + "\n" + Fence) == [statement, Fence]
  {
    FenceUnbroken();
    SplitLinesSingle(Fence);
    SplitLinesCons(statement, Fence);
  }

  lemma FenceUnbroken()
    ensures NoLineBreak(Fence)
  {
  }

  lemma LiteralLinesUnbroken()
    ensures NoLineBreak("Explanation...") && NoLineBreak("SELECT nome FROM hotel")
  {
  }

  lemma StatementLine()
    ensures Strip("SELECT nome FROM hotel") == "SELECT nome FROM hotel"
    ensures Candidate("SELECT nome FROM hotel")
    ensures Cut("SELECT nome FROM hotel") == "SELECT nome FROM hotel"
  {
    var line := "SELECT nome FROM hotel";
    assert LeadingSpace(line) == 0 && TrailingSpace(line) == 0;
    assert Lower(line)[..6] == Select;
    assert StartsAt(Lower(line), 0, Select);
  }

  /** A fence line, bare or with a language tag such as "```sql", is
      dropped whatever follows the backticks. */
  lemma FenceLine(raw: string)
    requires StartsWith(Strip(raw), Fence)
    ensures !Candidate(raw)
  {
  }
}
