/** The web page form of the report in the Streamlit front end
    (`format_ai_response`): the typo "귷거" is corrected to "근거", then every
    line of the text becomes a section-title div (lines starting "1." to "6."),
    a content div (other non-blank lines) or nothing (blank lines), inside a
    fixed style block and container. The page is built as one string. */
module HtmlReport {
  import opened Text
  import opened Report

  /** The typo the formatter corrects, and its correction. */
  const Typo: string := "귷거"
  const Correction: string := "근거"

  /** The style block and the opening of the report container. */
  const StyleBlock: string :=
    "\n    <style>\n        .report-container {\n            font-family: 'Arial', sans-serif;\n"
    + "            line-height: 1.6;\n        }\n        .report-section-title {\n"
    + "            font-weight: bold;\n            margin-bottom: 5px;\n        }\n"
    + "        .report-section-content {\n            margin-bottom: 20px;  # 여백을 추가하여 줄바꿈 효과 부여\n"
    + "        }\n    </style>\n    <div class=\"report-container\">\n    "
  /** The report's own title line. */
  const ReportTitle: string :=
    "<div class=\"report-section-title bold\"><span class=\"bold\">개인 맞춤 진로 추천 보고서</span></div>"
  const Br: string := "<br>"
  const TitleOpen: string := "<div class=\"report-section-title\">"
  const ContentOpen: string := "<div class=\"report-section-content\">"
  const DivClose: string := "</div>"

  /** Everything the page holds before the first line of the report. */
  const Frame: string := StyleBlock + ReportTitle + Br

  /** The formatter's section titles: "1." to "6.". */
  const HtmlPrefixes: seq<string> := SectionPrefixes(6)

  /** `response.replace("귷거", "근거")`: the "귷" of every "귷거" becomes "근"
      and every other character stays where it was; afterwards the typo occurs
      nowhere, and a text without it is left as it is. */
  function FixTypo(s: string): (r: string)
    ensures |r| == |s|
    ensures forall i :: 0 <= i < |s| ==> r[i] == CorrectedAt(s, i)
    ensures !HasPair(r, '귷', '거')
    ensures !HasPair(s, '귷', '거') ==> r == s
  {
    FixTypoPointwise(s);
    FixTypoRemovesTypo(s);
    FixTypoKeepsClean(s);
    Replace(s, Typo, Correction)
  }

  /** The first character after the replacement is the first character before
      it, or the start of the correction where the typo stood. */
  lemma {:induction false} FixTypoHead(s: string)
    requires |s| > 0
    ensures var r := Replace(s, Typo, Correction);
      |r| > 0 && (r[0] == s[0] || (s[0] == '귷' && r[0] == '근'))
  {
  }

  /** The character the correction leaves at position `i` of `s`: "근" for
      the first half of a "귷거", the character itself everywhere else. */
  function CorrectedAt(s: string, i: nat): char
    requires i < |s|
  {
    if s[i] == '귷' && i + 1 < |s| && s[i + 1] == '거' then '근' else s[i]
  }

  lemma {:induction false} FixTypoPointwise(s: string)
    ensures var r := Replace(s, Typo, Correction);
      && |r| == |s|
      && forall i :: 0 <= i < |s| ==> r[i] == CorrectedAt(s, i)
    decreases |s|
  {
    var r := Replace(s, Typo, Correction);
    if |s| < 2 {
    } else if s[..2] == Typo {
      var rest := Replace(s[2..], Typo, Correction);
      FixTypoPointwise(s[2..]);
      assert r == Correction + rest;
      assert s[0] == '귷' && s[1] == '거' by {
        assert s[..2][0] == s[0] && s[..2][1] == s[1];
      }
      assert r[0] == '근' && r[1] == '거' && |r| == 2 + |rest|;
      forall i | 2 <= i < |s| ensures r[i] == CorrectedAt(s, i) {
        var t := s[2..];
        var j := i - 2;
        assert r[i] == rest[j] == CorrectedAt(t, j);
        assert t[j] == s[i];
        if j + 1 < |t| {
          assert t[j + 1] == s[i + 1];
        }
      }
    } else {
      var rest := Replace(s[1..], Typo, Correction);
      FixTypoPointwise(s[1..]);
      assert r == [s[0]] + rest;
      assert !(s[0] == '귷' && s[1] == '거') by {
        assert s[..2] == [s[0], s[1]];
      }
      forall i | 1 <= i < |s| ensures r[i] == CorrectedAt(s, i) {
        var t := s[1..];
        var j := i - 1;
        assert r[i] == rest[j] == CorrectedAt(t, j);
        assert t[j] == s[i];
        if j + 1 < |t| {
          assert t[j + 1] == s[i + 1];
        }
      }
    }
  }

  lemma {:induction false} FixTypoRemovesTypo(s: string)
    ensures !HasPair(Replace(s, Typo, Correction), '귷', '거')
    decreases |s|
  {
    var r := Replace(s, Typo, Correction);
    if |s| < 2 {
    } else if s[..2] == Typo {
      var rest := Replace(s[2..], Typo, Correction);
      FixTypoRemovesTypo(s[2..]);
      assert r == Correction + rest;
      forall i | 0 <= i < |r| - 1 ensures !(r[i] == '귷' && r[i + 1] == '거') {
        if i >= 2 { assert r[i] == rest[i - 2] && r[i + 1] == rest[i - 1]; }
      }
    } else {
      var rest := Replace(s[1..], Typo, Correction);
      FixTypoRemovesTypo(s[1..]);
      assert r == [s[0]] + rest;
      FixTypoHead(s[1..]);
      forall i | 0 <= i < |r| - 1 ensures !(r[i] == '귷' && r[i + 1] == '거') {
        if i >= 1 {
          assert r[i] == rest[i - 1] && r[i + 1] == rest[i];
        } else if s[0] == '귷' {
          assert s[..2] == [s[0], s[1]];
          assert r[1] == rest[0];
        }
      }
    }
  }

  lemma {:induction false} FixTypoKeepsClean(s: string)
    ensures !HasPair(s, '귷', '거') ==> Replace(s, Typo, Correction) == s
    decreases |s|
  {
    if |s| >= 2 && !HasPair(s, '귷', '거') {
      assert s[..2] != Typo by {
        assert s[..2] == [s[0], s[1]];
      }
      forall i | 0 <= i < |s| - 2 ensures !(s[1..][i] == '귷' && s[1..][i + 1] == '거') {
        assert s[1..][i] == s[i + 1] && s[1..][i + 1] == s[i + 2];
      }
      FixTypoKeepsClean(s[1..]);
      assert [s[0]] + s[1..] == s;
    }
  }

  /** The HTML one line of the report produces; `i` is its position among all lines. */
  function LineHtml(i: nat, line: string): string {
    if IsSectionTitle(line, HtmlPrefixes) then
      (if i != 0 then Br else "") + TitleOpen + line + DivClose + Br
    else if !IsBlank(line) then
      ContentOpen + line + DivClose + Br
    else ""
  }

  /** What a line contributes: nothing exactly when it is blank and not a
      title; a title div, after an extra break unless it is the first line;
      otherwise a content div holding the line as it is. */
  lemma LineHtmlShape(i: nat, line: string)
    ensures LineHtml(i, line) == [] <==> !IsSectionTitle(line, HtmlPrefixes) && IsBlank(line)
    ensures IsSectionTitle(line, HtmlPrefixes) && i != 0 ==> Br + TitleOpen + line <= LineHtml(i, line)
    ensures IsSectionTitle(line, HtmlPrefixes) && i == 0 ==> TitleOpen + line <= LineHtml(i, line)
    ensures !IsSectionTitle(line, HtmlPrefixes) && !IsBlank(line) ==> ContentOpen + line <= LineHtml(i, line)
  {
  }

  /** The pieces `f(0, lines[0])`, `f(1, lines[1])`, … one after the other. */
  function ConcatIndexed(lines: seq<string>, f: (nat, string) -> string): string {
    if lines == [] then ""
    else ConcatIndexed(lines[..|lines| - 1], f) + f(|lines| - 1, lines[|lines| - 1])
  }

  /** The HTML of all lines, each line's after the one before it. */
  function LinesHtml(lines: seq<string>): string {
    ConcatIndexed(lines, LineHtml)
  }

  /** The page for a generated report: the frame, the lines of the corrected
      text, and the closing of the container. */
  function FormattedReport(response: string): (page: string)
    ensures Frame <= page
    ensures |page| >= |Frame| + |DivClose| && page[|page| - |DivClose|..] == DivClose
  {
    var page := Frame + LinesHtml(Split(FixTypo(response), '\n')) + DivClose;
    assert page[|page| - |DivClose|..] == DivClose;
    page
  }

  /** `format_ai_response`: builds the page by appending to a string. */
  method FormatAiResponse(response: string) returns (html: string)
    ensures html == FormattedReport(response)
  {
    var fixed := FixTypo(response);
    html := StyleBlock;
    html := html + ReportTitle;
    html := html + Br;
    var lines := Split(fixed, '\n');
    for i := 0 to |lines|
      invariant html == Frame + LinesHtml(lines[..i])
    {
      ghost var done := LinesHtml(lines[..i]);
      html := AppendLine(html, i, lines[i]);
      LinesHtmlStep(lines, i);
      AppendAssociates(Frame, done, LineHtml(i, lines[i]));
    }
    assert lines[..|lines|] == lines;
    html := html + DivClose;
  }

  lemma LinesHtmlStep(lines: seq<string>, i: nat)
    requires i < |lines|
    ensures LinesHtml(lines[..i + 1]) == LinesHtml(lines[..i]) + LineHtml(i, lines[i])
  {
    assert lines[..i + 1][..i] == lines[..i];
  }

  /** Regrouping the page as the loop extends it; stated on its own so that the
      loop's proof does not have to unfold the strings involved. */
  lemma AppendAssociates(a: string, b: string, c: string)
    ensures (a + b) + c == a + (b + c)
  {
  }

  /** One turn of the formatter's loop: `base_html += …` for line `i`. */
  method AppendLine(html: string, i: nat, line: string) returns (result: string)
    ensures result == html + LineHtml(i, line)
  {
    result := html;
    if IsSectionTitle(line, HtmlPrefixes) {
      if i != 0 {
        result := result + Br;
      }
      result := result + TitleOpen + line + DivClose;
      result := result + Br;
      assert result == html + ((if i != 0 then Br else "") + TitleOpen + line + DivClose + Br);
    } else if !IsBlank(line) {
      result := result + ContentOpen + line + DivClose;
      result := result + Br;
      assert result == html + (ContentOpen + line + DivClose + Br);
    }
  }

  /** Lines keep their order: the pieces of the first `k` lines are the
      beginning of the pieces of all of them. */
  lemma {:induction false} ConcatIndexedPrefix(lines: seq<string>, f: (nat, string) -> string, k: nat)
    requires k <= |lines|
    ensures ConcatIndexed(lines[..k], f) <= ConcatIndexed(lines, f)
    decreases |lines|
  {
    if k < |lines| {
      var n := |lines| - 1;
      assert lines[..n][..k] == lines[..k];
      ConcatIndexedPrefix(lines[..n], f, k);
      PrefixExtends(ConcatIndexed(lines[..k], f), ConcatIndexed(lines[..n], f), f(n, lines[n]));
    } else {
      assert lines[..k] == lines;
    }
  }

  /** On the page, the HTML of the first `k` lines comes before that of the rest. */
  lemma LinesHtmlPrefix(lines: seq<string>, k: nat)
    requires k <= |lines|
    ensures LinesHtml(lines[..k]) <= LinesHtml(lines)
  {
    ConcatIndexedPrefix(lines, LineHtml, k);
  }

  lemma PrefixExtends(a: string, b: string, c: string)
    requires a <= b
    ensures a <= b + c
  {
    assert (b + c)[..|a|] == b[..|a|];
  }

  /** No line that reaches the page holds the typo. */
  lemma FormattedLinesHaveNoTypo(response: string)
    ensures var lines := Split(FixTypo(response), '\n');
      forall i :: 0 <= i < |lines| ==> !HasPair(lines[i], '귷', '거')
  {
    SplitKeepsNoPair(FixTypo(response), '\n', '귷', '거');
  }

  /** A reply that is empty or only whitespace gives the bare frame: every line
      is blank, so none produces output. */
  lemma BlankResponseGivesEmptyReport(response: string)
    requires IsBlank(response)
    ensures FormattedReport(response) == Frame + DivClose
  {
    assert !HasPair(response, '귷', '거') by {
      forall k | 0 <= k < |response| ensures response[k] != '귷' {
        assert IsSpace(response[k]);
      }
    }
    var lines := Split(response, '\n');
    forall i | 0 <= i < |lines| ensures LineHtml(i, lines[i]) == [] {
      forall j | 0 <= j < |lines[i]| ensures IsSpace(lines[i][j]) {
        SplitPiecesFromString(response, '\n', i, j);
        var k :| 0 <= k < |response| && response[k] == lines[i][j];
        assert IsSpace(response[k]);
      }
      BlankLineIsSilent(i, lines[i]);
    }
    SilentLines(lines, LineHtml);
    assert FixTypo(response) == response;
    assert FormattedReport(response) == Frame + LinesHtml(lines) + DivClose;
    assert LinesHtml(lines) == [];
    assert Frame + LinesHtml(lines) == Frame;
  }

  /** A blank line is never a title, so it adds nothing to the page. */
  lemma BlankLineIsSilent(i: nat, line: string)
    requires IsBlank(line)
    ensures LineHtml(i, line) == []
  {
    SectionTitleIsDigitDot(line, 6);
    LineHtmlShape(i, line);
  }

  lemma {:induction false} SilentLines(lines: seq<string>, f: (nat, string) -> string)
    requires forall i :: 0 <= i < |lines| ==> f(i, lines[i]) == []
    ensures ConcatIndexed(lines, f) == []
  {
    if lines != [] {
      SilentLines(lines[..|lines| - 1], f);
    }
  }

  /** The page and the Streamlit PDF disagree on exactly one kind of line: one
      starting "6." is a section title on the page and body text in the PDF. */
  lemma PageAndPdfTitles(line: string)
    ensures IsSectionTitle(line, HtmlPrefixes)
        <==> IsSectionTitle(line, StreamlitPdfPrefixes) || "6." <= line
    ensures "6." <= line ==> IsSectionTitle(line, HtmlPrefixes) && Classify(line, StreamlitPdfPrefixes) == Body(line)
  {
    SectionTitleIsDigitDot(line, 6);
    SectionTitleIsDigitDot(line, 5);
  }
}
