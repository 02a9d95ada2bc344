/** The downloadable report: `create_downloadable_pdf` splits the generated
    text on newlines and hands every line to the PDF object, as a chapter title
    when it starts with a numbered section prefix and as chapter body text
    otherwise. The PDF object is modelled by the sequence of blocks it has been
    given; fonts, layout, the file and its base64 encoding are not modelled. */
module Report {
  import opened Text

  /** What one `chapter_title` or `chapter_body` call puts into the document. */
  datatype Block = Heading(text: string) | Body(text: string)

  /** The section prefixes "1.", "2.", …, up to `n` of them. */
  function SectionPrefixes(n: nat): (ps: seq<string>)
    requires n <= 9
    ensures |ps| == n
    ensures forall i :: 0 <= i < n ==> |ps[i]| == 2 && ps[i][0] == (('1' as int) + i) as char && ps[i][1] == '.'
  {
    seq(n, i requires 0 <= i < n => [(('1' as int) + i) as char, '.'])
  }

  /** app.py recognises "1." to "7." in its PDF. */
  const FlaskPdfPrefixes: seq<string> := SectionPrefixes(7)
  /** app10.py recognises "1." to "5." in its PDF. */
  const StreamlitPdfPrefixes: seq<string> := SectionPrefixes(5)

  /** `line.startswith(p1) or line.startswith(p2) or …` */
  predicate IsSectionTitle(line: string, prefixes: seq<string>) {
    exists p :: p in prefixes && p <= line
  }

  /** The or-chain of prefixes is the same test as "a digit from 1 to n, then a dot";
      in particular an empty line is never a title. */
  lemma {:induction false} SectionTitleIsDigitDot(line: string, n: nat)
    requires 1 <= n <= 9
    ensures IsSectionTitle(line, SectionPrefixes(n))
        <==> |line| >= 2 && '1' <= line[0] && (line[0] as int) < ('1' as int) + n && line[1] == '.'
  {
    var ps := SectionPrefixes(n);
    if |line| >= 2 && '1' <= line[0] && (line[0] as int) < ('1' as int) + n && line[1] == '.' {
      var k := (line[0] as int) - ('1' as int);
      assert ps[k] == [line[0], '.'];
      assert ps[k] in ps && ps[k] <= line;
    }
    if IsSectionTitle(line, ps) {
      var p :| p in ps && p <= line;
      var k :| 0 <= k < n && ps[k] == p;
      assert p == [(('1' as int) + k) as char, '.'];
      assert |line| >= 2;
      assert line[0] == p[0] && line[1] == p[1];
      assert (line[0] as int) == ('1' as int) + k;
    }
  }

  /** The block one line of the report becomes. */
  function Classify(line: string, prefixes: seq<string>): (b: Block)
    ensures b.text == line
    ensures b.Heading? <==> IsSectionTitle(line, prefixes)
  {
    if IsSectionTitle(line, prefixes) then Heading(line) else Body(line)
  }

  /** The blocks for a list of lines: one block per line, in order. */
  function Segment(lines: seq<string>, prefixes: seq<string>): (bs: seq<Block>)
    ensures |bs| == |lines|
    ensures forall i :: 0 <= i < |lines| ==> bs[i] == Classify(lines[i], prefixes)
  {
    if lines == [] then [] else Segment(lines[..|lines| - 1], prefixes) + [Classify(lines[|lines| - 1], prefixes)]
  }

  /** The texts of a block sequence. */
  function Texts(bs: seq<Block>): (ts: seq<string>)
    ensures |ts| == |bs| && forall i :: 0 <= i < |bs| ==> ts[i] == bs[i].text
  {
    seq(|bs|, i requires 0 <= i < |bs| => bs[i].text)
  }

  /** The document for a report text: the blocks of its newline-separated lines. */
  function ReportBlocks(text: string, prefixes: seq<string>): seq<Block> {
    Segment(Split(text, '\n'), prefixes)
  }

  /** Nothing of the report text is lost or reordered: the block texts, joined
      with newlines, give back the text. */
  lemma ReportBlocksRoundTrip(text: string, prefixes: seq<string>)
    ensures Join(Texts(ReportBlocks(text, prefixes)), '\n') == text
  {
    assert Texts(ReportBlocks(text, prefixes)) == Split(text, '\n');
    JoinSplit(text, '\n');
  }

  /** A report written as lines without newlines gives exactly one block per
      line, titled exactly when the line starts with a section prefix. */
  lemma ReportBlocksOfLines(lines: seq<string>, prefixes: seq<string>)
    requires |lines| >= 1
    requires forall i :: 0 <= i < |lines| ==> '\n' !in lines[i]
    ensures var bs := ReportBlocks(Join(lines, '\n'), prefixes);
      && |bs| == |lines|
      && forall i :: 0 <= i < |lines| ==> bs[i].text == lines[i] && (bs[i].Heading? <==> IsSectionTitle(lines[i], prefixes))
  {
    SplitJoin(lines, '\n');
  }

  /** An example: two titles with a body line between them. */
  lemma SegmentExample()
    ensures Segment(["1. Foo", "some body text", "2. Bar"], FlaskPdfPrefixes)
         == [Heading("1. Foo"), Body("some body text"), Heading("2. Bar")]
  {
    SectionTitleIsDigitDot("1. Foo", 7);
    SectionTitleIsDigitDot("some body text", 7);
    SectionTitleIsDigitDot("2. Bar", 7);
  }

  /** The PDF object: the blocks written so far. */
  class Pdf {
    var blocks: seq<Block>

    constructor ()
      ensures blocks == []
    {
      blocks := [];
    }

    /** `chapter_title`: a bold line for a section title. */
    method ChapterTitle(title: string)
      modifies this
      ensures blocks == old(blocks) + [Heading(title)]
    {
      blocks := blocks + [Heading(title)];
    }

    /** `chapter_body`: a paragraph of body text. */
    method ChapterBody(body: string)
      modifies this
      ensures blocks == old(blocks) + [Body(body)]
    {
      blocks := blocks + [Body(body)];
    }
  }

  /** `create_downloadable_pdf`: the blocks of the document it writes, one per
      line of the text, in order, titled by the given prefixes. */
  method CreateDownloadablePdf(textContent: string, prefixes: seq<string>) returns (blocks: seq<Block>)
    ensures |blocks| == |Split(textContent, '\n')|
    ensures blocks == ReportBlocks(textContent, prefixes)
  {
    var pdf := new Pdf();
    var lines := Split(textContent, '\n');
    for i := 0 to |lines|
      invariant pdf.blocks == Segment(lines[..i], prefixes)
    {
      var line := lines[i];
      if IsSectionTitle(line, prefixes) {
        pdf.ChapterTitle(line);
      } else {
        pdf.ChapterBody(line);
      }
      assert lines[..i + 1][..i] == lines[..i];
    }
    assert lines[..|lines|] == lines;
    blocks := pdf.blocks;
  }
}
