/** The slice of the python-docx object model the pipeline touches: runs with
    their character formatting, paragraphs with alignment and direction, and a
    paragraph object whose runs are rewritten in place. Fonts, sizes and colours
    are opaque values; the binary container format is not modelled. */
module Docx {
  import opened Wrappers
  import opened Strings

  /** An RGB colour, as `RGBColor(r, g, b)`. */
  datatype Rgb = Rgb(red: int, green: int, blue: int)

  /** A run. The tri-state toggles and the font fields are `None` when the run
      inherits them from its style, as in python-docx; `size` is in points. */
  datatype Run = Run(
    text: string,
    bold: Option<bool>,
    italic: Option<bool>,
    underline: Option<bool>,
    font: Option<string>,
    size: Option<int>,
    color: Option<Rgb>)

  /** A paragraph: its runs, its alignment (`WD_ALIGN_PARAGRAPH`: 0 left,
      1 centre, 2 right; `None` inherits) and its `bidi` flag. */
  datatype Paragraph = Paragraph(runs: seq<Run>, alignment: Option<int>, bidi: Option<bool>)

  const ALIGN_LEFT := 0
  const ALIGN_CENTER := 1
  const ALIGN_RIGHT := 2

  /** The run `add_run(text)` creates: the text and no direct formatting. */
  function PlainRun(text: string): (r: Run)
    ensures r.text == text && r.bold.None? && r.italic.None? && r.font.None?
  {
    Run(text, None, None, None, None, None, None)
  }

  /** The concatenated text of a list of runs. */
  function RunTexts(runs: seq<Run>): string {
    if runs == [] then [] else runs[0].text + RunTexts(runs[1..])
  }

  lemma RunTextsSingle(r: Run)
    ensures RunTexts([r]) == r.text
  {
    assert [r][1..] == [];
  }

  lemma RunTextsAppend(runs: seq<Run>, more: seq<Run>)
    ensures RunTexts(runs + more) == RunTexts(runs) + RunTexts(more)
  {
    if runs != [] {
      assert (runs + more)[1..] == runs[1..] + more;
      RunTextsAppend(runs[1..], more);
    } else {
      assert runs + more == more;
    }
  }

  /** `paragraph.text`: the concatenation of the paragraph's run texts. */
  function Text(p: Paragraph): string {
    RunTexts(p.runs)
  }

  /** A paragraph as `add_paragraph(text)` creates it: one plain run. */
  function TextParagraph(t: string): (p: Paragraph)
    ensures Text(p) == t
  {
    RunTextsSingle(PlainRun(t));
    Paragraph([PlainRun(t)], None, None)
  }

  /** A paragraph of an open document, which the passes rewrite in place. */
  class DocParagraph {
    var runs: seq<Run>
    var alignment: Option<int>
    var bidi: Option<bool>

    constructor (p: Paragraph)
      ensures Value() == p
    {
      runs, alignment, bidi := p.runs, p.alignment, p.bidi;
    }

    /** The paragraph's current state as a value. */
    function Value(): Paragraph
      reads this
    {
      Paragraph(runs, alignment, bidi)
    }

    function Text(): string
      reads this
    {
      RunTexts(runs)
    }

    /** `paragraph.clear()`: removes all runs, keeps the paragraph format. */
    method Clear()
      modifies this
      ensures runs == [] && alignment == old(alignment) && bidi == old(bidi)
    {
      runs := [];
    }

    /** `paragraph.add_run(text)`. */
    method AddRun(text: string)
      modifies this
      ensures runs == old(runs) + [PlainRun(text)]
      ensures alignment == old(alignment) && bidi == old(bidi)
    {
      runs := runs + [PlainRun(text)];
    }

    /** The `paragraph.text = t` setter: clear, then one run holding `t`. */
    method SetText(t: string)
      modifies this
      ensures runs == [PlainRun(t)] && Text() == t
      ensures alignment == old(alignment) && bidi == old(bidi)
    {
      Clear();
      AddRun(t);
      RunTextsSingle(PlainRun(t));
    }
  }

  /** The current states of the paragraphs `paras`. */
  ghost function Values(paras: seq<DocParagraph>): (vs: seq<Paragraph>)
    reads set p | p in paras
    ensures |vs| == |paras| && forall i :: 0 <= i < |paras| ==> vs[i] == paras[i].Value()
  {
    seq(|paras|, i requires 0 <= i < |paras| reads paras => paras[i].Value())
  }
}
