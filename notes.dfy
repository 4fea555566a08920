/** The two rewriting passes over a woven document in `2_final_output.py`:
    inserting a notes paragraph after every verse paragraph, and re-applying
    per-run fonts by script. Both read every paragraph of the old document
    and write a new one, so they are modelled as functions from the old
    paragraph list to the new one. */
module Notes {
  import opened Wrappers
  import opened Strings
  import opened Docx
  import Weave
  import VerseMarker

  // ---------------------------------------------------------------------
  // add_notes_to_verses
  // ---------------------------------------------------------------------

  /** The colour of the notes text, RGB(211, 211, 211). */
  const NOTES_GREY := Rgb(211, 211, 211)

  /** The paragraph's text holds "Chapter". */
  predicate HasChapter(p: Docx.Paragraph) {
    Contains(Text(p), "Chapter")
  }

  /** The index of the first paragraph whose text holds "Chapter". */
  function FirstChapter(paras: seq<Docx.Paragraph>, i: nat): (r: Option<nat>)
    requires i <= |paras|
    ensures r.Some? ==>
      i <= r.value < |paras| && HasChapter(paras[r.value]) && forall j :: i <= j < r.value ==> !HasChapter(paras[j])
    ensures r.None? ==> forall j :: i <= j < |paras| ==> !HasChapter(paras[j])
    decreases |paras| - i
  {
    if i == |paras| then None
    else if HasChapter(paras[i]) then Some(i)
    else FirstChapter(paras, i + 1)
  }

  /** The header: the first paragraph whose text holds "Chapter", stripped. */
  function HeaderText(paras: seq<Docx.Paragraph>): Option<string> {
    match FirstChapter(paras, 0)
    case Some(i) => Some(Strip(Text(paras[i])))
    case None => None
  }

  /** The longest prefix of `s` made of decimal digits. */
  function DigitPrefix(s: string): (r: string)
    ensures StartsWith(s, r)
    ensures forall k :: 0 <= k < |r| ==> IsDigit(r[k])
    ensures |r| < |s| ==> !IsDigit(s[|r|])
  {
    if s != [] && IsDigit(s[0]) then [s[0]] + DigitPrefix(s[1..]) else []
  }

  /** `re.match(r"Verse (\d+)", text).group(1)`: the digits right after a
      leading "Verse ", as many as there are. */
  function VerseNumber(text: string): (r: Option<string>)
    ensures r.Some? ==> r.value != [] && forall k :: 0 <= k < |r.value| ==> IsDigit(r.value[k])
  {
    if StartsWith(text, "Verse ") && |text| > 6 && IsDigit(text[6]) then Some(DigitPrefix(text[6..]))
    else None
  }

  /** The match succeeds exactly on "Verse " and a digit, and takes every
      digit that follows. */
  lemma VerseNumberMatch(text: string)
    ensures VerseNumber(text).Some? <==> StartsWith(text, "Verse ") && |text| > 6 && IsDigit(text[6])
    ensures VerseNumber(text).Some? ==> var n := VerseNumber(text).value;
      && StartsWith(text, "Verse " + n)
      && (|n| + 6 == |text| || !IsDigit(text[|n| + 6]))
  {
    if VerseNumber(text).Some? {
      var n := VerseNumber(text).value;
      assert text[..6 + |n|] == text[..6] + n;
    }
  }

  /** The text of the notes paragraph for verse `n` under `header`. */
  function NotesText(header: string, n: string): string {
    "[notes]( " + header + " Verse " + n + " )[end_notes]"
  }

  /** The notes paragraph: left aligned, one italic light-grey run. */
  function NotesParagraph(header: string, n: string): (p: Docx.Paragraph)
    ensures Text(p) == NotesText(header, n) && p.alignment == Some(ALIGN_LEFT)
    ensures |p.runs| == 1 && p.runs[0].italic == Some(true) && p.runs[0].color == Some(NOTES_GREY)
  {
    var run := PlainRun(NotesText(header, n)).(italic := Some(true), color := Some(NOTES_GREY));
    RunTextsSingle(run);
    Docx.Paragraph([run], Some(ALIGN_LEFT), None)
  }

  /** A paragraph as the new document receives it: its alignment and its runs
      with their text, toggles, font, size and colour; not its direction. */
  function CopyParagraph(p: Docx.Paragraph): (c: Docx.Paragraph)
    ensures Text(c) == Text(p) && c.alignment == p.alignment && c.bidi.None?
  {
    Docx.Paragraph(p.runs, p.alignment, None)
  }

  /** The verse number of a paragraph: that of its stripped text. */
  function ParagraphVerse(p: Docx.Paragraph): Option<string> {
    VerseNumber(Strip(Text(p)))
  }

  /** What one input paragraph becomes: its copy, then its notes paragraph
      when its stripped text starts with "Verse " and a number. */
  function Annotated(p: Docx.Paragraph, header: string): (out: seq<Docx.Paragraph>)
    ensures 1 <= |out| <= 2 && out[0] == CopyParagraph(p)
    ensures |out| == 2 <==> ParagraphVerse(p).Some?
    ensures |out| == 2 ==> out[1] == NotesParagraph(header, ParagraphVerse(p).value)
  {
    match ParagraphVerse(p)
    case Some(n) => [CopyParagraph(p), NotesParagraph(header, n)]
    case None => [CopyParagraph(p)]
  }

  /** The paragraphs each of `paras` becomes under `f`, in order. */
  function FlatMap(paras: seq<Docx.Paragraph>, f: Docx.Paragraph -> seq<Docx.Paragraph>): seq<Docx.Paragraph> {
    if paras == [] then [] else FlatMap(paras[..|paras| - 1], f) + f(paras[|paras| - 1])
  }

  lemma {:induction false} FlatMapAppend(a: seq<Docx.Paragraph>, b: seq<Docx.Paragraph>, f: Docx.Paragraph -> seq<Docx.Paragraph>)
    ensures FlatMap(a + b, f) == FlatMap(a, f) + FlatMap(b, f)
    decreases |b|
  {
    if b == [] {
      assert a + b == a;
    } else {
      var ab := a + b;
      var front := b[..|b| - 1];
      assert ab[..|ab| - 1] == a + front;
      assert ab[|ab| - 1] == b[|b| - 1];
      FlatMapAppend(a, front, f);
    }
  }

  /** The new document: every paragraph annotated, in order. */
  function AnnotatedAll(paras: seq<Docx.Paragraph>, header: string): seq<Docx.Paragraph> {
    FlatMap(paras, p => Annotated(p, header))
  }

  /** Annotating a document in two parts annotates each part. */
  lemma AnnotatedAllAppend(a: seq<Docx.Paragraph>, b: seq<Docx.Paragraph>, header: string)
    ensures AnnotatedAll(a + b, header) == AnnotatedAll(a, header) + AnnotatedAll(b, header)
  {
    FlatMapAppend(a, b, p => Annotated(p, header));
  }

  /** The number of verse paragraphs. */
  function VerseCount(paras: seq<Docx.Paragraph>): (n: nat)
    ensures n <= |paras|
  {
    if paras == [] then 0
    else VerseCount(paras[..|paras| - 1]) + if ParagraphVerse(paras[|paras| - 1]).Some? then 1 else 0
  }

  /** The new document has one paragraph per old one plus one per verse. */
  lemma {:induction false} AnnotatedAllLength(paras: seq<Docx.Paragraph>, header: string)
    ensures |AnnotatedAll(paras, header)| == |paras| + VerseCount(paras)
    decreases |paras|
  {
    if paras != [] {
      AnnotatedAllLength(paras[..|paras| - 1], header);
      var last := paras[|paras| - 1];
      assert |Annotated(last, header)| == if ParagraphVerse(last).Some? then 2 else 1;
    }
  }

  /** A text with a verse number starts with "Verse", the test the loop
      makes first. */
  lemma VerseNumberStartsWithVerse(t: string)
    ensures VerseNumber(t).Some? ==> StartsWith(t, "Verse")
  {
    if VerseNumber(t).Some? {
      VerseNumberMatch(t);
      assert t[..5] == t[..6][..5];
    }
  }

  /** The steps the loop body takes for one paragraph give its annotation. */
  lemma AnnotatedSteps(p: Docx.Paragraph, header: string, t: string)
    requires t == Strip(Text(p))
    ensures Annotated(p, header) == [CopyParagraph(p)] +
        if StartsWith(t, "Verse") && VerseNumber(t).Some? then [NotesParagraph(header, VerseNumber(t).value)] else []
  {
    VerseNumberStartsWithVerse(t);
  }

  /** Annotating one more paragraph appends its annotation. */
  lemma AnnotatedAllSnoc(a: seq<Docx.Paragraph>, p: Docx.Paragraph, header: string)
    ensures AnnotatedAll(a + [p], header) == AnnotatedAll(a, header) + Annotated(p, header)
  {
    var f := q => Annotated(q, header);
    assert (a + [p])[..|a|] == a;
    assert FlatMap(a + [p], f) == FlatMap(a, f) + f(p);
  }

  /** The body of the second loop of `add_notes_to_verses`: the copy of the
      paragraph, then its notes paragraph when it is a verse. */
  method AnnotateParagraph(para: Docx.Paragraph, header: string) returns (produced: seq<Docx.Paragraph>)
    ensures produced == Annotated(para, header)
  {
    var paraText := Strip(Text(para));
    produced := [CopyParagraph(para)];
    if StartsWith(paraText, "Verse") {
      var verseNumber := VerseNumber(paraText);
      if verseNumber.Some? {
        produced := produced + [NotesParagraph(header, verseNumber.value)];
      }
    }
    AnnotatedSteps(para, header, paraText);
  }

  /** The first loop of `add_notes_to_verses`: the header search. */
  method FindHeader(paras: seq<Docx.Paragraph>) returns (header: Option<string>)
    ensures header == HeaderText(paras)
  {
    header := None;
    var i := 0;
    while i < |paras|
      invariant 0 <= i <= |paras|
      invariant header.None? ==> FirstChapter(paras, 0) == FirstChapter(paras, i)
      invariant header.Some? ==> header == HeaderText(paras)
      decreases |paras| - i, if header.None? then 1 else 0
    {
      if Contains(Text(paras[i]), "Chapter") {
        header := Some(Strip(Text(paras[i])));
        break;
      }
      i := i + 1;
    }
  }

  /** `add_notes_to_verses`: `ValueError` when no paragraph holds "Chapter";
      otherwise the annotated document. */
  method AddNotesToVerses(paras: seq<Docx.Paragraph>) returns (r: Result<seq<Docx.Paragraph>>)
    ensures r.Err? <==> forall i :: 0 <= i < |paras| ==> !HasChapter(paras[i])
    ensures r.Err? ==> r.error.ValueError?
    ensures r.Ok? ==> HeaderText(paras).Some? && r.value == AnnotatedAll(paras, HeaderText(paras).value)
  {
    var header := FindHeader(paras);
    if header.None? {
      return Err(ValueError("No header containing 'Chapter' found in the document."));
    }
    var headerText := header.value;
    var out: seq<Docx.Paragraph> := [];
    var n := 0;
    while n < |paras|
      invariant 0 <= n <= |paras|
      invariant out == AnnotatedAll(paras[..n], headerText)
    {
      var produced := AnnotateParagraph(paras[n], headerText);
      AnnotatedAllSnoc(paras[..n], paras[n], headerText);
      assert paras[..n + 1] == paras[..n] + [paras[n]];
      out := out + produced;
      n := n + 1;
    }
    assert paras[..n] == paras;
    return Ok(out);
  }

  // ---------------------------------------------------------------------
  // format_docx_file
  // ---------------------------------------------------------------------

  /** A run as `format_docx_file` rewrites it: text, toggles and colour kept;
      Frank Ruehl 16 pt when the text holds a Hebrew letter, Times New Roman
      12 pt otherwise. */
  function ScriptRun(r: Run): (c: Run)
    ensures c.(font := r.font, size := r.size) == r
    ensures VerseMarker.ContainsHebrew(r.text) ==> c.font == Some(Weave.HEBREW_FONT) && c.size == Some(Weave.HEBREW_SIZE)
    ensures !VerseMarker.ContainsHebrew(r.text) ==> c.font == Some(Weave.ENGLISH_FONT) && c.size == Some(Weave.ENGLISH_SIZE)
  {
    if VerseMarker.ContainsHebrew(r.text) then r.(font := Some(Weave.HEBREW_FONT), size := Some(Weave.HEBREW_SIZE))
    else r.(font := Some(Weave.ENGLISH_FONT), size := Some(Weave.ENGLISH_SIZE))
  }

  function ScriptRuns(runs: seq<Run>): (r: seq<Run>)
    ensures |r| == |runs| && forall i :: 0 <= i < |r| ==> r[i] == ScriptRun(runs[i])
  {
    seq(|runs|, i requires 0 <= i < |runs| => ScriptRun(runs[i]))
  }

  /** One paragraph of `format_docx_file`: alignment kept, direction not. */
  function ScriptParagraph(p: Docx.Paragraph): Docx.Paragraph {
    Docx.Paragraph(ScriptRuns(p.runs), p.alignment, None)
  }

  /** The font choice depends only on the text, so a second pass changes
      nothing. */
  lemma ScriptParagraphIdempotent(p: Docx.Paragraph)
    ensures ScriptParagraph(ScriptParagraph(p)) == ScriptParagraph(p)
  {
    var once := ScriptRuns(p.runs);
    assert ScriptRuns(once) == once;
  }

  /** The pass keeps every paragraph's text. */
  lemma {:induction false} ScriptRunsText(runs: seq<Run>)
    ensures RunTexts(ScriptRuns(runs)) == RunTexts(runs)
    decreases |runs|
  {
    if runs != [] {
      assert ScriptRuns(runs)[1..] == ScriptRuns(runs[1..]);
      ScriptRunsText(runs[1..]);
    }
  }

  /** `format_docx_file`: the new document, paragraph by paragraph. */
  method FormatDocxFile(paras: seq<Docx.Paragraph>) returns (out: seq<Docx.Paragraph>)
    ensures |out| == |paras|
    ensures forall i :: 0 <= i < |paras| ==> out[i] == ScriptParagraph(paras[i])
  {
    out := [];
    var n := 0;
    while n < |paras|
      invariant 0 <= n <= |paras| && |out| == n
      invariant forall i :: 0 <= i < n ==> out[i] == ScriptParagraph(paras[i])
    {
      var para := paras[n];
      var runs: seq<Run> := [];
      var j := 0;
      while j < |para.runs|
        invariant 0 <= j <= |para.runs| && |runs| == j
        invariant forall k :: 0 <= k < j ==> runs[k] == ScriptRun(para.runs[k])
      {
        var run := para.runs[j];
        var newRun := if VerseMarker.ContainsHebrew(run.text)
          then run.(font := Some(Weave.HEBREW_FONT), size := Some(Weave.HEBREW_SIZE))
          else run.(font := Some(Weave.ENGLISH_FONT), size := Some(Weave.ENGLISH_SIZE));
        runs := runs + [newRun];
        j := j + 1;
      }
      out := out + [Docx.Paragraph(runs, para.alignment, None)];
      n := n + 1;
    }
  }
}
