/** `weave_torah_files` in 2_final_output.py and in its earlier copy
    final_output.py: the paragraphs of a Hebrew and an English document are
    interleaved into a new document, each copied run keeping its text and its
    bold/italic/underline toggles and taking the language's font and size,
    and the result is named after the document's first Hebrew line. The two
    copies differ only in the Hebrew font size and in how the name is built. */
module Weave {
  import opened Wrappers
  import opened Strings
  import opened Docx
  import FilenameSanitizer

  const HEBREW_FONT := "Frank Ruehl"
  const ENGLISH_FONT := "Times New Roman"
  /** The Hebrew point size of 2_final_output.py. */
  const HEBREW_SIZE := 16
  /** The Hebrew point size of final_output.py. */
  const HEBREW_SIZE_EARLY := 14
  const ENGLISH_SIZE := 12

  function Min(a: int, b: int): (m: int)
    ensures m <= a && m <= b && (m == a || m == b)
  {
    if a <= b then a else b
  }

  /** The run `add_run(run.text)` creates, with the source run's toggles
      copied and the font set; its colour is left unset. */
  function StyledRun(r: Run, font: string, size: int): Run {
    Run(r.text, r.bold, r.italic, r.underline, Some(font), Some(size), None)
  }

  function StyledRuns(runs: seq<Run>, font: string, size: int): (out: seq<Run>)
    ensures |out| == |runs|
  {
    seq(|runs|, i requires 0 <= i < |runs| => StyledRun(runs[i], font, size))
  }

  /** A Hebrew paragraph as woven: restyled runs, centred, right to left. */
  function HebrewCopy(p: Paragraph, size: int): Paragraph {
    Paragraph(StyledRuns(p.runs, HEBREW_FONT, size), Some(ALIGN_CENTER), Some(true))
  }

  /** An English paragraph as woven: restyled runs, left, left to right. */
  function EnglishCopy(p: Paragraph): Paragraph {
    Paragraph(StyledRuns(p.runs, ENGLISH_FONT, ENGLISH_SIZE), Some(ALIGN_LEFT), Some(false))
  }

  /** `out` is the weave of `hebrew` and `english`: while both last, Hebrew
      paragraph i sits at 2i and English paragraph i right after it; the
      remaining Hebrew paragraphs follow in order, and English paragraphs
      beyond the last Hebrew one are dropped. */
  predicate WovenFrom(out: seq<Paragraph>, hebrew: seq<Paragraph>, english: seq<Paragraph>, size: int) {
    var m := Min(|hebrew|, |english|);
    && |out| == |hebrew| + m
    && (forall i :: 0 <= i < m ==> out[2 * i] == HebrewCopy(hebrew[i], size))
    && (forall i :: 0 <= i < m ==> out[2 * i + 1] == EnglishCopy(english[i]))
    && (forall i :: m <= i < |hebrew| ==> out[m + i] == HebrewCopy(hebrew[i], size))
  }

  /** The inner `for run in paragraph.runs` loop. */
  method CopyRuns(runs: seq<Run>, font: string, size: int) returns (out: seq<Run>)
    ensures out == StyledRuns(runs, font, size)
  {
    out := [];
    var i := 0;
    while i < |runs|
      invariant 0 <= i <= |runs|
      invariant out == StyledRuns(runs[..i], font, size)
    {
      out := out + [StyledRun(runs[i], font, size)];
      i := i + 1;
    }
    assert runs[..i] == runs;
  }

  /** The `while hebrew_index < len(hebrew_doc.paragraphs)` loop, for a given
      Hebrew point size. */
  method WeaveParagraphs(hebrew: seq<Paragraph>, english: seq<Paragraph>, hebrewSize: int)
    returns (out: seq<Paragraph>)
    ensures WovenFrom(out, hebrew, english, hebrewSize)
  {
    var hebrewIndex, englishIndex := 0, 0;
    out := [];
    while hebrewIndex < |hebrew|
      invariant 0 <= hebrewIndex <= |hebrew|
      invariant englishIndex == Min(hebrewIndex, |english|)
      invariant |out| == hebrewIndex + englishIndex
      invariant forall i :: 0 <= i < englishIndex ==> out[2 * i] == HebrewCopy(hebrew[i], hebrewSize)
      invariant forall i :: 0 <= i < englishIndex ==> out[2 * i + 1] == EnglishCopy(english[i])
      invariant forall i :: englishIndex <= i < hebrewIndex ==> out[englishIndex + i] == HebrewCopy(hebrew[i], hebrewSize)
    {
      var hebrewRuns := CopyRuns(hebrew[hebrewIndex].runs, HEBREW_FONT, hebrewSize);
      out := out + [Paragraph(hebrewRuns, Some(ALIGN_CENTER), Some(true))];
      hebrewIndex := hebrewIndex + 1;
      if englishIndex < |english| {
        var englishRuns := CopyRuns(english[englishIndex].runs, ENGLISH_FONT, ENGLISH_SIZE);
        out := out + [Paragraph(englishRuns, Some(ALIGN_LEFT), Some(false))];
        englishIndex := englishIndex + 1;
      }
    }
  }

  /** Restyling keeps the text of every run, hence of the paragraph. */
  lemma {:induction false} StyledRunsText(runs: seq<Run>, font: string, size: int)
    ensures RunTexts(StyledRuns(runs, font, size)) == RunTexts(runs)
    decreases |runs|
  {
    if runs != [] {
      assert StyledRuns(runs, font, size)[1..] == StyledRuns(runs[1..], font, size);
      StyledRunsText(runs[1..], font, size);
    }
  }

  /** Weaving keeps the text of every paragraph it copies. */
  lemma WovenTexts(out: seq<Paragraph>, hebrew: seq<Paragraph>, english: seq<Paragraph>, size: int)
    requires WovenFrom(out, hebrew, english, size)
    ensures forall i :: 0 <= i < Min(|hebrew|, |english|) ==>
      Text(out[2 * i]) == Text(hebrew[i]) && Text(out[2 * i + 1]) == Text(english[i])
    ensures forall i :: Min(|hebrew|, |english|) <= i < |hebrew| ==>
      Text(out[Min(|hebrew|, |english|) + i]) == Text(hebrew[i])
  {
    forall p: Paragraph, font: string, size: int
      ensures RunTexts(StyledRuns(p.runs, font, size)) == RunTexts(p.runs)
    {
      StyledRunsText(p.runs, font, size);
    }
  }

  /** The layout of a woven Hebrew paragraph. */
  predicate HebrewLayout(p: Paragraph, size: int) {
    && p.alignment == Some(ALIGN_CENTER) && p.bidi == Some(true)
    && forall j :: 0 <= j < |p.runs| ==> p.runs[j].font == Some(HEBREW_FONT) && p.runs[j].size == Some(size)
  }

  /** The layout of a woven English paragraph. */
  predicate EnglishLayout(p: Paragraph) {
    && p.alignment == Some(ALIGN_LEFT) && p.bidi == Some(false)
    && forall j :: 0 <= j < |p.runs| ==> p.runs[j].font == Some(ENGLISH_FONT) && p.runs[j].size == Some(ENGLISH_SIZE)
  }

  /** Every woven paragraph at an odd position below twice the number of
      pairs is laid out as English, every other one as Hebrew. */
  lemma WovenLayout(out: seq<Paragraph>, hebrew: seq<Paragraph>, english: seq<Paragraph>, size: int)
    requires WovenFrom(out, hebrew, english, size)
    ensures forall k :: 0 <= k < |out| ==>
      if k < 2 * Min(|hebrew|, |english|) && k % 2 == 1 then EnglishLayout(out[k]) else HebrewLayout(out[k], size)
  {
    var m := Min(|hebrew|, |english|);
    forall k | 0 <= k < |out|
      ensures if k < 2 * m && k % 2 == 1 then EnglishLayout(out[k]) else HebrewLayout(out[k], size)
    {
      if k < 2 * m {
        if k % 2 == 0 {
          assert out[2 * (k / 2)] == HebrewCopy(hebrew[k / 2], size);
        } else {
          assert out[2 * ((k - 1) / 2) + 1] == EnglishCopy(english[(k - 1) / 2]);
        }
      } else {
        assert out[m + (k - m)] == HebrewCopy(hebrew[k - m], size);
      }
    }
  }

  /** The filename-safe form of the first Hebrew line: every character that
      is neither alphanumeric nor whitespace becomes '_'; "combined" when the
      Hebrew document has no paragraphs. Python's `str.isalnum` is the
      parameter `isAlnum`. */
  function SafeFirstLine(hebrew: seq<Paragraph>, isAlnum: char -> bool): (r: string)
    ensures hebrew == [] ==> r == "combined"
    ensures hebrew != [] ==> |r| == |Strip(Text(hebrew[0]))|
    ensures hebrew != [] ==> forall k :: 0 <= k < |r| ==> isAlnum(r[k]) || IsSpace(r[k]) || r[k] == '_'
  {
    if hebrew == [] then "combined"
    else
      var line := Strip(Text(hebrew[0]));
      seq(|line|, k requires 0 <= k < |line| => if isAlnum(line[k]) || IsSpace(line[k]) then line[k] else '_')
  }

  /** The saved name in 2_final_output.py, cleaned by `clean_hebrew_filename`. */
  function WovenName(parashaName: string, hebrew: seq<Paragraph>, isAlnum: char -> bool): string {
    FilenameSanitizer.CleanHebrewFilename(parashaName + "_" + SafeFirstLine(hebrew, isAlnum) + ".docx")
  }

  /** The saved name in final_output.py. */
  function EarlyWovenName(hebrew: seq<Paragraph>, isAlnum: char -> bool): string {
    "combined_" + SafeFirstLine(hebrew, isAlnum) + ".docx"
  }

  /** The name in 2_final_output.py has the shape every cleaned name has. */
  lemma WovenNameShape(parashaName: string, hebrew: seq<Paragraph>, isAlnum: char -> bool)
    ensures var n := WovenName(parashaName, hebrew, isAlnum);
      && FilenameSanitizer.NoDoubleUnderscore(n)
      && !EndsWith(n, "_")
      && !EndsWith(n, "_.docx")
      && FilenameSanitizer.SpacesBeforeKeywords(n)
  {
    FilenameSanitizer.CleanHebrewFilenameShape(parashaName + "_" + SafeFirstLine(hebrew, isAlnum) + ".docx");
  }

  lemma SafeFirstLineHasNoSeparator(hebrew: seq<Paragraph>, isAlnum: char -> bool)
    requires !isAlnum('/')
    ensures '/' !in SafeFirstLine(hebrew, isAlnum)
  {
    var r := SafeFirstLine(hebrew, isAlnum);
    if hebrew == [] {
      assert r == "combined";
    } else {
      assert !IsSpace('/');
      forall k | 0 <= k < |r| ensures r[k] != '/' {
        assert isAlnum(r[k]) || IsSpace(r[k]) || r[k] == '_';
      }
    }
  }

  /** The name in final_output.py cannot hold a path separator, since '/' is
      not alphanumeric: joining it to the output folder stays in the folder. */
  lemma EarlyWovenNameHasNoSeparator(hebrew: seq<Paragraph>, isAlnum: char -> bool)
    requires !isAlnum('/')
    ensures forall k :: 0 <= k < |EarlyWovenName(hebrew, isAlnum)| ==> EarlyWovenName(hebrew, isAlnum)[k] != '/'
  {
    SafeFirstLineHasNoSeparator(hebrew, isAlnum);
    NotInConcat("combined_", SafeFirstLine(hebrew, isAlnum), ".docx", '/');
  }

  /** `weave_torah_files` of 2_final_output.py: the woven paragraphs and the
      path they are saved under. Reading and saving documents, the margins and
      removing an existing file are not modelled. */
  method WeaveTorahFiles(parashaName: string, hebrew: seq<Paragraph>, english: seq<Paragraph>,
                         outputDir: string, isAlnum: char -> bool)
    returns (doc: seq<Paragraph>, path: string)
    ensures WovenFrom(doc, hebrew, english, HEBREW_SIZE)
    ensures path == PathJoin(outputDir, WovenName(parashaName, hebrew, isAlnum))
  {
    doc := WeaveParagraphs(hebrew, english, HEBREW_SIZE);
    path := PathJoin(outputDir, WovenName(parashaName, hebrew, isAlnum));
  }

  /** `weave_torah_files` of final_output.py. */
  method WeaveTorahFilesEarly(hebrew: seq<Paragraph>, english: seq<Paragraph>,
                              outputDir: string, isAlnum: char -> bool)
    returns (doc: seq<Paragraph>, path: string)
    ensures WovenFrom(doc, hebrew, english, HEBREW_SIZE_EARLY)
    ensures path == PathJoin(outputDir, EarlyWovenName(hebrew, isAlnum))
  {
    doc := WeaveParagraphs(hebrew, english, HEBREW_SIZE_EARLY);
    path := PathJoin(outputDir, EarlyWovenName(hebrew, isAlnum));
  }
}
