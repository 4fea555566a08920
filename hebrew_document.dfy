/** The verse paragraphs, heading and file name of the Hebrew chapter
    document written by `create_hebrew_word_document`
    (`torah_web_scraper/getHebTanakh.py`). */
module HebrewDocument {
  import opened Wrappers
  import opened Strings
  import opened Docx
  import opened Json
  import opened HebrewNumerals

  /** The font and point size of both runs of a verse paragraph. */
  const HEBREW_FONT: string := "Frank Ruehl"
  const FONT_SIZE: int := 18

  /** `s.lstrip(c)`: every leading copy of `c` removed. */
  function LStripChar(s: string, c: char): (r: string)
    ensures |r| <= |s| && r == s[|s| - |r|..]
    ensures forall k :: 0 <= k < |s| - |r| ==> s[k] == c
    ensures r == [] || r[0] != c
  {
    if s != [] && s[0] == c then LStripChar(s[1..], c) else s
  }

  /** `int(verse_id.lstrip('v'))`. */
  function VerseIdNumber(id: string): (r: Result<int>)
    ensures r.Ok? ==> r.value >= 0
  {
    ToInt(Str(LStripChar(id, 'v')))
  }

  /** A verse id "v" followed by the decimal digits of k reads back as k. */
  lemma VerseIdNumberOf(k: nat)
    ensures VerseIdNumber("v" + NatToString(k)) == Ok(k)
  {
    var digits := NatToString(k);
    assert IsDigit(digits[0]);
    LStripOne(digits, 'v');
    ToIntOfRendered(k);
  }

  /** One leading copy of `c` before a text that does not start with `c` is
      all that is stripped. */
  lemma LStripOne(s: string, c: char)
    requires s != [] && s[0] != c
    ensures LStripChar([c] + s, c) == s
  {
    assert ([c] + s)[1..] == s;
  }

  /** The verse label: the Hebrew numeral of the verse id in parentheses,
      after two spaces. */
  function VerseLabel(id: string): Result<string> {
    match VerseIdNumber(id)
    case Err(e) => Err(e)
    case Ok(k) =>
      match NumberToHebrew(k)
      case Err(e) => Err(e)
      case Ok(h) => Ok("  (" + h + ")")
  }

  /** A run in the Hebrew font at the document's size. */
  function HebrewRun(text: string): (r: Run)
    ensures r.text == text && r.font == Some(HEBREW_FONT) && r.size == Some(FONT_SIZE)
    ensures r.bold == None && r.italic == None && r.underline == None && r.color == None
  {
    Run(text, None, None, None, Some(HEBREW_FONT), Some(FONT_SIZE), None)
  }

  /** One verse: its text, then its label, right-aligned and right to left. */
  function VersePara(id: string, text: string): Result<Paragraph> {
    match VerseLabel(id)
    case Err(e) => Err(e)
    case Ok(tag) => Ok(Paragraph([HebrewRun(text), HebrewRun(tag)], Some(ALIGN_RIGHT), Some(true)))
  }

  /** A verse paragraph is built exactly when the id reads as a number that
      has a Hebrew numeral; it then holds the text and the label "  (h)" in
      two Frank Ruehl runs, right-aligned and right to left, and otherwise
      the conversion's error is raised. */
  lemma VerseParaShape(id: string, text: string)
    ensures var n := VerseIdNumber(id);
      VersePara(id, text).Ok? <==> n.Ok? && NumberToHebrew(n.value).Ok?
    ensures VersePara(id, text).Err? ==>
      VersePara(id, text).error == if VerseIdNumber(id).Err? then VerseIdNumber(id).error
                                   else NumberToHebrew(VerseIdNumber(id).value).error
    ensures VersePara(id, text).Ok? ==>
      var p := VersePara(id, text).value;
      p.alignment == Some(ALIGN_RIGHT) && p.bidi == Some(true) &&
      p.runs == [HebrewRun(text), HebrewRun("  (" + NumberToHebrew(VerseIdNumber(id).value).value + ")")]
  {
  }

  /** The paragraph of verse k (below 500) reads as the verse text followed
      by a numeral whose letters add up to k. */
  lemma VerseParaText(k: nat, text: string)
    requires k < 500
    ensures VersePara("v" + NatToString(k), text).Ok?
    ensures var h := NumberToHebrew(k).value;
      Text(VersePara("v" + NatToString(k), text).value) == text + "  (" + h + ")" && Gematria(h) == k
  {
    VerseIdNumberOf(k);
    NumberToHebrewRoundTrip(k);
    VerseParaShape("v" + NatToString(k), text);
    var p := VersePara("v" + NatToString(k), text).value;
    RunTextsAppend([HebrewRun(text)], [HebrewRun(VerseLabel("v" + NatToString(k)).value)]);
    RunTextsSingle(HebrewRun(text));
    RunTextsSingle(HebrewRun(VerseLabel("v" + NatToString(k)).value));
  }

  /** `f` of every element in order, or the error of the first element `f`
      fails on: a loop that raises on its first failure. */
  function Collect<A, B>(xs: seq<A>, f: A -> Result<B>): Result<seq<B>>
    decreases |xs|
  {
    if xs == [] then Ok([])
    else
      match f(xs[0])
      case Err(e) => Err(e)
      case Ok(y) => Then([y], Collect(xs[1..], f))
  }

  /** The values `ys` followed by those of `rest`, or the error of `rest`. */
  function Then<B>(ys: seq<B>, rest: Result<seq<B>>): Result<seq<B>> {
    match rest
    case Err(e) => Err(e)
    case Ok(zs) => Ok(ys + zs)
  }

  lemma ThenNil<B>(r: Result<seq<B>>)
    ensures Then([], r) == r
  {
    if r.Ok? {
      assert [] + r.value == r.value;
    }
  }

  lemma ThenSnoc<B>(ys: seq<B>, y: B, r: Result<seq<B>>)
    ensures Then(ys, Then([y], r)) == Then(ys + [y], r)
  {
    if r.Ok? {
      assert ys + ([y] + r.value) == ys + [y] + r.value;
    }
  }

  /** The results from element i on: element i's, then those after it. */
  lemma CollectAt<A, B>(xs: seq<A>, f: A -> Result<B>, i: nat)
    requires i < |xs|
    ensures Collect(xs[i..], f) ==
      match f(xs[i])
      case Err(e) => Err(e)
      case Ok(y) => Then([y], Collect(xs[i + 1..], f))
  {
    assert xs[i..][0] == xs[i];
    assert xs[i..][1..] == xs[i + 1..];
  }

  /** The collection succeeds exactly when `f` succeeds on every element,
      and result j is then element j's. */
  lemma {:induction false} CollectOk<A, B>(xs: seq<A>, f: A -> Result<B>)
    ensures Collect(xs, f).Ok? <==> forall j :: 0 <= j < |xs| ==> f(xs[j]).Ok?
    ensures Collect(xs, f).Ok? ==> |Collect(xs, f).value| == |xs|
    ensures Collect(xs, f).Ok? ==> forall j :: 0 <= j < |xs| ==> Ok(Collect(xs, f).value[j]) == f(xs[j])
    decreases |xs|
  {
    if xs != [] {
      var rest := xs[1..];
      CollectOk(rest, f);
      assert forall j :: 1 <= j < |xs| ==> xs[j] == rest[j - 1];
      if Collect(xs, f).Ok? {
        assert Collect(xs, f).value == [f(xs[0]).value] + Collect(rest, f).value;
      }
    }
  }

  /** Element k is the first `f` fails on, with error e. */
  predicate FirstFailure<A, B>(xs: seq<A>, f: A -> Result<B>, k: nat, e: Error)
    requires k < |xs|
  {
    f(xs[k]) == Err(e) && forall j :: 0 <= j < k ==> f(xs[j]).Ok?
  }

  /** A failed collection reports the error of the first failing element. */
  lemma {:induction false} CollectErr<A, B>(xs: seq<A>, f: A -> Result<B>)
    ensures Collect(xs, f).Err? ==> exists k :: 0 <= k < |xs| && FirstFailure(xs, f, k, Collect(xs, f).error)
    decreases |xs|
  {
    if xs != [] && Collect(xs, f).Err? {
      var rest := xs[1..];
      var e := Collect(xs, f).error;
      if f(xs[0]).Err? {
        assert FirstFailure(xs, f, 0, e);
      } else {
        CollectErr(rest, f);
        var k :| 0 <= k < |rest| && FirstFailure(rest, f, k, e);
        assert forall j :: 1 <= j <= k + 1 ==> xs[j] == rest[j - 1];
        assert FirstFailure(xs, f, k + 1, e);
      }
    }
  }

  /** One verse's paragraph, from its (id, text) pair. */
  function VerseOf(verse: (string, string)): Result<Paragraph> {
    VersePara(verse.0, verse.1)
  }

  /** The verse paragraphs of `verses` in order, or the error of the first
      verse whose paragraph cannot be built. */
  function VerseParas(verses: seq<(string, string)>): Result<seq<Paragraph>> {
    Collect(verses, VerseOf)
  }

  /** The paragraphs are built exactly when every verse's can be, paragraph
      j then being verse j's; otherwise the error is that of the first verse
      whose paragraph cannot be built. */
  lemma VerseParasSpec(verses: seq<(string, string)>)
    ensures VerseParas(verses).Ok? <==> forall j :: 0 <= j < |verses| ==> VerseOf(verses[j]).Ok?
    ensures VerseParas(verses).Ok? ==> |VerseParas(verses).value| == |verses|
    ensures VerseParas(verses).Ok? ==> forall j :: 0 <= j < |verses| ==>
      Ok(VerseParas(verses).value[j]) == VerseOf(verses[j])
    ensures VerseParas(verses).Err? ==>
      exists k :: 0 <= k < |verses| && FirstFailure(verses, VerseOf, k, VerseParas(verses).error)
  {
    CollectOk(verses, VerseOf);
    CollectErr(verses, VerseOf);
  }

  /** The document before the colon passes run over it. */
  datatype HebrewDoc = HebrewDoc(path: string, heading: string, paragraphs: seq<Paragraph>)

  /** `f"{book}_CH_{chapter}_Verses_{start}_to_{end}.docx"`. */
  function HebrewFileName(book: string, chapter: string, startVerse: string, endVerse: string): (r: string)
    ensures StartsWith(r, book + "_CH_" + chapter + "_Verses_")
    ensures EndsWith(r, "_to_" + endVerse + ".docx")
  {
    var prefix := book + "_CH_" + chapter + "_Verses_";
    var suffix := "_to_" + endVerse + ".docx";
    var r := prefix + startVerse + suffix;
    assert r[..|prefix|] == prefix;
    assert r[|r| - |suffix|..] == suffix;
    r
  }

  /** `f"{book} - Chapter {chapter} (Verses {start}-{end})"`. */
  function HebrewHeading(book: string, chapter: string, startVerse: string, endVerse: string): string {
    book + " - Chapter " + chapter + " (Verses " + startVerse + "-" + endVerse + ")"
  }

  /** `create_hebrew_word_document`: one paragraph per verse, in the order of
      `verse_texts`; the first verse id that does not read as a number, or
      whose number has no Hebrew numeral, raises its error and nothing is
      saved. The chapter and verse arguments arrive already formatted. */
  method CreateHebrewWordDocument(book: string, chapter: string, startVerse: string, endVerse: string,
                                  verses: seq<(string, string)>, folder: string)
    returns (r: Result<HebrewDoc>)
    ensures r == match VerseParas(verses)
                 case Err(e) => Err(e)
                 case Ok(ps) =>
                   Ok(HebrewDoc(PathJoin(folder, HebrewFileName(book, chapter, startVerse, endVerse)),
                                HebrewHeading(book, chapter, startVerse, endVerse), ps))
  {
    var heading := HebrewHeading(book, chapter, startVerse, endVerse);
    var paragraphs: seq<Paragraph> := [];
    var i := 0;
    ThenNil(VerseParas(verses));
    assert verses[i..] == verses;
    while i < |verses|
      invariant 0 <= i <= |verses|
      invariant VerseParas(verses) == Then(paragraphs, Collect(verses[i..], VerseOf))
    {
      var para := VersePara(verses[i].0, verses[i].1);
      CollectAt(verses, VerseOf, i);
      if para.Err? {
        assert VerseParas(verses) == Err(para.error);
        return Err(para.error);
      }
      ThenSnoc(paragraphs, para.value, Collect(verses[i + 1..], VerseOf));
      paragraphs := paragraphs + [para.value];
      i := i + 1;
    }
    assert verses[i..] == [];
    assert paragraphs + [] == paragraphs;
    assert VerseParas(verses) == Ok(paragraphs);
    var path := PathJoin(folder, HebrewFileName(book, chapter, startVerse, endVerse));
    r := Ok(HebrewDoc(path, heading, paragraphs));
  }
}
