/** The non-scraping parts of the English chapter scrapers
    (`new_getEng.py`, `torah_web_scraper/new_getEng.py`,
    `old_code/1_engBereshit.py`): the book-to-link-text table, the file names
    and paths a chapter is saved under, the document `save_to_word` writes,
    the parasha lookup, and the order in which chapters are requested. A
    request to the web scraper is recorded, not performed. */
module EngChapters {
  import opened Wrappers
  import opened Strings
  import opened Json

  // ---------------------------------------------------------------------
  // get_partial_text
  // ---------------------------------------------------------------------

  /** The text of the link to a book's chapter page, by English book name:
      "Bereishis/Genesis, Chapter" and so on, each written as its Hebrew
      name, '/', the English name and ", Chapter". */
  const BOOK_LINKS: map<string, string> := map[
    "Genesis" := Link("Bereishis", "Genesis"),
    "Exodus" := Link("Shemos", "Exodus"),
    "Leviticus" := Link("Vayikro", "Leviticus"),
    "Numbers" := Link("Bamidbar", "Numbers"),
    "Deuteronomy" := Link("Devarim", "Deuteronomy")
  ]

  function Link(hebrew: string, english: string): string {
    hebrew + "/" + english + ", Chapter"
  }

  const INVALID_BOOK: string := "Error: Invalid book input"

  /** `get_partial_text`: the link text of a Torah book, the error text for
      any other name. */
  function PartialText(book: string): (r: string)
    ensures book in BOOK_LINKS ==> r == BOOK_LINKS[book]
    ensures book !in BOOK_LINKS ==> r == INVALID_BOOK
  {
    if book in BOOK_LINKS then BOOK_LINKS[book] else INVALID_BOOK
  }

  /** Every link text names its book in English after a '/' and ends with
      ", Chapter"; the error text is none of them. */
  lemma PartialTextNamesBook(book: string)
    ensures PartialText(book) != INVALID_BOOK <==> book in BOOK_LINKS
    ensures book in BOOK_LINKS ==> EndsWith(PartialText(book), "/" + book + ", Chapter")
  {
    if book in BOOK_LINKS {
      LinkNamesBook(book);
    }
  }

  lemma LinkNamesBook(book: string)
    requires book in BOOK_LINKS
    ensures BOOK_LINKS[book] != INVALID_BOOK && EndsWith(BOOK_LINKS[book], "/" + book + ", Chapter")
  {
    if book == "Genesis" {
      LinkShape("Bereishis", book);
    } else if book == "Exodus" {
      LinkShape("Shemos", book);
    } else if book == "Leviticus" {
      LinkShape("Vayikro", book);
    } else if book == "Numbers" {
      LinkShape("Bamidbar", book);
    } else {
      LinkShape("Devarim", book);
    }
  }

  lemma LinkShape(hebrew: string, english: string)
    requires hebrew != [] && hebrew[0] != 'E'
    ensures Link(hebrew, english) != INVALID_BOOK && EndsWith(Link(hebrew, english), "/" + english + ", Chapter")
  {
    var r := Link(hebrew, english);
    var tail := "/" + english + ", Chapter";
    assert r == hebrew + tail;
    assert r[0] != INVALID_BOOK[0];
    assert r[|r| - |tail|..] == tail;
  }

  // ---------------------------------------------------------------------
  // File names and paths
  // ---------------------------------------------------------------------

  /** `f"{book_name}_{chapter_number}.docx"`, the `filename` passed to
      `save_to_word`. */
  function ChapterFileName(book: string, chapter: string): (r: string)
    ensures EndsWith(r, ".docx") && StartsWith(r, book + "_")
  {
    var r := book + "_" + chapter + ".docx";
    assert r[..|book| + 1] == book + "_";
    r
  }

  /** Where `save_to_word` writes: `join(file_path, f"{filename}.docx")`. */
  function SavePath(folder: string, filename: string): string {
    PathJoin(folder, filename + ".docx")
  }

  /** The path `get_Tanakh_and_verses` hands to `reformat_eng_docx`:
      `join(folder, filename) + ".docx"`. */
  function ReformatPath(folder: string, filename: string): string {
    PathJoin(folder, filename) + ".docx"
  }

  /** The file reformatted is the file saved, and since the file name
      already ends in ".docx" its path ends in ".docx.docx". */
  lemma SavedFileIsReformatted(folder: string, book: string, chapter: string)
    ensures var name := ChapterFileName(book, chapter);
      && SavePath(folder, name) == ReformatPath(folder, name)
      && EndsWith(SavePath(folder, name), ".docx.docx")
  {
    DocxPathTwice(folder, ChapterFileName(book, chapter));
  }

  lemma DocxPathTwice(folder: string, name: string)
    requires EndsWith(name, ".docx")
    ensures SavePath(folder, name) == ReformatPath(folder, name)
    ensures EndsWith(SavePath(folder, name), ".docx.docx")
  {
    PathJoinAppend(folder, name, ".docx");
    JoinedDocxEnds(folder, name);
  }

  lemma JoinedDocxEnds(folder: string, name: string)
    requires EndsWith(name, ".docx")
    ensures EndsWith(PathJoin(folder, name) + ".docx", ".docx.docx")
  {
    var joined := PathJoin(folder, name);
    EndsWithTrans(joined, name, ".docx");
    EndsWithAppend(joined, ".docx", ".docx");
    assert ".docx" + ".docx" == ".docx.docx";
  }

  /** `file_path.replace(".docx", "_formatted.docx")`, where
      `old_code/1_engBereshit.py` saves the regrouped chapter. */
  function FormattedPath(path: string): string {
    ReplaceAll(path, ".docx", "_formatted.docx")
  }

  /** A path whose only ".docx" is its extension gets "_formatted" before
      the extension. */
  lemma FormattedPathOfDocx(stem: string)
    requires forall k :: 0 <= k < |stem| ==> !OccursAt(stem + ".docx", ".docx", k)
    ensures FormattedPath(stem + ".docx") == stem + "_formatted.docx"
  {
    ReplaceAllOnlyAtEnd(stem, ".docx", "_formatted.docx");
  }

  // ---------------------------------------------------------------------
  // save_to_word
  // ---------------------------------------------------------------------

  /** What `save_to_word` writes: the path, the title heading and one
      paragraph per verse. */
  datatype SavedDocument = SavedDocument(path: string, heading: string, paragraphs: seq<string>)

  /** `f"{verse_number}: {verse_text}"`. */
  function VerseParagraph(number: string, text: string): string {
    number + ": " + text
  }

  /** A verse number without ':' is read back from its paragraph as the
      text before the first ": ". */
  lemma VerseParagraphSplits(number: string, text: string)
    requires ':' !in number
    ensures Find(VerseParagraph(number, text), ": ") == Some(|number|)
  {
    var s := VerseParagraph(number, text);
    assert OccursAt(s, ": ", |number|) by {
      assert s[|number|..|number| + 2] == ": ";
    }
    forall k | 0 <= k < |number| ensures !OccursAt(s, ": ", k) {
      assert s[k] == number[k];
    }
  }

  /** `save_to_word`: the file at `join(file_path, filename + ".docx")`, a
      heading naming the file and the chapter, then the verses in order. */
  method SaveToWord(verses: seq<(string, string)>, filename: string, chapterNumber: string, filePath: string)
    returns (doc: SavedDocument)
    ensures doc.path == SavePath(filePath, filename)
    ensures doc.heading == filename + " - Chapter " + chapterNumber
    ensures |doc.paragraphs| == |verses|
    ensures forall i :: 0 <= i < |verses| ==> doc.paragraphs[i] == VerseParagraph(verses[i].0, verses[i].1)
  {
    var paragraphs: seq<string> := [];
    var i := 0;
    while i < |verses|
      invariant 0 <= i <= |verses| && |paragraphs| == i
      invariant forall j :: 0 <= j < i ==> paragraphs[j] == VerseParagraph(verses[j].0, verses[j].1)
    {
      var (verseNumber, verseText) := verses[i];
      paragraphs := paragraphs + [verseNumber + ": " + verseText];
      i := i + 1;
    }
    doc := SavedDocument(PathJoin(filePath, filename + ".docx"), filename + " - Chapter " + chapterNumber, paragraphs);
  }

  // ---------------------------------------------------------------------
  // get_parasha_details
  // ---------------------------------------------------------------------

  /** The index of the first entry from `i` on whose "Name" is `name`, or the
      error the first failing `parasha["Name"]` raises before it. */
  function FirstNamed(name: string, ps: seq<Value>, i: nat): (r: Result<Option<nat>>)
    requires i <= |ps|
    ensures r.Ok? && r.value.Some? ==> i <= r.value.value < |ps| && Index(ps[r.value.value], "Name") == Ok(Str(name))
    ensures r.Ok? ==> forall j :: i <= j < (if r.value.Some? then r.value.value else |ps|) ==>
      Index(ps[j], "Name").Ok? && Index(ps[j], "Name").value != Str(name)
    ensures r.Err? ==> exists j :: i <= j < |ps| && Index(ps[j], "Name") == Err(r.error)
    decreases |ps| - i
  {
    if i == |ps| then Ok(None)
    else
      match Index(ps[i], "Name")
      case Err(e) => Err(e)
      case Ok(n) => if n == Str(name) then Ok(Some(i)) else FirstNamed(name, ps, i + 1)
  }

  /** `v[a][b]`. */
  function Index2(v: Value, a: string, b: string): (r: Result<Value>)
    ensures r.Ok? ==> Index(v, a).Ok? && Index(Index(v, a).value, b) == r
  {
    match Index(v, a)
    case Err(e) => Err(e)
    case Ok(inner) => Index(inner, b)
  }

  /** The record `get_parasha_details` returns for an entry, its six fields
      read in order. */
  function Details(p: Value): (r: Result<Value>)
    ensures r.Ok? ==>
      r.value.Dict? && r.value.fields.Keys == {"Name", "Book", "Start_Chapter", "Start_Verse", "End_Chapter", "End_Verse"}
    ensures r.Ok? ==> Index(p, "Name") == Ok(r.value.fields["Name"]) && Index(p, "Book") == Ok(r.value.fields["Book"])
    ensures r.Ok? ==>
      Index2(p, "Start", "Chapter") == Ok(r.value.fields["Start_Chapter"]) && Index2(p, "Start", "Verse") == Ok(r.value.fields["Start_Verse"])
      && Index2(p, "End", "Chapter") == Ok(r.value.fields["End_Chapter"])
      && Index2(p, "End", "Verse") == Ok(r.value.fields["End_Verse"])
  {
    match Index(p, "Name")
    case Err(e) => Err(e)
    case Ok(name) =>
      match Index(p, "Book")
      case Err(e) => Err(e)
      case Ok(book) =>
        match Index2(p, "Start", "Chapter")
        case Err(e) => Err(e)
        case Ok(sc) =>
          match Index2(p, "Start", "Verse")
          case Err(e) => Err(e)
          case Ok(sv) =>
            match Index2(p, "End", "Chapter")
            case Err(e) => Err(e)
            case Ok(ec) =>
              match Index2(p, "End", "Verse")
              case Err(e) => Err(e)
              case Ok(ev) =>
                Ok(Dict(map["Name" := name, "Book" := book, "Start_Chapter" := sc,
                            "Start_Verse" := sv, "End_Chapter" := ec, "End_Verse" := ev]))
  }

  /** `get_parasha_details` over the loaded "Parashot" list: the details of
      the first entry named `name`, `None` (here `Null`) when there is none. */
  method GetParashaDetails(name: string, parashot: seq<Value>) returns (r: Result<Value>)
    ensures r == match FirstNamed(name, parashot, 0)
                 case Err(e) => Err(e)
                 case Ok(None) => Ok(Null)
                 case Ok(Some(k)) => Details(parashot[k])
  {
    var i := 0;
    while i < |parashot|
      invariant 0 <= i <= |parashot|
      invariant FirstNamed(name, parashot, 0) == FirstNamed(name, parashot, i)
    {
      var n := Index(parashot[i], "Name");
      if n.Err? {
        return Err(n.error);
      }
      if n.value == Str(name) {
        return Details(parashot[i]);
      }
      i := i + 1;
    }
    return Ok(Null);
  }

  // ---------------------------------------------------------------------
  // Chapter iteration
  // ---------------------------------------------------------------------

  /** `str(c).zfill(2)`. */
  function Padded(c: int): (r: string)
    ensures 0 <= c < 100 ==> |r| == 2
    ensures c >= 0 ==> |r| >= 2
  {
    var s := IntToString(c);
    assert 0 <= c < 100 ==> |s| <= 2 by {
      if 10 <= c < 100 {
        assert s == NatToString(c / 10) + [DigitChar(c % 10)];
      }
    }
    ZFill(s, 2)
  }

  /** Padding a chapter number keeps the number `int()` reads back. */
  lemma PaddedRoundTrip(c: nat)
    ensures ToInt(Str(Padded(c))) == Ok(c)
  {
    var s := NatToString(c);
    NatToStringRoundTrip(c);
    if |s| < 2 {
      assert Padded(c) == Repeat('0', 2 - |s|) + s;
      ParseDigitsLeadingZeros(2 - |s|, s);
    }
  }

  /** One call of the chapter scraper: the parasha it is for (`Null` where
      the caller passes none), the padded chapter and the book. */
  datatype Request = Request(parasha: Value, chapter: string, book: Value)

  /** The requests for chapters `lo` to `hi` inclusive, in increasing order. */
  function ChapterRequests(parasha: Value, book: Value, lo: int, hi: int): (r: seq<Request>)
    ensures |r| == if hi < lo then 0 else hi - lo + 1
    ensures forall j :: 0 <= j < |r| ==> r[j] == Request(parasha, Padded(lo + j), book)
  {
    var n := if hi < lo then 0 else hi - lo + 1;
    seq(n, j requires 0 <= j < n => Request(parasha, Padded(lo + j), book))
  }

  /** The book and chapter range of an entry: `parasha["Book"]`,
      `int(parasha["Start"]["Chapter"])`, `int(parasha["End"]["Chapter"])`. */
  datatype Plan = Plan(book: Value, first: int, last: int)

  function PlanOf(p: Value): (r: Result<Plan>)
    ensures r.Ok? ==> Index(p, "Book") == Ok(r.value.book)
    ensures r.Ok? ==> Index2(p, "Start", "Chapter").Ok? && ToInt(Index2(p, "Start", "Chapter").value) == Ok(r.value.first)
    ensures r.Ok? ==> Index2(p, "End", "Chapter").Ok? && ToInt(Index2(p, "End", "Chapter").value) == Ok(r.value.last)
  {
    match Index(p, "Book")
    case Err(e) => Err(e)
    case Ok(book) =>
      match Index2(p, "Start", "Chapter")
      case Err(e) => Err(e)
      case Ok(sc) =>
        match ToInt(sc)
        case Err(e) => Err(e)
        case Ok(first) =>
          match Index2(p, "End", "Chapter")
          case Err(e) => Err(e)
          case Ok(ec) =>
            match ToInt(ec)
            case Err(e) => Err(e)
            case Ok(last) => Ok(Plan(book, first, last))
  }

  /** The scraper calls for the chapters of a plan, in order. */
  method RequestChapters(parasha: Value, plan: Plan) returns (requests: seq<Request>)
    ensures requests == ChapterRequests(parasha, plan.book, plan.first, plan.last)
  {
    requests := [];
    var current := plan.first;
    while current <= plan.last
      invariant plan.first <= current <= if plan.first <= plan.last then plan.last + 1 else plan.first
      invariant requests == ChapterRequests(parasha, plan.book, plan.first, current - 1)
      decreases plan.last - current
    {
      ChapterRequestsSnoc(parasha, plan.book, plan.first, current);
      requests := requests + [Request(parasha, Padded(current), plan.book)];
      current := current + 1;
    }
  }

  /** One more chapter adds one request at the end. */
  lemma ChapterRequestsSnoc(parasha: Value, book: Value, lo: int, hi: int)
    requires lo <= hi
    ensures ChapterRequests(parasha, book, lo, hi) ==
      ChapterRequests(parasha, book, lo, hi - 1) + [Request(parasha, Padded(hi), book)]
  {
    var a := ChapterRequests(parasha, book, lo, hi);
    var b := ChapterRequests(parasha, book, lo, hi - 1) + [Request(parasha, Padded(hi), book)];
    assert |a| == |b|;
    forall j | 0 <= j < |a| ensures a[j] == b[j] {
      if j == |a| - 1 {
        assert lo + j == hi;
      }
    }
  }

  /** The requests for the chapters of entry `p`, made under the name
      `parasha`, or the error reading its plan raises. */
  function PlanRequests(parasha: Value, p: Value): Result<seq<Request>> {
    match PlanOf(p)
    case Err(e) => Err(e)
    case Ok(plan) => Ok(ChapterRequests(parasha, plan.book, plan.first, plan.last))
  }

  /** The requests for the first entry named `parashaName`: its chapters,
      nothing when no entry has that name, or the first error raised. */
  function SpecificRequests(parashaName: string, parashot: seq<Value>): Result<seq<Request>> {
    match FirstNamed(parashaName, parashot, 0)
    case Err(e) => Err(e)
    case Ok(None) => Ok([])
    case Ok(Some(k)) => PlanRequests(Str(parashaName), parashot[k])
  }

  /** `process_specific_parasha`: the chapters of the first entry named
      `parasha_name`, and nothing when no entry has that name. */
  method ProcessSpecificParasha(parashaName: string, parashot: seq<Value>) returns (r: Result<seq<Request>>)
    ensures r == SpecificRequests(parashaName, parashot)
  {
    var i := 0;
    while i < |parashot|
      invariant 0 <= i <= |parashot|
      invariant FirstNamed(parashaName, parashot, 0) == FirstNamed(parashaName, parashot, i)
    {
      var n := Index(parashot[i], "Name");
      if n.Err? {
        return Err(n.error);
      }
      if n.value == Str(parashaName) {
        var plan := PlanOf(parashot[i]);
        if plan.Err? {
          return Err(plan.error);
        }
        var requests := RequestChapters(Str(parashaName), plan.value);
        return Ok(requests);
      }
      i := i + 1;
    }
    return Ok([]);
  }

  /** The requests `process_parashot_main` makes for the entries `ps` and the
      error that stopped it, if any; requests made before an error stand. */
  function AllRequests(ps: seq<Value>): (seq<Request>, Option<Error>)
    decreases |ps|
  {
    if ps == [] then ([], None)
    else
      var (done, stopped) := AllRequests(ps[..|ps| - 1]);
      if stopped.Some? then (done, stopped)
      else
        match EntryRequests(ps[|ps| - 1])
        case Err(e) => (done, Some(e))
        case Ok(rs) => (done + rs, None)
  }

  /** The requests one entry of the loop makes, or the error reading it
      raises: its "Name", then its plan. */
  function EntryRequests(p: Value): Result<seq<Request>> {
    match Index(p, "Name")
    case Err(e) => Err(e)
    case Ok(name) => PlanRequests(name, p)
  }

  /** One more entry: its requests are added, or its error stops the run. */
  lemma AllRequestsNext(ps: seq<Value>, i: nat)
    requires i < |ps| && AllRequests(ps[..i]).1.None?
    ensures AllRequests(ps[..i + 1]) ==
      match EntryRequests(ps[i])
      case Err(e) => (AllRequests(ps[..i]).0, Some(e))
      case Ok(rs) => (AllRequests(ps[..i]).0 + rs, None)
  {
    assert ps[..i + 1][..i] == ps[..i];
    assert ps[..i + 1][i] == ps[i];
  }

  /** The number of chapters of the entries `ps`. */
  function ChapterTotal(ps: seq<Value>): int
    decreases |ps|
  {
    if ps == [] then 0
    else
      var p := ps[|ps| - 1];
      ChapterTotal(ps[..|ps| - 1]) +
        if PlanOf(p).Ok? && PlanOf(p).value.first <= PlanOf(p).value.last
        then PlanOf(p).value.last - PlanOf(p).value.first + 1 else 0
  }

  /** Without an error, every chapter of every entry is requested once. */
  lemma {:induction false} AllRequestsCount(ps: seq<Value>)
    ensures AllRequests(ps).1.None? ==> |AllRequests(ps).0| == ChapterTotal(ps)
    decreases |ps|
  {
    if ps != [] {
      AllRequestsCount(ps[..|ps| - 1]);
    }
  }

  /** Once an entry cannot be read nothing more is requested. */
  lemma {:induction false} AllRequestsStop(ps: seq<Value>, m: nat)
    requires m <= |ps| && AllRequests(ps[..m]).1.Some?
    ensures AllRequests(ps) == AllRequests(ps[..m])
    decreases |ps| - m
  {
    if m < |ps| {
      assert ps[..m + 1][..m] == ps[..m];
      AllRequestsStop(ps, m + 1);
    } else {
      assert ps[..m] == ps;
    }
  }

  /** `process_parashot_main`: every entry in file order, every chapter of
      each, until an entry cannot be read. */
  method ProcessParashotMain(parashot: seq<Value>) returns (requests: seq<Request>, error: Option<Error>)
    ensures (requests, error) == AllRequests(parashot)
  {
    requests := [];
    error := None;
    var i := 0;
    while i < |parashot|
      invariant 0 <= i <= |parashot|
      invariant (requests, error) == AllRequests(parashot[..i]) && error.None?
    {
      var p := parashot[i];
      AllRequestsNext(parashot, i);
      var name := Index(p, "Name");
      if name.Err? {
        error := Some(name.error);
        AllRequestsStop(parashot, i + 1);
        return;
      }
      var plan := PlanOf(p);
      if plan.Err? {
        error := Some(plan.error);
        AllRequestsStop(parashot, i + 1);
        return;
      }
      var chapters := RequestChapters(name.value, plan.value);
      requests := requests + chapters;
      i := i + 1;
    }
    assert parashot[..i] == parashot;
  }

  /** The books `main_torah_book_eng` offers, in menu order, with the number
      of chapters it requests for each. */
  const TORAH_CHAPTERS: seq<(string, nat)> :=
    [("Genesis", 51), ("Exodus", 40), ("Leviticus", 27), ("Numbers", 36), ("Deuteronomy", 34)]

  /** The menu offers exactly the books that have a link text. */
  lemma MenuBooksHaveLinks()
    ensures forall i :: 0 <= i < |TORAH_CHAPTERS| ==> TORAH_CHAPTERS[i].0 in BOOK_LINKS
    ensures forall b :: b in BOOK_LINKS ==> exists i :: 0 <= i < |TORAH_CHAPTERS| && TORAH_CHAPTERS[i].0 == b
  {
    assert TORAH_CHAPTERS[0].0 == "Genesis";
    assert TORAH_CHAPTERS[1].0 == "Exodus";
    assert TORAH_CHAPTERS[2].0 == "Leviticus";
    assert TORAH_CHAPTERS[3].0 == "Numbers";
    assert TORAH_CHAPTERS[4].0 == "Deuteronomy";
  }

  /** `main_torah_book_eng` after the menu choice has been read: `ValueError`
      outside 1..5, otherwise chapters 1 to the book's count, in order. */
  method MainTorahBookEng(choice: int) returns (r: Result<seq<Request>>)
    ensures r.Err? <==> choice < 1 || choice > |TORAH_CHAPTERS|
    ensures r.Err? ==> r.error.ValueError?
    ensures r.Ok? ==> var (book, count) := TORAH_CHAPTERS[choice - 1];
      r.value == ChapterRequests(Null, Str(book), 1, count)
  {
    if choice < 1 || choice > |TORAH_CHAPTERS| {
      return Err(ValueError("Invalid choice. Please choose a number from the list."));
    }
    var (selectedBook, chapterRange) := TORAH_CHAPTERS[choice - 1];
    var requests: seq<Request> := [];
    var chapterNumber := 1;
    while chapterNumber <= chapterRange
      invariant 1 <= chapterNumber <= chapterRange + 1
      invariant requests == ChapterRequests(Null, Str(selectedBook), 1, chapterNumber - 1)
    {
      requests := requests + [Request(Null, Padded(chapterNumber), Str(selectedBook))];
      chapterNumber := chapterNumber + 1;
    }
    return Ok(requests);
  }
}
