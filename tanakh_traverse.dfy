/** The chapter and verse ranges that `traverse_tanakh_scraper`
    (`torah_web_scraper/getHebTanakh.py`) hands to the scraper, one visit per
    chapter, for the books and chapters of the loaded outline. */
module TanakhTraverse {
  import opened Wrappers
  import opened Strings
  import opened Json

  /** A chapter argument as the program passes it: absent, a number taken
      from the parasha file, or the text typed at a prompt. */
  datatype Choice = NoChoice | IntChoice(n: int) | TextChoice(s: string)

  /** Python truthiness of a chapter argument. */
  predicate Truthy(c: Choice) {
    match c
    case NoChoice => false
    case IntChoice(n) => n != 0
    case TextChoice(s) => s != []
  }

  /** `int(c)`. */
  function AsInt(c: Choice): (r: Result<int>)
    ensures c.IntChoice? ==> r == Ok(c.n)
    ensures c.TextChoice? ==> r == ToInt(Str(c.s))
    ensures c.NoChoice? ==> r.Err? && r.error.TypeError?
  {
    match c
    case NoChoice => Err(TypeError("int() argument must be a string or a number, not 'NoneType'"))
    case IntChoice(n) => Ok(n)
    case TextChoice(s) => ToInt(Str(s))
  }

  /** `current_chapter == choice`, with `current_chapter` an int: text is
      never equal to a number. */
  predicate SameAs(current: int, c: Choice) {
    c.IntChoice? && c.n == current
  }

  /** The arguments of a traversal. */
  datatype Query = Query(
    book: Option<string>,
    chapterChoice: Choice,
    endChapterChoice: Choice,
    startVerseChoice: Option<int>,
    endVerseChoice: Option<int>)

  /** One call of the scraper: a book, a chapter and its verse range. */
  datatype Visit = Visit(book: string, chapter: int, startVerse: Option<int>, endVerse: Option<int>)

  /** What happens to one chapter of the outline. */
  datatype Decision = Skip | Stop | Fail(error: Error) | Go(visit: Visit)

  /** A book is passed over when a non-empty book name is asked for and this
      is another one. */
  predicate SkipsBook(name: string, q: Query) {
    q.book.Some? && q.book.value != [] && name != q.book.value
  }

  /** The verse range of a visited chapter: the chosen start verse only on
      the chapter equal to the start choice, the chosen end verse only on the
      chapter equal to the end choice. */
  function VisitFor(book: string, current: int, count: int, q: Query): (v: Visit)
    ensures v.book == book && v.chapter == current
    ensures v.startVerse == (if SameAs(current, q.chapterChoice) then q.startVerseChoice else Some(1))
    ensures v.endVerse == (if SameAs(current, q.endChapterChoice) then q.endVerseChoice else Some(count))
  {
    Visit(book, current,
          if SameAs(current, q.chapterChoice) then q.startVerseChoice else Some(1),
          if SameAs(current, q.endChapterChoice) then q.endVerseChoice else Some(count))
  }

  /** One pass of the inner loop, in the order the conditions are evaluated:
      the chapter key is read as a number, chapters before the start choice
      are skipped, a chapter past the end choice ends the book, and any
      failed `int()` raises. */
  function Decide(book: string, key: string, count: int, q: Query): (d: Decision)
    ensures d.Go? ==> d.visit == VisitFor(book, d.visit.chapter, count, q) && ToInt(Str(key)) == Ok(d.visit.chapter)
    ensures d.Go? && Truthy(q.chapterChoice) ==>
      AsInt(q.chapterChoice).Ok? && AsInt(q.chapterChoice).value <= d.visit.chapter
    ensures d.Go? && Truthy(q.endChapterChoice) ==>
      AsInt(q.endChapterChoice).Ok? && d.visit.chapter <= AsInt(q.endChapterChoice).value
    ensures d.Stop? ==>
      Truthy(q.endChapterChoice) && AsInt(q.endChapterChoice).Ok? &&
      ToInt(Str(key)).Ok? && ToInt(Str(key)).value > AsInt(q.endChapterChoice).value
    ensures d.Skip? ==>
      Truthy(q.chapterChoice) && AsInt(q.chapterChoice).Ok? &&
      ToInt(Str(key)).Ok? && ToInt(Str(key)).value < AsInt(q.chapterChoice).value
    ensures d.Fail? <==>
      ToInt(Str(key)).Err? ||
      (Truthy(q.chapterChoice) && AsInt(q.chapterChoice).Err?) ||
      (Truthy(q.endChapterChoice) && AsInt(q.endChapterChoice).Err? &&
       !(Truthy(q.chapterChoice) && ToInt(Str(key)).value < AsInt(q.chapterChoice).value))
  {
    match ToInt(Str(key))
    case Err(e) => Fail(e)
    case Ok(current) =>
      if Truthy(q.chapterChoice) && AsInt(q.chapterChoice).Err? then Fail(AsInt(q.chapterChoice).error)
      else if Truthy(q.chapterChoice) && current < AsInt(q.chapterChoice).value then Skip
      else if Truthy(q.endChapterChoice) && AsInt(q.endChapterChoice).Err? then Fail(AsInt(q.endChapterChoice).error)
      else if Truthy(q.endChapterChoice) && current > AsInt(q.endChapterChoice).value then Stop
      else Go(VisitFor(book, current, count, q))
  }

  /** The visits made and the error, if any, that ended the traversal. */
  datatype Outcome = Outcome(visits: seq<Visit>, error: Option<Error>)

  /** Visits already made, followed by what the rest of the traversal does. */
  function Prepend(visits: seq<Visit>, o: Outcome): Outcome {
    Outcome(visits + o.visits, o.error)
  }

  /** The chapters of one book, from the front. */
  function ChapterScan(book: string, chapters: seq<(string, int)>, q: Query): Outcome
    decreases |chapters|
  {
    if chapters == [] then Outcome([], None)
    else
      match Decide(book, chapters[0].0, chapters[0].1, q)
      case Skip => ChapterScan(book, chapters[1..], q)
      case Stop => Outcome([], None)
      case Fail(e) => Outcome([], Some(e))
      case Go(v) => Prepend([v], ChapterScan(book, chapters[1..], q))
  }

  /** All books, from the front; an error ends the whole traversal, a stop
      ends only the book it occurs in. */
  function BookScan(books: seq<(string, seq<(string, int)>)>, q: Query): Outcome
    decreases |books|
  {
    if books == [] then Outcome([], None)
    else if SkipsBook(books[0].0, q) then BookScan(books[1..], q)
    else
      var o := ChapterScan(books[0].0, books[0].1, q);
      if o.error.Some? then o else Prepend(o.visits, BookScan(books[1..], q))
  }

  /** The body of the inner loop for one chapter: `continue` comes back as
      `Skip`, `break` as `Stop`, a raised error as `Fail`. */
  method DecideChapter(book: string, key: string, count: int, q: Query) returns (d: Decision)
    ensures d == Decide(book, key, count, q)
  {
    var parsed := ToInt(Str(key));
    if parsed.Err? {
      return Fail(parsed.error);
    }
    var current := parsed.value;
    if Truthy(q.chapterChoice) {
      var first := AsInt(q.chapterChoice);
      if first.Err? {
        return Fail(first.error);
      }
      if current < first.value {
        return Skip;
      }
    }
    if Truthy(q.endChapterChoice) {
      var last := AsInt(q.endChapterChoice);
      if last.Err? {
        return Fail(last.error);
      }
      if current > last.value {
        return Stop;
      }
    }
    var startVerse := if SameAs(current, q.chapterChoice) then q.startVerseChoice else Some(1);
    var endVerse := if SameAs(current, q.endChapterChoice) then q.endVerseChoice else Some(count);
    d := Go(Visit(book, current, startVerse, endVerse));
  }

  /** The inner loop over one book's chapters, with its `continue` and its
      `break`; a failed `int()` leaves the loop with the error. */
  method ScanChapters(book: string, chapters: seq<(string, int)>, q: Query)
    returns (visits: seq<Visit>, error: Option<Error>)
    ensures Outcome(visits, error) == ChapterScan(book, chapters, q)
  {
    visits := [];
    error := None;
    var j := 0;
    while j < |chapters|
      invariant 0 <= j <= |chapters|
      invariant ChapterScan(book, chapters, q) == Prepend(visits, ChapterScan(book, chapters[j..], q))
    {
      assert chapters[j..][1..] == chapters[j + 1..];
      var d := DecideChapter(book, chapters[j].0, chapters[j].1, q);
      if d.Fail? {
        assert visits + [] == visits;
        error := Some(d.error);
        return;
      }
      if d.Skip? {
        j := j + 1;
        continue;
      }
      if d.Stop? {
        assert visits + [] == visits;
        break;
      }
      ghost var rest := ChapterScan(book, chapters[j + 1..], q);
      assert visits + ([d.visit] + rest.visits) == (visits + [d.visit]) + rest.visits;
      visits := visits + [d.visit];
      j := j + 1;
    }
    assert visits + [] == visits;
  }

  /** `traverse_tanakh_scraper` over the loaded outline: books not asked for
      are passed over, each other book's chapters are scanned, and the first
      error ends the traversal with the visits made so far. */
  method TraverseTanakhScraper(books: seq<(string, seq<(string, int)>)>, q: Query)
    returns (visits: seq<Visit>, error: Option<Error>)
    ensures Outcome(visits, error) == BookScan(books, q)
  {
    visits := [];
    error := None;
    var i := 0;
    while i < |books|
      invariant 0 <= i <= |books|
      invariant BookScan(books, q) == Prepend(visits, BookScan(books[i..], q))
    {
      assert books[i..][1..] == books[i + 1..];
      if SkipsBook(books[i].0, q) {
        i := i + 1;
        continue;
      }
      var found, err := ScanChapters(books[i].0, books[i].1, q);
      if err.Some? {
        visits := visits + found;
        error := err;
        return;
      }
      ghost var rest := BookScan(books[i + 1..], q);
      assert visits + (found + rest.visits) == (visits + found) + rest.visits;
      visits := visits + found;
      i := i + 1;
    }
    assert visits + [] == visits;
  }

  /** What every visit satisfies, whatever the outline holds. */
  predicate Allowed(v: Visit, q: Query) {
    (Truthy(q.chapterChoice) ==> AsInt(q.chapterChoice).Ok? && AsInt(q.chapterChoice).value <= v.chapter) &&
    (Truthy(q.endChapterChoice) ==> AsInt(q.endChapterChoice).Ok? && v.chapter <= AsInt(q.endChapterChoice).value) &&
    v.startVerse == (if SameAs(v.chapter, q.chapterChoice) then q.startVerseChoice else Some(1)) &&
    (SameAs(v.chapter, q.endChapterChoice) ==> v.endVerse == q.endVerseChoice) &&
    (q.book.Some? && q.book.value != [] ==> v.book == q.book.value)
  }

  lemma {:induction false} ChapterScanAllowed(book: string, chapters: seq<(string, int)>, q: Query)
    requires !SkipsBook(book, q)
    ensures forall k :: 0 <= k < |ChapterScan(book, chapters, q).visits| ==>
      Allowed(ChapterScan(book, chapters, q).visits[k], q)
    decreases |chapters|
  {
    if chapters != [] {
      ChapterScanAllowed(book, chapters[1..], q);
    }
  }

  /** Every visit lies between the chapter choices, starts at the chosen
      verse exactly on the chapter equal to the start choice and at verse 1
      elsewhere, and belongs to the book asked for. */
  lemma {:induction false} TraversalAllowed(books: seq<(string, seq<(string, int)>)>, q: Query)
    ensures forall k :: 0 <= k < |BookScan(books, q).visits| ==> Allowed(BookScan(books, q).visits[k], q)
    decreases |books|
  {
    if books != [] {
      TraversalAllowed(books[1..], q);
      if !SkipsBook(books[0].0, q) {
        ChapterScanAllowed(books[0].0, books[0].1, q);
      }
    }
  }

  /** A chapter past the end choice ends its book: nothing after it is
      visited, whatever follows. */
  lemma {:induction false} ChapterScanStops(book: string, chapters: seq<(string, int)>, k: nat, q: Query)
    requires k < |chapters| && Decide(book, chapters[k].0, chapters[k].1, q).Stop?
    ensures ChapterScan(book, chapters, q) == ChapterScan(book, chapters[..k], q)
    decreases k
  {
    if k == 0 {
      assert chapters[..0] == [];
    } else {
      assert chapters[..k][1..] == chapters[1..][..k - 1];
      ChapterScanStops(book, chapters[1..], k - 1, q);
    }
  }

  /** A chapter typed at the prompt is text, never equal to a chapter
      number, so every visit starts at verse 1 whatever start verse was
      chosen. */
  lemma TypedChapterStartsAtOne(books: seq<(string, seq<(string, int)>)>, q: Query)
    requires q.chapterChoice.TextChoice?
    ensures forall k :: 0 <= k < |BookScan(books, q).visits| ==> BookScan(books, q).visits[k].startVerse == Some(1)
  {
    TraversalAllowed(books, q);
  }

  /** Genesis 3:5-8 asked for at the prompt: the chapter arrives as the
      text "3" and the end chapter as the number 3, and the visit made is
      Genesis 3:1-8. */
  lemma TypedChapterExample()
    ensures BookScan([("Genesis", [("3", 24)])], Query(Some("Genesis"), TextChoice("3"), IntChoice(3), Some(5), Some(8)))
         == Outcome([Visit("Genesis", 3, Some(1), Some(8))], None)
  {
    var q := Query(Some("Genesis"), TextChoice("3"), IntChoice(3), Some(5), Some(8));
    assert ParseDigits("3") == 3 by {
      assert "3"[..0] == [];
    }
    assert AsInt(q.chapterChoice) == Ok(3);
    assert Decide("Genesis", "3", 24, q) == Go(Visit("Genesis", 3, Some(1), Some(8)));
    assert [("3", 24)][1..] == [];
    assert [("Genesis", [("3", 24)])][1..] == [];
  }

  /** The start verse meant by the traversal: the chosen one on the chapter
      whose number the start choice denotes, whether given as a number or as
      text. */
  function IntendedStartVerse(current: int, q: Query): (r: Option<int>)
    ensures AsInt(q.chapterChoice) == Ok(current) ==> r == q.startVerseChoice
    ensures AsInt(q.chapterChoice) != Ok(current) ==> r == Some(1)
  {
    if AsInt(q.chapterChoice) == Ok(current) then q.startVerseChoice else Some(1)
  }

  /** The intended start verse agrees with the traversal whenever the
      choice is a number, and honours a typed chapter too. */
  lemma IntendedStartVerseAgrees(current: int, q: Query)
    ensures q.chapterChoice.IntChoice? ==>
      IntendedStartVerse(current, q) == VisitFor("", current, 0, q).startVerse
    ensures current >= 0 && q.chapterChoice == TextChoice(NatToString(current)) ==>
      IntendedStartVerse(current, q) == q.startVerseChoice
  {
    if current >= 0 && q.chapterChoice == TextChoice(NatToString(current)) {
      ToIntOfRendered(current);
    }
  }
}
