/** Parasha records loaded from JSON: the verse-range test and the searches
    built on it (`utils/findParashFromVerse.py`, `utils/findParashaFromVerse.py`,
    `utils/json_funcs.py`), the update of the stored selection, and the merge
    of start/end data into the list of parasha names (`utils/merge_parasha.py`).
    A parasha is a JSON object with a "Book", a "Start" and an "End" object
    (each with a "Chapter" and a "Verse") and, in the names file, a
    "standard" name. */
module Parashot {
  import opened Wrappers
  import opened Json

  // ---------------------------------------------------------------------
  // Ranges of verses
  // ---------------------------------------------------------------------

  /** The first and last verse of a parasha. */
  datatype Span = Span(startChapter: int, startVerse: int, endChapter: int, endVerse: int)

  /** (a1, a2) <= (b1, b2) in lexicographic order. */
  predicate LexLe(a1: int, a2: int, b1: int, b2: int) {
    a1 < b1 || (a1 == b1 && a2 <= b2)
  }

  /** The verse lies between the first and last verse, both included. */
  predicate InSpan(chapter: int, verse: int, s: Span) {
    LexLe(s.startChapter, s.startVerse, chapter, verse) && LexLe(chapter, verse, s.endChapter, s.endVerse)
  }

  /** Both ends belong to a span that is not reversed. */
  lemma InSpanEnds(s: Span)
    requires LexLe(s.startChapter, s.startVerse, s.endChapter, s.endVerse)
    ensures InSpan(s.startChapter, s.startVerse, s) && InSpan(s.endChapter, s.endVerse, s)
  {
  }

  /** A span whose start lies after its end holds no verse. */
  lemma ReversedSpanEmpty(s: Span, chapter: int, verse: int)
    requires !LexLe(s.startChapter, s.startVerse, s.endChapter, s.endVerse)
    ensures !InSpan(chapter, verse, s)
  {
  }

  /** The four raw bound values of an entry, read in the order the code reads
      them: `p["Start"]`, `p["End"]`, then their "Chapter" and "Verse". */
  datatype Bounds = Bounds(startChapter: Value, startVerse: Value, endChapter: Value, endVerse: Value)

  function ReadBounds(p: Value): (r: Result<Bounds>)
    ensures r.Ok? ==> p.Dict? && "Start" in p.fields && "End" in p.fields
    ensures r.Ok? ==> Index(p.fields["Start"], "Chapter") == Ok(r.value.startChapter)
    ensures r.Ok? ==> Index(p.fields["Start"], "Verse") == Ok(r.value.startVerse)
    ensures r.Ok? ==> Index(p.fields["End"], "Chapter") == Ok(r.value.endChapter)
    ensures r.Ok? ==> Index(p.fields["End"], "Verse") == Ok(r.value.endVerse)
  {
    match Index(p, "Start")
    case Err(e) => Err(e)
    case Ok(start) =>
      match Index(p, "End")
      case Err(e) => Err(e)
      case Ok(end) =>
        match Index(start, "Chapter")
        case Err(e) => Err(e)
        case Ok(sc) =>
          match Index(start, "Verse")
          case Err(e) => Err(e)
          case Ok(sv) =>
            match Index(end, "Chapter")
            case Err(e) => Err(e)
            case Ok(ec) =>
              match Index(end, "Verse")
              case Err(e) => Err(e)
              case Ok(ev) => Ok(Bounds(sc, sv, ec, ev))
  }

  /** The same four bounds read in the order `get_parasha` reads them:
      `p["Start"]["Chapter"]`, `p["Start"]["Verse"]`, then the same for
      "End". On a well-formed entry it gives what `ReadBounds` gives; on a
      malformed one the first missing key may differ. */
  function ReadBoundsByField(p: Value): (r: Result<Bounds>)
    ensures r.Ok? <==> ReadBounds(p).Ok?
    ensures r.Ok? ==> r == ReadBounds(p)
  {
    match Index(p, "Start")
    case Err(e) => Err(e)
    case Ok(start) =>
      match Index(start, "Chapter")
      case Err(e) => Err(e)
      case Ok(sc) =>
        match Index(start, "Verse")
        case Err(e) => Err(e)
        case Ok(sv) =>
          match Index(p, "End")
          case Err(e) => Err(e)
          case Ok(end) =>
            match Index(end, "Chapter")
            case Err(e) => Err(e)
            case Ok(ec) =>
              match Index(end, "Verse")
              case Err(e) => Err(e)
              case Ok(ev) => Ok(Bounds(sc, sv, ec, ev))
  }

  /** The span of an entry whose four bounds are all numbers. */
  function SpanOf(p: Value): Option<Span> {
    match ReadBounds(p)
    case Err(_) => None
    case Ok(b) =>
      if Numeric(b.startChapter).Ok? && Numeric(b.startVerse).Ok? && Numeric(b.endChapter).Ok? && Numeric(b.endVerse).Ok?
      then Some(Span(Numeric(b.startChapter).value, Numeric(b.startVerse).value,
                     Numeric(b.endChapter).value, Numeric(b.endVerse).value))
      else None
  }

  /** `a < v` for an `int` a. */
  function Less(a: int, v: Value): (r: Result<bool>)
    ensures r.Ok? <==> Numeric(v).Ok?
    ensures r.Ok? ==> r.value == (a < Numeric(v).value)
  {
    match Numeric(v)
    case Err(e) => Err(e)
    case Ok(n) => Ok(a < n)
  }

  /** `a > v` for an `int` a. */
  function Greater(a: int, v: Value): (r: Result<bool>)
    ensures r.Ok? <==> Numeric(v).Ok?
    ensures r.Ok? ==> r.value == (a > Numeric(v).value)
  {
    match Numeric(v)
    case Err(e) => Err(e)
    case Ok(n) => Ok(a > n)
  }

  /** The entry's "Book" is `book`; `p.get("Book") != book` is its negation. */
  predicate BookIs(p: Value, book: string) {
    Get(p, "Book") == Ok(Str(book))
  }

  // ---------------------------------------------------------------------
  // is_verse_in_range and find_parasha
  // ---------------------------------------------------------------------

  /** `is_verse_in_range`: false at once for another book; otherwise the two
      lexicographic comparisons, each evaluated left to right as Python does,
      so that a bound that is not a number raises `TypeError` only when it is
      compared. */
  function IsVerseInRange(book: string, chapter: int, verse: int, p: Value): (r: Result<bool>)
    ensures Get(p, "Book").Ok? && !BookIs(p, book) ==> r == Ok(false)
    ensures SpanOf(p).Some? && p.Dict? ==> r == Ok(BookIs(p, book) && InSpan(chapter, verse, SpanOf(p).value))
    ensures r.Err? ==> !p.Dict? || (BookIs(p, book) && SpanOf(p).None?)
  {
    match Get(p, "Book")
    case Err(e) => Err(e)
    case Ok(b) =>
      if b != Str(book) then Ok(false)
      else
        match ReadBounds(p)
        case Err(e) => Err(e)
        case Ok(q) =>
          match Less(chapter, q.startChapter)
          case Err(e) => Err(e)
          case Ok(before) =>
            if before then Ok(false)
            else if EqualsInt(chapter, q.startChapter) && Less(verse, q.startVerse).Err? then Err(Less(verse, q.startVerse).error)
            else if EqualsInt(chapter, q.startChapter) && Less(verse, q.startVerse).value then Ok(false)
            else
              match Greater(chapter, q.endChapter)
              case Err(e) => Err(e)
              case Ok(after) =>
                if after then Ok(false)
                else if EqualsInt(chapter, q.endChapter) && Greater(verse, q.endVerse).Err? then Err(Greater(verse, q.endVerse).error)
                else if EqualsInt(chapter, q.endChapter) && Greater(verse, q.endVerse).value then Ok(false)
                else Ok(true)
  }

  /** The index of the first entry from `i` on that holds the verse, or the
      error the first failing test raises before one is found. */
  function FirstInRange(book: string, chapter: int, verse: int, ps: seq<Value>, i: nat): (r: Result<Option<nat>>)
    requires i <= |ps|
    ensures r.Ok? && r.value.Some? ==> i <= r.value.value < |ps|
    decreases |ps| - i
  {
    if i == |ps| then Ok(None)
    else
      match IsVerseInRange(book, chapter, verse, ps[i])
      case Err(e) => Err(e)
      case Ok(found) => if found then Ok(Some(i)) else FirstInRange(book, chapter, verse, ps, i + 1)
  }

  /** What the search finds: an index holding the verse with every entry
      before it from `i` on tested false, nothing when all are tested false,
      or an error some entry's test raises. */
  lemma FirstInRangeSpec(book: string, chapter: int, verse: int, ps: seq<Value>, i: nat)
    requires i <= |ps|
    ensures var r := FirstInRange(book, chapter, verse, ps, i);
      && (r.Ok? && r.value.Some? ==>
            IsVerseInRange(book, chapter, verse, ps[r.value.value]) == Ok(true))
      && (r.Ok? ==> forall j :: i <= j < (if r.value.Some? then r.value.value else |ps|) ==>
            IsVerseInRange(book, chapter, verse, ps[j]) == Ok(false))
      && (r.Err? ==> exists j :: i <= j < |ps| && IsVerseInRange(book, chapter, verse, ps[j]) == Err(r.error))
  {
    FirstInRangeFound(book, chapter, verse, ps, i);
    FirstInRangeSkipped(book, chapter, verse, ps, i);
    FirstInRangeError(book, chapter, verse, ps, i);
  }

  lemma {:induction false} FirstInRangeFound(book: string, chapter: int, verse: int, ps: seq<Value>, i: nat)
    requires i <= |ps|
    ensures var r := FirstInRange(book, chapter, verse, ps, i);
      r.Ok? && r.value.Some? ==> IsVerseInRange(book, chapter, verse, ps[r.value.value]) == Ok(true)
    decreases |ps| - i
  {
    if i < |ps| && IsVerseInRange(book, chapter, verse, ps[i]) == Ok(false) {
      FirstInRangeFound(book, chapter, verse, ps, i + 1);
    }
  }

  lemma {:induction false} FirstInRangeSkipped(book: string, chapter: int, verse: int, ps: seq<Value>, i: nat)
    requires i <= |ps|
    ensures var r := FirstInRange(book, chapter, verse, ps, i);
      r.Ok? ==> forall j :: i <= j < (if r.value.Some? then r.value.value else |ps|) ==>
        IsVerseInRange(book, chapter, verse, ps[j]) == Ok(false)
    decreases |ps| - i
  {
    if i < |ps| && IsVerseInRange(book, chapter, verse, ps[i]) == Ok(false) {
      FirstInRangeSkipped(book, chapter, verse, ps, i + 1);
    }
  }

  lemma {:induction false} FirstInRangeError(book: string, chapter: int, verse: int, ps: seq<Value>, i: nat)
    requires i <= |ps|
    ensures var r := FirstInRange(book, chapter, verse, ps, i);
      r.Err? ==> exists j :: i <= j < |ps| && IsVerseInRange(book, chapter, verse, ps[j]) == Err(r.error)
    decreases |ps| - i
  {
    if i < |ps| && IsVerseInRange(book, chapter, verse, ps[i]) == Ok(false) {
      FirstInRangeError(book, chapter, verse, ps, i + 1);
    }
  }

  /** `find_parasha` over the loaded "ParashaNames" list: the "standard" name
      of the first entry that holds the verse, `None` (here `Null`) when none
      does; `KeyError` when that entry has no "standard". */
  method FindParasha(book: string, chapter: int, verse: int, parashot: seq<Value>) returns (r: Result<Value>)
    ensures r == match FirstInRange(book, chapter, verse, parashot, 0)
                 case Err(e) => Err(e)
                 case Ok(None) => Ok(Null)
                 case Ok(Some(k)) => Index(parashot[k], "standard")
  {
    var i := 0;
    while i < |parashot|
      invariant 0 <= i <= |parashot|
      invariant FirstInRange(book, chapter, verse, parashot, 0) == FirstInRange(book, chapter, verse, parashot, i)
    {
      var test := IsVerseInRange(book, chapter, verse, parashot[i]);
      if test.Err? {
        return Err(test.error);
      }
      if test.value {
        return Index(parashot[i], "standard");
      }
      i := i + 1;
    }
    return Ok(Null);
  }

  // ---------------------------------------------------------------------
  // get_parasha
  // ---------------------------------------------------------------------

  /** `chapter > v`, or equal and `verse >= w`: the first half of the test in
      `get_parasha`, evaluated left to right. */
  function AtOrAfter(chapter: int, verse: int, v: Value, w: Value): (r: Result<bool>)
    ensures Numeric(v).Ok? && Numeric(w).Ok? ==> r == Ok(LexLe(Numeric(v).value, Numeric(w).value, chapter, verse))
  {
    match Less(chapter, v)
    case Err(e) => Err(e)
    case Ok(_) =>
      if chapter > Numeric(v).value then Ok(true)
      else if !EqualsInt(chapter, v) then Ok(false)
      else
        match Less(verse, w)
        case Err(e) => Err(e)
        case Ok(below) => Ok(!below)
  }

  /** `chapter < v`, or equal and `verse <= w`: the second half. */
  function AtOrBefore(chapter: int, verse: int, v: Value, w: Value): (r: Result<bool>)
    ensures Numeric(v).Ok? && Numeric(w).Ok? ==> r == Ok(LexLe(chapter, verse, Numeric(v).value, Numeric(w).value))
  {
    match Less(chapter, v)
    case Err(e) => Err(e)
    case Ok(below) =>
      if below then Ok(true)
      else if !EqualsInt(chapter, v) then Ok(false)
      else
        match Greater(verse, w)
        case Err(e) => Err(e)
        case Ok(above) => Ok(!above)
  }

  /** `get_parasha`: entries of another book are skipped; the first entry
      whose range holds the verse gives `p.get("standard")`; `None` (here
      `Null`) when no entry does. */
  function GetParasha(book: string, chapter: int, verse: int, ps: seq<Value>): Result<Value>
    decreases |ps|
  {
    if ps == [] then Ok(Null)
    else
      var p := ps[0];
      match Get(p, "Book")
      case Err(e) => Err(e)
      case Ok(b) =>
        if b != Str(book) then GetParasha(book, chapter, verse, ps[1..])
        else
          match ReadBoundsByField(p)
          case Err(e) => Err(e)
          case Ok(q) =>
            match AtOrAfter(chapter, verse, q.startChapter, q.startVerse)
            case Err(e) => Err(e)
            case Ok(fromStart) =>
              if !fromStart then GetParasha(book, chapter, verse, ps[1..])
              else
                match AtOrBefore(chapter, verse, q.endChapter, q.endVerse)
                case Err(e) => Err(e)
                case Ok(toEnd) =>
                  if toEnd then Get(p, "standard") else GetParasha(book, chapter, verse, ps[1..])
  }

  /** An entry both searches can read: a JSON object whose four bounds are
      numbers whenever its book is the one asked for. */
  predicate Readable(book: string, p: Value) {
    p.Dict? && (BookIs(p, book) ==> SpanOf(p).Some?)
  }

  /** On readable entries the two searches agree: `get_parasha` finds the
      entry `find_parasha` finds, and gives `None` where `find_parasha` would
      raise `KeyError` for a missing "standard". */
  lemma {:induction false} GetParashaAgrees(book: string, chapter: int, verse: int, ps: seq<Value>, i: nat)
    requires i <= |ps|
    requires forall k :: i <= k < |ps| ==> Readable(book, ps[k])
    ensures FirstInRange(book, chapter, verse, ps, i).Ok?
    ensures GetParasha(book, chapter, verse, ps[i..]) ==
      match FirstInRange(book, chapter, verse, ps, i)
      case Ok(Some(k)) => Get(ps[k], "standard")
      case _ => Ok(Null)
    decreases |ps| - i
  {
    if i < |ps| {
      var p := ps[i];
      assert ps[i..][0] == p && ps[i..][1..] == ps[i + 1..];
      GetParashaAgrees(book, chapter, verse, ps, i + 1);
      if BookIs(p, book) {
        var q := ReadBounds(p).value;
        var s := SpanOf(p).value;
        assert AtOrAfter(chapter, verse, q.startChapter, q.startVerse) == Ok(LexLe(s.startChapter, s.startVerse, chapter, verse));
        assert AtOrBefore(chapter, verse, q.endChapter, q.endVerse) == Ok(LexLe(chapter, verse, s.endChapter, s.endVerse));
      }
    }
  }

  /** Where the two searches part ways: an entry of the book asked for, with
      no "End" and a "Start" that lacks a "Verse", makes `get_parasha` raise
      `KeyError('Verse')` and `is_verse_in_range` raise `KeyError('End')`. */
  lemma ReadOrderDiffers(book: string, chapter: int, verse: int, p: map<string, Value>, start: map<string, Value>)
    requires "Book" in p && p["Book"] == Str(book)
    requires "Start" in p && p["Start"] == Dict(start) && "End" !in p
    requires "Chapter" in start && "Verse" !in start
    ensures GetParasha(book, chapter, verse, [Dict(p)]) == Err(KeyError("Verse"))
    ensures IsVerseInRange(book, chapter, verse, Dict(p)) == Err(KeyError("End"))
    ensures FirstInRange(book, chapter, verse, [Dict(p)], 0) == Err(KeyError("End"))
  {
  }

  // ---------------------------------------------------------------------
  // set_parasha_json
  // ---------------------------------------------------------------------

  /** `set_parasha_json`: `loaded` is the document read from the file, `None`
      when reading or decoding it fails. The result is whether the update
      succeeded and the document written back. Only a JSON object accepts
      `data['parasha'] = parasha`; anything else raises, which the function
      turns into `False`. */
  function SetParashaJson(loaded: Option<Value>, parasha: Value): (r: (bool, Option<Value>))
    ensures r.0 <==> loaded.Some? && loaded.value.Dict?
    ensures !r.0 ==> r.1 == None
    ensures r.0 ==> r.1.Some? && r.1.value.Dict?
    ensures r.0 ==> var before := loaded.value.fields; var after := r.1.value.fields;
      && "parasha" in after && after["parasha"] == parasha
      && (forall k :: k in after && k != "parasha" ==> k in before && after[k] == before[k])
      && (forall k :: k in before ==> k in after)
  {
    if loaded.Some? && loaded.value.Dict? then
      (true, Some(Dict(loaded.value.fields["parasha" := parasha])))
    else (false, None)
  }

  // ---------------------------------------------------------------------
  // merge_parasha_files
  // ---------------------------------------------------------------------

  /** Values Python can use as `dict` keys: everything but lists and objects. */
  predicate Hashable(v: Value) {
    !v.List? && !v.Dict?
  }

  /** The "Start" and "End" objects of a parasha. */
  datatype StartEnd = StartEnd(start: Value, end: Value)

  /** An entry of the details file the lookup table can be built from. */
  predicate Detail(p: Value) {
    p.Dict? && "Name" in p.fields && Hashable(p.fields["Name"]) && "Start" in p.fields && "End" in p.fields
  }

  /** The "Name" of a detail entry. */
  function NameOf(p: Value): Value
    requires Detail(p)
  {
    p.fields["Name"]
  }

  /** The table row a detail entry gives. */
  function RowOf(p: Value): StartEnd
    requires Detail(p)
  {
    StartEnd(p.fields["Start"], p.fields["End"])
  }

  /** The lookup table `{p['Name']: {'Start': ..., 'End': ...}}`, built in
      list order, so that a later entry with the same name replaces an
      earlier one. Key and value are evaluated before the key is hashed, so a
      missing "Start" or "End" is reported ahead of an unhashable name. */
  function StartEndMap(details: seq<Value>): (r: Result<map<Value, StartEnd>>)
    decreases |details|
  {
    if details == [] then Ok(map[])
    else
      var front := details[..|details| - 1];
      var p := details[|details| - 1];
      match StartEndMap(front)
      case Err(e) => Err(e)
      case Ok(m) =>
        if !Detail(p) then
          if !p.Dict? then Err(TypeError("list indices must be integers"))
          else if "Name" !in p.fields then Err(KeyError("Name"))
          else if "Start" !in p.fields then Err(KeyError("Start"))
          else if "End" !in p.fields then Err(KeyError("End"))
          else Err(TypeError("unhashable type"))
        else Ok(m[NameOf(p) := RowOf(p)])
  }

  /** The table is built exactly when every entry is a detail, and its keys
      are the entries' names. */
  lemma {:induction false} StartEndMapSpec(details: seq<Value>)
    ensures var r := StartEndMap(details);
      && (r.Ok? <==> forall k :: 0 <= k < |details| ==> Detail(details[k]))
      && (r.Ok? ==> forall k :: 0 <= k < |details| ==> NameOf(details[k]) in r.value)
      && (r.Ok? ==> forall n :: n in r.value ==> exists k :: 0 <= k < |details| && NameOf(details[k]) == n)
    decreases |details|
  {
    if details != [] {
      var front := details[..|details| - 1];
      StartEndMapSpec(front);
      assert forall k :: 0 <= k < |front| ==> front[k] == details[k];
    }
  }

  /** An entry with an unhashable name and no "Start" fails on the missing
      key, not on the name. */
  lemma StartEndMapMissingStart(p: map<string, Value>)
    requires "Name" in p && !Hashable(p["Name"]) && "Start" !in p
    ensures StartEndMap([Dict(p)]) == Err(KeyError("Start"))
  {
    assert [Dict(p)][..0] == [];
  }

  /** The last entry with a given name decides its row of the table. */
  lemma {:induction false} StartEndMapLastWins(details: seq<Value>, k: nat)
    requires forall j :: 0 <= j < |details| ==> Detail(details[j])
    requires k < |details|
    requires forall j :: k < j < |details| ==> NameOf(details[j]) != NameOf(details[k])
    ensures StartEndMap(details).Ok? && NameOf(details[k]) in StartEndMap(details).value
    ensures StartEndMap(details).value[NameOf(details[k])] == RowOf(details[k])
    decreases |details|
  {
    var front := details[..|details| - 1];
    assert forall j :: 0 <= j < |front| ==> front[j] == details[j];
    StartEndMapSpec(front);
    if k < |details| - 1 {
      StartEndMapLastWins(front, k);
    }
  }

  /** One entry of the names list after the merge: its "standard" name looked
      up in the table; Start and End replaced when found, the entry as it was
      otherwise. */
  function Enrich(p: Value, table: map<Value, StartEnd>): (r: Result<Value>)
    ensures r.Ok? <==> p.Dict? && "standard" in p.fields && Hashable(p.fields["standard"])
    ensures r.Ok? && p.fields["standard"] !in table ==> r.value == p
    ensures r.Ok? && p.fields["standard"] in table ==>
      r.value.Dict? && var e := table[p.fields["standard"]]; var f := r.value.fields;
      && "Start" in f && f["Start"] == e.start && "End" in f && f["End"] == e.end
      && (forall key :: key in p.fields ==> key in f)
      && (forall key :: key in f && key != "Start" && key != "End" ==> key in p.fields && f[key] == p.fields[key])
  {
    match Index(p, "standard")
    case Err(e) => Err(e)
    case Ok(name) =>
      if !Hashable(name) then Err(TypeError("unhashable type"))
      else if name in table then
        var e := table[name];
        Ok(Dict(p.fields["Start" := e.start]["End" := e.end]))
      else Ok(p)
  }

  /** `merge_parasha_files` on the two loaded lists: the names list with
      every entry enriched, in order, or the first error raised (in which
      case nothing is written). */
  method MergeParashaFiles(names: seq<Value>, details: seq<Value>) returns (r: Result<seq<Value>>)
    ensures r.Err? <==>
      StartEndMap(details).Err? || exists i :: 0 <= i < |names| && Enrich(names[i], StartEndMap(details).value).Err?
    ensures r.Ok? ==>
      |r.value| == |names| && forall i :: 0 <= i < |names| ==> Enrich(names[i], StartEndMap(details).value) == Ok(r.value[i])
  {
    var table := StartEndMap(details);
    if table.Err? {
      return Err(table.error);
    }
    var out: seq<Value> := [];
    var i := 0;
    while i < |names|
      invariant 0 <= i <= |names| && |out| == i
      invariant forall j :: 0 <= j < i ==> Enrich(names[j], table.value) == Ok(out[j])
    {
      var enriched := Enrich(names[i], table.value);
      if enriched.Err? {
        return Err(enriched.error);
      }
      out := out + [enriched.value];
      i := i + 1;
    }
    return Ok(out);
  }
}
