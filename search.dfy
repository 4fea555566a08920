/** The search bar's substring filter (`torah_search_bar/search_engine.py`)
    and its selection file update (`torah_search_bar/gui_utils.py`). */
module Search {
  import opened Wrappers
  import opened Strings
  import opened Json

  // ---------------------------------------------------------------------
  // search_data
  // ---------------------------------------------------------------------

  /** A loaded record: its keys and values in insertion order. `show` below
      is `str()` of a value. */
  type Item<V> = seq<(string, V)>

  /** The lower-cased query occurs in the lower-cased rendering of the
      field's value. */
  predicate FieldMatches<V>(field: (string, V), q: string, show: V -> string) {
    Contains(Lower(show(field.1)), q)
  }

  /** Some field of the item matches. */
  predicate Matches<V>(item: Item<V>, q: string, show: V -> string) {
    exists k :: 0 <= k < |item| && FieldMatches(item[k], q, show)
  }

  /** The matching items, each once, in their original order. */
  function Hits<V>(data: seq<Item<V>>, q: string, show: V -> string): (r: seq<Item<V>>)
    ensures |r| <= |data|
    ensures forall i :: 0 <= i < |r| ==> r[i] in data && Matches(r[i], q, show)
    ensures forall i :: 0 <= i < |data| ==> (data[i] in r <==> Matches(data[i], q, show))
  {
    if data == [] then []
    else
      var front := data[..|data| - 1];
      var last := data[|data| - 1];
      assert data == front + [last];
      Hits(front, q, show) + (if Matches(last, q, show) then [last] else [])
  }

  /** Filtering keeps data order: the hits of two lists in a row are the
      hits of the first followed by the hits of the second. */
  lemma {:induction false} HitsAppend<V>(a: seq<Item<V>>, b: seq<Item<V>>, q: string, show: V -> string)
    ensures Hits(a + b, q, show) == Hits(a, q, show) + Hits(b, q, show)
    decreases |b|
  {
    if b == [] {
      assert a + b == a;
    } else {
      var front := b[..|b| - 1];
      assert (a + b)[..|a + b| - 1] == a + front;
      HitsAppend(a, front, q, show);
    }
  }

  /** The inner loop: walks the fields and stops at the first match. */
  method AnyFieldMatches<V>(item: Item<V>, q: string, show: V -> string) returns (found: bool)
    ensures found == Matches(item, q, show)
  {
    var j := 0;
    while j < |item|
      invariant 0 <= j <= |item|
      invariant forall k :: 0 <= k < j ==> !FieldMatches(item[k], q, show)
    {
      if Contains(Lower(show(item[j].1)), q) {
        return true;
      }
      j := j + 1;
    }
    return false;
  }

  /** `search_data`: lower-cases the query once, then keeps each item in
      which some value, rendered and lower-cased, contains it. */
  method SearchData<V>(query: string, data: seq<Item<V>>, show: V -> string) returns (results: seq<Item<V>>)
    ensures results == Hits(data, Lower(query), show)
  {
    var q := Lower(query);
    results := [];
    var n := 0;
    while n < |data|
      invariant 0 <= n <= |data|
      invariant results == Hits(data[..n], q, show)
    {
      var found := AnyFieldMatches(data[n], q, show);
      if found {
        results := results + [data[n]];
      }
      assert data[..n + 1][..n] == data[..n];
      n := n + 1;
    }
    assert data[..n] == data;
  }

  /** The search ignores the case of the query: any query and its
      lower-cased form find the same items. */
  lemma SearchIgnoresQueryCase<V>(data: seq<Item<V>>, query: string, show: V -> string)
    ensures Hits(data, Lower(Lower(query)), show) == Hits(data, Lower(query), show)
  {
    LowerIdempotent(query);
  }

  /** A value matches the upper-case spelling of a word that it holds in
      lower case. */
  lemma FieldMatchesAnyCase<V>(field: (string, V), word: string, show: V -> string)
    requires Contains(show(field.1), Lower(word))
    ensures FieldMatches(field, Lower(word), show)
  {
    var s := show(field.1);
    var p := Lower(word);
    var k := Find(s, p).value;
    assert OccursAt(Lower(s), p, k) by {
      assert Lower(s)[k..k + |p|] == Lower(s[k..k + |p|]);
      LowerIdempotent(word);
    }
    ContainsAt(Lower(s), p, k);
  }

  /** The empty query is found in every value, so it keeps exactly the
      items with at least one field. */
  lemma EmptyQueryKeepsNonEmpty<V>(item: Item<V>, show: V -> string)
    ensures Matches(item, Lower(""), show) <==> |item| > 0
  {
    if |item| > 0 {
      assert OccursAt(Lower(show(item[0].1)), "", 0);
      ContainsAt(Lower(show(item[0].1)), "", 0);
      assert FieldMatches(item[0], Lower(""), show);
    }
  }

  // ---------------------------------------------------------------------
  // update_selection_json
  // ---------------------------------------------------------------------

  /** `if value is not None: data[key] = value`. Item assignment with a
      string key works only on a dict. */
  function SetKey(data: Value, key: string, value: Option<Value>): (r: Result<Value>)
    ensures value.None? ==> r == Ok(data)
    ensures value.Some? ==> (r.Ok? <==> data.Dict?)
    ensures value.Some? && r.Err? ==> r.error.TypeError?
    ensures value.Some? && r.Ok? ==> r.value == Dict(data.fields[key := value.value])
  {
    if value.None? then Ok(data)
    else if data.Dict? then Ok(Dict(data.fields[key := value.value]))
    else Err(TypeError("object does not support item assignment"))
  }

  /** The four selection arguments. */
  datatype Selection = Selection(book: Option<Value>, chapter: Option<Value>, verse: Option<Value>, website: Option<Value>)

  /** The argument for one of the four selection keys, None for any other key. */
  function ArgFor(sel: Selection, key: string): Option<Value> {
    if key == "book" then sel.book
    else if key == "chapter" then sel.chapter
    else if key == "verse" then sel.verse
    else if key == "website" then sel.website
    else None
  }

  predicate AnyGiven(sel: Selection) {
    sel.book.Some? || sel.chapter.Some? || sel.verse.Some? || sel.website.Some?
  }

  /** The document written back: the stored one (an empty dict when there is
      no file) with each given argument set under its key. */
  function Updated(stored: Option<Value>, sel: Selection): (r: Result<Value>)
    ensures var data := if stored.None? then Dict(map[]) else stored.value;
      (r.Err? <==> !data.Dict? && AnyGiven(sel)) &&
      (r.Err? ==> r.error.TypeError?) &&
      (r.Ok? && !AnyGiven(sel) ==> r.value == data) &&
      (r.Ok? && data.Dict? ==> r.value.Dict?)
  {
    var data := if stored.None? then Dict(map[]) else stored.value;
    match SetKey(data, "book", sel.book)
    case Err(e) => Err(e)
    case Ok(d1) =>
      match SetKey(d1, "chapter", sel.chapter)
      case Err(e) => Err(e)
      case Ok(d2) =>
        match SetKey(d2, "verse", sel.verse)
        case Err(e) => Err(e)
        case Ok(d3) => SetKey(d3, "website", sel.website)
  }

  /** On a stored dict, the given arguments are set under their keys and
      every other key keeps its value. */
  lemma UpdatedFields(stored: Option<Value>, sel: Selection)
    requires stored.None? || stored.value.Dict?
    ensures var data := if stored.None? then Dict(map[]) else stored.value;
      var r := Updated(stored, sel);
      && r.Ok? && r.value.Dict?
      && (forall key :: key in r.value.fields <==> key in data.fields || ArgFor(sel, key).Some?)
      && (forall key :: key in r.value.fields ==>
            r.value.fields[key] == if ArgFor(sel, key).Some? then ArgFor(sel, key).value else data.fields[key])
  {
    var data := if stored.None? then Dict(map[]) else stored.value;
    var d1 := SetKey(data, "book", sel.book).value;
    var d2 := SetKey(d1, "chapter", sel.chapter).value;
    var d3 := SetKey(d2, "verse", sel.verse).value;
    var d4 := SetKey(d3, "website", sel.website).value;
    assert Updated(stored, sel) == Ok(d4);
    forall key
      ensures key in d4.fields <==> key in data.fields || ArgFor(sel, key).Some?
      ensures key in d4.fields ==>
        d4.fields[key] == if ArgFor(sel, key).Some? then ArgFor(sel, key).value else data.fields[key]
    {
      if key == "website" {
      } else if key == "verse" {
      } else if key == "chapter" {
      } else if key == "book" {
      } else {
        assert ArgFor(sel, key) == None;
      }
    }
  }

  /** `update_selection_json`: sets, in order, each argument that is not
      None, then writes the document back. */
  method UpdateSelectionJson(stored: Option<Value>, sel: Selection) returns (r: Result<Value>)
    ensures r == Updated(stored, sel)
  {
    var data := if stored.None? then Dict(map[]) else stored.value;
    if sel.book.Some? {
      if !data.Dict? { return Err(TypeError("object does not support item assignment")); }
      data := Dict(data.fields["book" := sel.book.value]);
    }
    if sel.chapter.Some? {
      if !data.Dict? { return Err(TypeError("object does not support item assignment")); }
      data := Dict(data.fields["chapter" := sel.chapter.value]);
    }
    if sel.verse.Some? {
      if !data.Dict? { return Err(TypeError("object does not support item assignment")); }
      data := Dict(data.fields["verse" := sel.verse.value]);
    }
    if sel.website.Some? {
      if !data.Dict? { return Err(TypeError("object does not support item assignment")); }
      data := Dict(data.fields["website" := sel.website.value]);
    }
    r := Ok(data);
  }

  /** Saving the same selection twice leaves the file as the first save
      wrote it. */
  lemma UpdatedIdempotent(stored: Option<Value>, sel: Selection)
    requires Updated(stored, sel).Ok?
    ensures Updated(Some(Updated(stored, sel).value), sel) == Updated(stored, sel)
  {
    var once := Updated(stored, sel).value;
    var data := if stored.None? then Dict(map[]) else stored.value;
    if data.Dict? {
      var twice := Updated(Some(once), sel).value;
      assert twice.fields == once.fields;
    }
  }
}
