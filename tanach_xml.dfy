/** Verse and word lookup in a Tanach XML book (`xml_engine/TanachXML_engine.py`).
    The parsed file is given as the map from (chapter, verse) to the texts of
    the verse's `w` elements, in document order. */
module TanachXml {
  import opened Wrappers

  type Book = map<(int, int), seq<string>>

  /** `get_verse`: the words of the verse, or `ValueError` when the book has
      no such chapter and verse. */
  function GetVerse(book: Book, chapter: int, verse: int): (r: Result<seq<string>>)
    ensures r.Ok? <==> (chapter, verse) in book
    ensures r.Ok? ==> r.value == book[(chapter, verse)]
    ensures r.Err? ==> r.error.ValueError?
  {
    if (chapter, verse) in book then Ok(book[(chapter, verse)])
    else Err(ValueError("Verse not found"))
  }

  /** `get_word_in_verse`: the word at a 1-based position; a missing verse
      raises `ValueError` and a position outside 1..len raises `IndexError`. */
  function GetWordInVerse(book: Book, chapter: int, verse: int, wordIndex: int): (r: Result<string>)
    ensures (chapter, verse) !in book ==> r.Err? && r.error.ValueError?
    ensures (chapter, verse) in book ==>
      (r.Ok? <==> 1 <= wordIndex <= |book[(chapter, verse)]|)
    ensures (chapter, verse) in book && r.Err? ==> r.error.IndexError?
    ensures r.Ok? ==> r.value == book[(chapter, verse)][wordIndex - 1]
  {
    match GetVerse(book, chapter, verse)
    case Err(e) => Err(e)
    case Ok(words) =>
      if wordIndex < 1 || wordIndex > |words| then Err(IndexError("Word index out of range"))
      else Ok(words[wordIndex - 1])
  }

  /** Asking for words 1, 2, ... up to the verse's length gives the verse
      back, word for word. */
  lemma WordsRebuildVerse(book: Book, chapter: int, verse: int)
    requires (chapter, verse) in book
    ensures var words := GetVerse(book, chapter, verse).value;
      seq(|words|, i requires 0 <= i < |words| => GetWordInVerse(book, chapter, verse, i + 1).value) == words
  {
  }
}
