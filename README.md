# Torah document pipeline — a verified model

The repository scrapes the Torah in Hebrew and in English and builds bilingual Word
documents from them. This project models that pipeline's text-transformation core in
Dafny and proves what it does:

- it weaves Hebrew and English paragraphs together and names the woven file
  (`2_final_output.py`, `final_output.py`);
- it cleans file names;
- it runs the colon and verse-number passes over Hebrew lines
  (`3_final_processing.py`, `final_processing.py`, `torah_web_scraper/getHebTanakh.py`);
- it adds verse notes;
- it regroups English verses into one paragraph per verse;
- it converts verse numbers to Hebrew numerals and builds the Hebrew chapter documents;
- it chooses the chapters and verse ranges to scrape;
- it finds the parasha (weekly Torah portion) that holds a verse, and merges parasha records;
- it covers the search bar's filter, the selection file update and the word lookup in the
  Tanach XML.

A document is a sequence of `Paragraph` values. Each paragraph holds runs, an alignment and
a bidi flag. Each run holds text, bold/italic/underline, a font, a size and a colour.

Code that rewrites a loaded document's runs in place is modelled on `Docx.DocParagraph`
objects with `modifies` frames. That covers the colon passes, `update_second_line`,
`format_hebrew_paragraph` and `remove_second_colon`. Loops become `while` loops proved
against the specification functions beside them.

Python semantics are written out by hand:
- regular expressions: leftmost, non-overlapping, greedy or lazy as in the pattern;
- `str.strip` with Python's whitespace set, `str.replace`, `zfill`, `os.path.join`;
- floor division by positive divisors;
- JSON documents as a `Json.Value` datatype;
- the KeyError, TypeError, AttributeError, ValueError and IndexError paths the code can take.

Where a claim about the program disagrees with its code, the code is modelled:
- `clean_hebrew_filename` is not idempotent. `FilenameSanitizer.CleanHebrewFilenameNotIdempotent`
  proves this for every name ending in "_Chapter_.docx".
- `re.sub("::", ":")` halves each run of colons, rounding up. It is not a collapse to one
  colon (`Colons.ColonRunHalves`).
- `remove_second_colon` turns the first colon of ":(X)‪:" into a space. Its output has
  the same length as its input (`Colons.RemoveSecondColonText`).
- `move_verse_number_to_start` takes the token from the first match but removes every
  marker span (`VerseMarker.MoveVerseNumberToStart`).
- The Genesis chapter count in `main_torah_book_eng` is 51, as written
  (`EngChapters.TORAH_CHAPTERS`).

## Model

| member | source | states |
|---|---|---|
| Weave.WeaveParagraphs | 2_final_output.py:143-187 | the output is Hebrew[i], English[i] pairs up to min(N, M), then the remaining Hebrew paragraphs in order; surplus English paragraphs are dropped |
| Weave.CopyRuns | 2_final_output.py:153-159 | each run is copied with its text, bold, italic and underline, and given the language's font and size |
| Weave.StyledRunsText | 2_final_output.py:153-159 | restyling runs keeps the paragraph's text |
| Weave.WovenTexts | 2_final_output.py:147-187 | output[2i] has Hebrew[i]'s text and output[2i+1] English[i]'s for i < min(N, M); after that output[min+i] has Hebrew[i]'s text |
| Weave.WovenLayout | 2_final_output.py:162-185 | English outputs are left-aligned (0) with bidi off; Hebrew outputs get alignment 1, bidi on and the Hebrew size |
| Weave.SafeFirstLine | 2_final_output.py:189-196 | the first Hebrew line, stripped, with each character that is neither alphanumeric nor space replaced by "_"; "combined" when there is no Hebrew paragraph |
| Weave.WovenNameShape | 2_final_output.py:200-202 | the woven file name has no "__", does not end in "_" or "_.docx", and every space in it comes before "Chapter" or "Verses" |
| Weave.SafeFirstLineHasNoSeparator | 2_final_output.py:193 | the sanitised first line never contains a path separator |
| Weave.EarlyWovenNameHasNoSeparator | final_output.py:180-192 | the earlier revision's "combined_…" name never contains a path separator |
| Weave.WeaveTorahFiles | 2_final_output.py:119-213 | the woven document is interleaved with Frank Ruehl 16 pt Hebrew and Times New Roman 12 pt English, and saved under the cleaned name in the output folder |
| Weave.WeaveTorahFilesEarly | final_output.py:116-201 | the same weave with 14 pt Hebrew, saved as "combined_" + the first line + ".docx" |
| FilenameSanitizer.SpacesToUnderscore | 2_final_output.py:226 | each run of whitespace becomes one "_"; no whitespace remains |
| FilenameSanitizer.CollapseUnderscores | 2_final_output.py:228 | no "__" remains; the first character is "_" exactly when it was before |
| FilenameSanitizer.StripTrailingUnderscores | 2_final_output.py:237 | the result is a prefix of the input with no trailing "_", and only "_" was removed |
| FilenameSanitizer.CleanHebrewFilenameShape | 2_final_output.py:215-241 | the cleaned name has no "__", does not end in "_" or "_.docx", and every space comes before "Chapter" or "Verses" |
| FilenameSanitizer.ReplaceKeepsNoDouble | 2_final_output.py:230-232 | rewriting "_Chapter_"/"_Verses_" to " Chapter_"/" Verses_" creates no "__" |
| FilenameSanitizer.ReplaceKeepsSpaces | 2_final_output.py:230-232 | those rewrites keep every space before a keyword |
| FilenameSanitizer.CollapseAfterIdentity | 2_final_output.py:234-235 | the look-behind collapses after "Chapter"/"Verses" change nothing once no "__" remains |
| FilenameSanitizer.CleanChapterVersesName | 2_final_output.py:226-239 | "x_Chapter_c_Verses_v" becomes "x Chapter_c Verses_v" for every plain word x and all digit strings c and v |
| FilenameSanitizer.CleanKeywordName | 2_final_output.py:226-239 | "x_Chapter_.docx" becomes "x Chapter.docx" |
| FilenameSanitizer.CleanSpaceName | 2_final_output.py:226-239 | "x Chapter.docx" becomes "x_Chapter.docx" |
| FilenameSanitizer.CleanHebrewFilenameNotIdempotent | 2_final_output.py:226-239 | cleaning a cleaned name can change it again |
| Colons.RemoveSecondColonEng | 3_final_processing.py:72-83 | `re.sub("::", ":")` never lengthens the text |
| Colons.RemoveSecondColonEngUnchanged | final_processing.py:81 | the text is unchanged exactly when it has no "::" |
| Colons.ColonRunHalves | 3_final_processing.py:83 | k colons become ceil(k/2) colons |
| Colons.RemoveSecondColonEngNotIdempotent | final_processing.py:81 | ":::" becomes "::" and then ":" |
| Colons.ReplaceAllShrinks | final_processing.py:81 | any occurrence of "::" makes the text strictly shorter |
| Colons.Blanked | 3_final_processing.py:100-101 | every run keeps its formatting and its text becomes "" |
| Colons.BlankedText | 3_final_processing.py:100-101 | blanked runs show no text |
| Colons.ProcessParagraph | 3_final_processing.py:85-102 | the runs are unchanged when the text has no change; otherwise the old runs are blanked and one run with the rewritten text is appended; the visible text is the rewritten text |
| Colons.ProcessParagraphNoDoubleColon | final_processing.py:91-97 | without "::" the paragraph's text is a fixed point |
| Colons.ColonFix | 2_final_output.py:315 | the rewrite keeps the length and only ever turns a ':' into ' ' |
| Colons.ColonFixUnchanged | 2_final_output.py:315 | the text is unchanged exactly when no ":(X)‪:" span (X non-digits) occurs |
| Colons.RemoveSecondColonMarker | 2_final_output.py:315 | ":(X)‪:" becomes " (X)‪:" |
| Colons.RemoveSecondColon | 2_final_output.py:313-322 | the paragraph is cleared and holds one run with the rewritten text; alignment and bidi are kept |
| Colons.RemoveSecondColonPass | 2_final_output.py:417-419 | every paragraph's text becomes the rewrite of its stripped text |
| Colons.ColonFreeRuns | torah_web_scraper/getHebTanakh.py:403-405 | each run loses its ':' characters and keeps its formatting |
| Colons.ColonFreeRunsText | torah_web_scraper/getHebTanakh.py:403-405 | the paragraph's text loses exactly its ':' characters |
| Colons.ColonFreeRunsIdempotent | torah_web_scraper/getHebTanakh.py:403-405 | a second pass changes nothing |
| Colons.DocxRemoveColons | torah_web_scraper/getHebTanakh.py:395-416 | every run of body paragraphs and table-cell paragraphs loses its ':' characters |
| Colons.AddColonText | torah_web_scraper/getHebTanakh.py:431-437 | the stripped text, with "‪:" appended when it is non-empty and does not end in ':'; empty stays empty |
| Colons.AddColonTextIdempotent | torah_web_scraper/getHebTanakh.py:431-437 | adding colons twice equals adding them once |
| Colons.RemoveThenAddColon | torah_web_scraper/getHebTanakh.py:395-440 | after the remove pass and the add pass, a non-empty run ends in "‪:" and has no other ':' |
| Colons.AddColonRuns | torah_web_scraper/getHebTanakh.py:430-440 | each run gets the added-colon text and the David font; its other attributes are kept |
| Colons.AddColonRunsIdempotent | torah_web_scraper/getHebTanakh.py:430-440 | a second pass changes no run |
| Colons.DocxAddColons | torah_web_scraper/getHebTanakh.py:418-444 | every paragraph is right-aligned and each of its runs is rewritten as above |
| VerseMarker.ContainsHebrew | 3_final_processing.py:143-154 | true exactly when some character lies in U+0590..U+05FF; false for "" |
| VerseMarker.FindTokenLeftmost | 3_final_processing.py:181 | the leftmost match of "‪\s?\(([^)]+)\)\s?‪"; nothing matches before it |
| VerseMarker.RemoveSpansChars | 3_final_processing.py:189 | the lazy marker spans are deleted; every character left comes from the text |
| VerseMarker.MoveVerseNumberToStart | 3_final_processing.py:168-205 | unchanged without a match; otherwise " " + token + RLM + " " + body + RLM + " " + ":" + RLM |
| VerseMarker.MoveVerseLine | 3_final_processing.py:181-201 | "x‪ (n)‪:" becomes the verse line with token n and body x |
| VerseMarker.MoveWithoutEmbedding | 3_final_processing.py:202-205 | text without U+202A is returned unchanged |
| VerseMarker.MoveAddsOnlyMarks | 3_final_processing.py:196-201 | the result adds only spaces, ':' and RLM to the text's characters, and never adds U+202A |
| VerseMarker.MoveTwice | 3_final_processing.py:181-205 | a second application changes nothing when the first left no U+202A |
| VerseMarker.FormatHebrew | 3_final_processing.py:131-141 | non-Hebrew paragraphs are unchanged; Hebrew ones are right-aligned with bidi, hold the moved verse line, in Frank Ruehl 16 pt |
| VerseMarker.ApplyHebrewFont | 3_final_processing.py:207-217 | every run gets Frank Ruehl 16 pt and keeps everything else |
| VerseMarker.FormatHebrewParagraphs | 3_final_processing.py:120-141 | each paragraph becomes its formatted value |
| VerseMarker.FromChapter | 3_final_processing.py:114-117 | the suffix from the first "Chapter"; the text itself without "Chapter" |
| VerseMarker.UpdateSecondLine | 3_final_processing.py:104-118 | only the second paragraph changes, only when there are two and it contains "Chapter", and its text becomes the suffix from "Chapter" |
| Notes.FirstChapter | 2_final_output.py:256-259 | the first paragraph containing "Chapter", or none |
| Notes.VerseNumberMatch | 2_final_output.py:292-294 | a number exists exactly when the text starts with "Verse " and a digit, and it is the longest digit run there |
| Notes.NotesParagraph | 2_final_output.py:296-302 | "[notes]( {header} Verse {n} )[end_notes]", left-aligned, italic, light grey |
| Notes.CopyParagraph | 2_final_output.py:277-287 | the copy keeps the text and the alignment |
| Notes.Annotated | 2_final_output.py:274-302 | each paragraph is copied, followed by a notes paragraph exactly when it is a numbered verse |
| Notes.AnnotatedAllLength | 2_final_output.py:274-302 | the output has one paragraph per input plus one per numbered verse |
| Notes.AnnotatedAllAppend | 2_final_output.py:274-302 | annotation is paragraph by paragraph: it distributes over concatenation |
| Notes.AddNotesToVerses | 2_final_output.py:243-311 | ValueError exactly when no paragraph contains "Chapter"; otherwise every paragraph is annotated with the first such header |
| Notes.ScriptRun | 2_final_output.py:356-372 | runs with Hebrew get Frank Ruehl 16 pt, other runs Times New Roman 12 pt; everything else is kept |
| Notes.ScriptParagraphIdempotent | 2_final_output.py:348-372 | formatting twice equals formatting once |
| Notes.ScriptRunsText | 2_final_output.py:356-358 | formatting keeps the paragraph's text |
| Notes.FormatDocxFile | 2_final_output.py:324-380 | one output paragraph per input paragraph, each formatted by script |
| EngRegroup.Classify | 1B_format_eng.py:124-136 | a stripped line is a verse start exactly when it starts with "Verse", a continuation when non-empty otherwise; its newlines become spaces |
| EngRegroup.GroupsStep | 1B_format_eng.py:128-136 | a verse line opens a new group; a continuation extends the last group by " " + line; a blank line changes nothing |
| EngRegroup.RegroupClean | 1B_format_eng.py:129-140 | no output paragraph is empty or contains "\n" |
| EngRegroup.RegroupCount | 1B_format_eng.py:121-140 | the output count is the number of "Verse" lines, plus one when a continuation comes before the first |
| EngRegroup.VerseOpensGroup | 1B_format_eng.py:128-132 | each "Verse" line's group, at its index, starts with that stripped line |
| EngRegroup.GroupsExtend | 1B_format_eng.py:121-140 | later lines never change earlier groups; the last one only grows |
| EngRegroup.Accumulate | torah_web_scraper/new_getEng.py:44-53 | one pass of the loop body is one step of the grouping |
| EngRegroup.ReformatEngDocx | torah_web_scraper/new_getEng.py:25-62 | the written paragraphs are the regrouping of the input paragraphs |
| EngChapters.PartialText | torah_web_scraper/new_getEng.py:196-204 | the five Torah books map to their "<Hebrew>/<English>, Chapter" strings; anything else to "Error: Invalid book input" |
| EngChapters.PartialTextNamesBook | new_getEng.py:138-146 | the result is valid exactly for the five books, and then ends with "/" + book + ", Chapter" |
| EngChapters.ChapterFileName | torah_web_scraper/new_getEng.py:180-189 | the file name starts with the book and "_" and ends in ".docx" |
| EngChapters.SavedFileIsReformatted | torah_web_scraper/new_getEng.py:134 | the path save_to_word writes is the path the reformatter opens, and it ends in ".docx.docx" |
| EngChapters.FormattedPathOfDocx | old_code/1_engBereshit.py:137 | the output path replaces ".docx" with "_formatted.docx" |
| EngChapters.VerseParagraphSplits | new_getEng.py:95-97 | a verse number without ':' is recovered as the text before the first ": " |
| EngChapters.SaveToWord | new_getEng.py:80-99 | the file is join(path, filename + ".docx"); the heading names the file and chapter; one "{n}: {text}" paragraph per verse in order |
| EngChapters.FirstNamed | new_getEng.py:191-193 | the index of the first entry whose Name matches, with the KeyError of an entry read before it |
| EngChapters.Details | new_getEng.py:195-202 | the six detail fields, read in the code's order |
| EngChapters.GetParashaDetails | new_getEng.py:185-205 | the first matching entry's details, None when no entry matches, and the errors of the lookups |
| EngChapters.Padded | torah_web_scraper/new_getEng.py:217-218 | `str(c).zfill(2)` has length 2 for 0..99 and at least 2 for every natural number |
| EngChapters.PaddedRoundTrip | torah_web_scraper/new_getEng.py:217-218 | the padded chapter reads back as the chapter |
| EngChapters.ChapterRequests | old_code/1_engBereshit.py:600-604 | one request per chapter start..end inclusive, in order |
| EngChapters.RequestChapters | torah_web_scraper/new_getEng.py:217-218 | the loop issues exactly the chapter requests of the range |
| EngChapters.ProcessSpecificParasha | torah_web_scraper/new_getEng.py:207-221 | only the first entry whose Name matches is processed, chapter by chapter start..end |
| EngChapters.AllRequestsCount | old_code/1_engBereshit.py:589-604 | without an error, one request per chapter of every parasha |
| EngChapters.AllRequestsStop | old_code/1_engBereshit.py:589-604 | the first failing parasha ends the run, after the earlier ones' requests |
| EngChapters.ProcessParashotMain | old_code/1_engBereshit.py:589-604 | every parasha in file order, every chapter start..end, padded |
| EngChapters.MenuBooksHaveLinks | old_code/1_engBereshit.py:552-560 | every book of the menu has a chapter link |
| EngChapters.MainTorahBookEng | old_code/1_engBereshit.py:552-587 | ValueError exactly for a choice outside 1..5; otherwise chapters 1..count of that book |
| Parashot.ReversedSpanEmpty | utils/findParashFromVerse.py:22-27 | a span whose start is after its end contains nothing |
| Parashot.InSpanEnds | utils/findParashFromVerse.py:22-26 | both endpoints are inside the span |
| Parashot.IsVerseInRange | utils/findParashFromVerse.py:9-29 | false for another book; for a well-formed entry, true exactly when start ≤ (chapter, verse) ≤ end lexicographically; errors only for a non-dict or a malformed entry of the book |
| Parashot.FirstInRangeSpec | utils/findParashFromVerse.py:31-38 | the index of the first entry containing the verse, none when no entry does, or the first error |
| Parashot.FindParasha | utils/findParashFromVerse.py:31-38 | the "standard" of the first containing entry, or None |
| Parashot.AtOrAfter | utils/findParashaFromVerse.py:25-33 | the code's comparison agrees with lexicographic order |
| Parashot.ReadBoundsByField | utils/findParashaFromVerse.py:26-29 | the bounds read as `get_parasha` reads them (Start's chapter and verse, then End's) succeed exactly when `is_verse_in_range`'s reading does, with the same four values |
| Parashot.ReadOrderDiffers | utils/json_funcs.py:58-61 | an entry of the book with no "End" and a "Start" without "Verse": `get_parasha` raises KeyError('Verse'), `is_verse_in_range` and `find_parasha` KeyError('End') |
| Parashot.GetParashaAgrees | utils/json_funcs.py:36-68 | on entries it can read, the loop's answer is the first containing entry's "standard", or None, as in `find_parasha` |
| Parashot.SetParashaJson | utils/json_funcs.py:4-34 | success exactly when the loaded document is a dict; "parasha" is set and every other key is kept |
| Parashot.StartEndMapSpec | utils/merge_parasha.py:14 | the table is built exactly when every entry is an object with a hashable Name, a Start and an End; it maps every Name, and has no other keys |
| Parashot.StartEndMapMissingStart | utils/merge_parasha.py:14 | an entry with an unhashable Name and no Start raises KeyError('Start'): key and value are evaluated before the key is hashed |
| Parashot.StartEndMapLastWins | utils/merge_parasha.py:14 | when names repeat, the last entry wins |
| Parashot.Enrich | utils/merge_parasha.py:17-23 | unmatched entries are unchanged; matched ones get Start and End and keep every other key |
| Parashot.MergeParashaFiles | utils/merge_parasha.py:4-29 | the list keeps its length and order, and each entry is enriched |
| HebrewNumerals.NumberToHebrew | torah_web_scraper/getHebTanakh.py:213-224 | IndexError exactly when the hundreds digit is 5 or more; otherwise one letter per non-zero digit |
| HebrewNumerals.NumberToHebrewValue | torah_web_scraper/getHebTanakh.py:219-224 | the letters' values add up to the number modulo 1000 |
| HebrewNumerals.NumberToHebrewRoundTrip | torah_web_scraper/getHebTanakh.py:213-224 | every number below 500 is converted and read back exactly |
| HebrewNumerals.NumberToHebrewExamples | torah_web_scraper/getHebTanakh.py:214-224 | 0 gives "", 15 gives "יה" and 16 gives "יו" |
| HebrewDocument.VerseIdNumber | torah_web_scraper/getHebTanakh.py:362 | when `int(verse_id.lstrip('v'))` succeeds the number is never negative; this holds only because `Json.ToInt` rejects signs, while Python's `int("-3")` is -3 |
| HebrewDocument.VerseIdNumberOf | torah_web_scraper/getHebTanakh.py:362 | "v" + str(k) reads back as k |
| HebrewDocument.VerseLabel | torah_web_scraper/getHebTanakh.py:362-368 | "  (" + the numeral + ")", or the error of either conversion |
| HebrewDocument.VersePara | torah_web_scraper/getHebTanakh.py:353-374 | the verse text run then the label run, both Frank Ruehl 18 pt, right-aligned with bidi |
| HebrewDocument.VerseParaText | torah_web_scraper/getHebTanakh.py:356-368 | verse k's paragraph reads as its text then a numeral whose letters add up to k |
| HebrewDocument.HebrewFileName | torah_web_scraper/getHebTanakh.py:378-381 | "{book}_CH_{ch}_Verses_{s}_to_{e}.docx" |
| HebrewDocument.CreateHebrewWordDocument | torah_web_scraper/getHebTanakh.py:330-389 | the first verse id that cannot be converted raises its error; otherwise one verse paragraph per verse, in order, with the heading and the path in the folder |
| TanakhTraverse.Decide | torah_web_scraper/getHebTanakh.py:248-258 | a chapter is skipped below the start choice, stops its book above the end choice, or is visited with the verse range the choices give; a failed `int()` raises |
| TanakhTraverse.DecideChapter | torah_web_scraper/getHebTanakh.py:248-258 | the inner loop's body decides as above |
| TanakhTraverse.ScanChapters | torah_web_scraper/getHebTanakh.py:247-272 | the inner loop with `continue` and `break` visits exactly what the chapter scan gives |
| TanakhTraverse.TraverseTanakhScraper | torah_web_scraper/getHebTanakh.py:226-280 | books not asked for are passed over; an error ends everything and keeps the visits made |
| TanakhTraverse.TraversalAllowed | torah_web_scraper/getHebTanakh.py:242-258 | every visit is within the chapter choices and in the chosen book; it starts at the chosen verse only on the chapter equal to the start choice, and ends at the chosen verse on the chapter equal to the end choice |
| TanakhTraverse.ChapterScanStops | torah_web_scraper/getHebTanakh.py:253-254 | nothing after the first chapter past the end choice is visited |
| TanakhTraverse.TypedChapterStartsAtOne | torah_web_scraper/getHebTanakh.py:257 | a chapter given as text makes every visit start at verse 1 |
| TanakhTraverse.TypedChapterExample | torah_web_scraper/getHebTanakh.py:620-636 | Genesis 3:5-8 entered at the prompt is visited as Genesis 3:1-8 |
| TanakhTraverse.IntendedStartVerse | torah_web_scraper/getHebTanakh.py:257 | the chosen start verse on the chapter that the choice denotes, as a number or as text |
| TanakhTraverse.IntendedStartVerseAgrees | torah_web_scraper/getHebTanakh.py:257 | agrees with the code for number choices and honours a typed chapter |
| Search.Hits | torah_search_bar/search_engine.py:12-20 | exactly the items in which some value contains the query, none added |
| Search.HitsAppend | torah_search_bar/search_engine.py:12-20 | the filter keeps data order: it distributes over concatenation |
| Search.AnyFieldMatches | torah_search_bar/search_engine.py:16-19 | the inner loop stops at the first matching value |
| Search.SearchData | torah_search_bar/search_engine.py:12-20 | the results are the items matching the lower-cased query |
| Search.FieldMatchesAnyCase | torah_search_bar/search_engine.py:14-17 | a value holding a word in lower case matches that word in any case |
| Search.EmptyQueryKeepsNonEmpty | torah_search_bar/search_engine.py:17 | the empty query keeps exactly the items with at least one field |
| Search.SetKey | torah_search_bar/gui_utils.py:19-26 | None leaves the data alone; a value is stored under its key on a dict and raises TypeError otherwise |
| Search.Updated | torah_search_bar/gui_utils.py:12-26 | each given argument is set, every other key is kept, and nothing changes when none is given; TypeError when the stored JSON is not an object |
| Search.UpdateSelectionJson | torah_search_bar/gui_utils.py:4-31 | the document written back is the update above |
| Search.UpdatedIdempotent | torah_search_bar/gui_utils.py:19-26 | saving the same selection twice equals saving it once |
| TanachXml.GetVerse | xml_engine/TanachXML_engine.py:31-53 | the verse's words, or ValueError when the book has no such verse |
| TanachXml.GetWordInVerse | xml_engine/TanachXML_engine.py:55-72 | the word at 1-based position k; ValueError for a missing verse and IndexError for k outside 1..len |
| TanachXml.WordsRebuildVerse | xml_engine/TanachXML_engine.py:69-72 | words 1..len, in order, are the verse |

## Findings

| source | as written | input that shows it | evidently intended | confidence | as-written member | corrected member |
|---|---|---|---|---|---|---|
| torah_web_scraper/getHebTanakh.py:257 | the start verse is used only when the int chapter equals `chapter_choice`, which arrives as text from the prompt | chapter "3", start verse 5, end chapter 3, end verse 8, in Genesis: the visit is Genesis 3:1-8 | start at the chosen verse on the chapter the choice denotes | not executed; high for the prompt path | TanakhTraverse.TypedChapterExample | TanakhTraverse.IntendedStartVerse |

The traversal itself keeps the code's comparison. `TanakhTraverse.TypedChapterStartsAtOne`
states the consequence for every outline.

## Left out

- Reading and writing files, the Word container format, margins, the `eastAsia` font
  attribute, Selenium, web pages, prompts, `time.sleep` and printing are not modelled. Every
  document, JSON file, outline and XML book is a parameter.
- `str.isalnum` is a parameter. `str.lower` and the `\d` class cover ASCII only.
- `str(value)` in `search_data` is a parameter.
- JSON floats are not modelled. Neither is Python's identification of `1` and `True` as dict keys.
- Json.ToInt: reads only non-empty ASCII digit strings. Signs, surrounding whitespace and
  underscores, which `int()` also accepts, are treated as errors.
- HebrewDocument.VerseIdNumber: an id such as "v-3", which Python reads as -3, is an error
  here, so the non-negative result follows from `Json.ToInt`, not from the source.
- EngRegroup.ReformatEngDocx: the document is given as its paragraphs' texts; the output
  is the list of texts written with `add_paragraph`.
- EngChapters.ProcessSpecificParasha: each request carries the parasha name, as the
  `torah_web_scraper/new_getEng.py` revision passes it to the download (line 218); the root
  `new_getEng.py` passes none (line 160), and that difference is not recorded.
- HebrewDocument.CreateHebrewWordDocument: the chapter and verse arguments are given
  already formatted. The colon passes it runs afterwards are `Colons.DocxRemoveColons`
  and `Colons.DocxAddColons`, and are not composed here.
- TanakhTraverse.TraverseTanakhScraper: loading the outline file, and the exceptions of
  loading it, are not modelled. Verse counts are integers.
- TanachXml.GetVerse: a `w` element without text, which yields None in the list, is not modelled.
- Weave.WeaveTorahFiles: deleting an existing output file first is not modelled.
- Parashot.GetParashaAgrees: agreement with `find_parasha` is stated only for entries both
  searches can read. On a malformed entry the two read the bounds in different orders and
  can raise different errors (`Parashot.ReadOrderDiffers`).
- VerseMarker.FormatHebrew: the `bidi` flag stands for the `w:bidi` attribute set directly on
  the `<w:p>` element (`3_final_processing.py:166`). Weave's layout sets the paragraph
  property `pPr/bidi` instead (`2_final_output.py:164`). The model records both as one flag.
- HebrewDocument.VersePara: the same conflation. `bidi` here is the `<w:p>` attribute set in
  `torah_web_scraper/getHebTanakh.py:374`, not the paragraph property.
