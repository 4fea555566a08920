/** Post-processing of the woven document's Hebrew lines: the Hebrew-letter
    test, moving the parenthesised verse number that sits between
    LEFT-TO-RIGHT EMBEDDING marks to the front of its line, the per-paragraph
    Hebrew formatting pass, and trimming the header's second line. */
module VerseMarker {
  import opened Wrappers
  import opened Strings
  import opened Docx

  const HEBREW_FONT := "Frank Ruehl"
  const HEBREW_SIZE := 16

  /** A code point of the Unicode Hebrew block, U+0590..U+05FF. */
  predicate IsHebrew(c: char) {
    '\U{0590}' <= c <= '\U{05FF}'
  }

  /** `contains_hebrew(text)`. */
  function ContainsHebrew(text: string): (r: bool)
    ensures r <==> exists k :: 0 <= k < |text| && IsHebrew(text[k])
  {
    if text == [] then false
    else IsHebrew(text[0]) || (assert forall k :: 0 <= k < |text| - 1 ==> text[1..][k] == text[k + 1];
                               ContainsHebrew(text[1..]))
  }

  // ---------------------------------------------------------------------
  // The two verse-marker patterns
  // ---------------------------------------------------------------------

  /** `\s?` followed by the character `c`, from index `i`, trying the space
      first as the greedy `?` does: the index of `c`. */
  function OptSpaceThen(s: string, i: nat, c: char): (r: Option<nat>)
    requires !IsSpace(c)
    ensures r.Some? ==>
      r.value < |s| && s[r.value] == c && (r.value == i || (r.value == i + 1 && IsSpace(s[i])))
    ensures r.None? ==> !(i < |s| && s[i] == c) && !(i + 1 < |s| && IsSpace(s[i]) && s[i + 1] == c)
  {
    if i + 1 < |s| && IsSpace(s[i]) && s[i + 1] == c then Some(i + 1)
    else if i < |s| && s[i] == c then Some(i)
    else None
  }

  /** Where `\)\s?‪` ends when its ')' is at `b`. */
  function CloseEnd(s: string, b: nat): (r: Option<nat>)
    ensures r.Some? ==> b < |s| && s[b] == ')' && b + 2 <= r.value <= |s| && s[r.value - 1] == LRE
  {
    if b < |s| && s[b] == ')' then
      match OptSpaceThen(s, b + 1, LRE)
      case Some(l) => Some(l + 1)
      case None => None
    else None
  }

  /** Where `‪\s?\(` puts its '(' when it starts at `i`. */
  function Opener(s: string, i: nat): (r: Option<nat>)
    ensures r.Some? ==> i < r.value < |s| && s[i] == LRE && s[r.value] == '('
  {
    if i < |s| && s[i] == LRE then OptSpaceThen(s, i + 1, '(') else None
  }

  /** The first ')' at or after `j`. */
  function FirstClose(s: string, j: nat): (r: Option<nat>)
    ensures r.Some? ==>
      j <= r.value < |s| && s[r.value] == ')' && forall m :: j <= m < r.value ==> s[m] != ')'
    ensures r.None? ==> forall m :: j <= m < |s| ==> s[m] != ')'
    decreases |s| - j
  {
    if j >= |s| then None
    else if s[j] == ')' then Some(j)
    else FirstClose(s, j + 1)
  }

  /** The verse-number pattern `‪\s?\(([^)]+)\)\s?‪` matches at `i`
      with its group `s[lo..hi]`. */
  predicate TokenMatch(s: string, i: nat, lo: nat, hi: nat) {
    && Opener(s, i) == Some(lo - 1)
    && lo < hi < |s|
    && (forall m :: lo <= m < hi ==> s[m] != ')')
    && CloseEnd(s, hi).Some?
  }

  /** The group bounds of the verse-number pattern at `i`. `[^)]+` takes every
      character up to the first ')', and no shorter choice can be followed by
      ')', so there is at most one match at `i`. */
  function TokenAt(s: string, i: nat): (r: Option<(nat, nat)>)
    ensures r.Some? ==> TokenMatch(s, i, r.value.0, r.value.1)
  {
    match Opener(s, i)
    case None => None
    case Some(o) =>
      match FirstClose(s, o + 1)
      case None => None
      case Some(b) => if b > o + 1 && CloseEnd(s, b).Some? then Some((o + 1, b)) else None
  }

  /** A match of the verse-number pattern: where it starts and its group. */
  datatype Token = Token(start: nat, lo: nat, hi: nat)

  /** `re.search` for the verse-number pattern from index `i`: the match with
      the smallest start. */
  function FindToken(s: string, i: nat): (r: Option<Token>)
    ensures r.Some? ==> i <= r.value.start && TokenMatch(s, r.value.start, r.value.lo, r.value.hi)
    decreases |s| - i
  {
    if i >= |s| then None
    else match TokenAt(s, i)
      case Some(g) => Some(Token(i, g.0, g.1))
      case None => FindToken(s, i + 1)
  }

  /** Where the group search finds nothing, the pattern does not match. */
  lemma TokenAtNone(s: string, i: nat)
    requires TokenAt(s, i).None?
    ensures forall lo, hi :: !TokenMatch(s, i, lo, hi)
  {
  }

  /** The match found is the leftmost one: the pattern matches nowhere
      between `i` and it, and nowhere from `i` on when none is found. */
  lemma FindTokenLeftmost(s: string, i: nat)
    ensures var r := FindToken(s, i);
      && (r.Some? ==> forall j, lo, hi :: i <= j < r.value.start ==> !TokenMatch(s, j, lo, hi))
      && (r.None? ==> forall j, lo, hi :: i <= j ==> !TokenMatch(s, j, lo, hi))
  {
    FindTokenBefore(s, i);
    FindTokenNone(s, i);
  }

  lemma {:induction false} FindTokenBefore(s: string, i: nat)
    ensures FindToken(s, i).Some? ==>
      forall j, lo, hi :: i <= j < FindToken(s, i).value.start ==> !TokenMatch(s, j, lo, hi)
    decreases |s| - i
  {
    if i < |s| && TokenAt(s, i).None? {
      FindTokenBefore(s, i + 1);
      TokenAtNone(s, i);
    }
  }

  lemma {:induction false} FindTokenNone(s: string, i: nat)
    ensures FindToken(s, i).None? ==> forall j, lo, hi :: i <= j ==> !TokenMatch(s, j, lo, hi)
    decreases |s| - i
  {
    if i < |s| && TokenAt(s, i).None? {
      FindTokenNone(s, i + 1);
      TokenAtNone(s, i);
    } else if i >= |s| {
      forall j, lo, hi | i <= j ensures !TokenMatch(s, j, lo, hi) {
        NoOpenerPastEnd(s, j);
      }
    }
  }

  lemma NoOpenerPastEnd(s: string, j: nat)
    requires j >= |s|
    ensures Opener(s, j).None?
  {
  }

  /** The removal pattern `‪\s?\(.*?\)\s?‪` can close with the ')'
      at `b` after the '(' at `o`: `.` does not cross a line feed. */
  predicate LazyEnd(s: string, o: nat, b: nat) {
    && o < b < |s|
    && CloseEnd(s, b).Some?
    && forall m :: o < m < b ==> s[m] != '\n'
  }

  /** The lazy `.*?`: the first ')' after `o` that can close the pattern. */
  function LazyClose(s: string, o: nat, j: nat): (r: Option<nat>)
    requires o < j <= |s|
    requires forall m :: o < m < j ==> s[m] != '\n'
    requires forall b: nat :: b < j ==> !LazyEnd(s, o, b)
    ensures r.Some? ==> LazyEnd(s, o, r.value) && forall b: nat :: b < r.value ==> !LazyEnd(s, o, b)
    ensures r.None? ==> forall b: nat :: !LazyEnd(s, o, b)
    decreases |s| - j
  {
    if j >= |s| then None
    else if CloseEnd(s, j).Some? then Some(j)
    else if s[j] == '\n' then None
    else LazyClose(s, o, j + 1)
  }

  /** The end of the removal pattern's match at `i`, if it matches there. */
  function SpanEnd(s: string, i: nat): (r: Option<nat>)
    ensures r.Some? ==> i < r.value <= |s|
  {
    match Opener(s, i)
    case None => None
    case Some(o) =>
      match LazyClose(s, o, o + 1)
      case None => None
      case Some(b) => CloseEnd(s, b)
  }

  /** `re.sub` of the removal pattern with "" from index `i`. */
  function RemoveSpans(s: string, i: nat): (r: string)
    requires i <= |s|
    decreases |s| - i
  {
    if i == |s| then []
    else match SpanEnd(s, i)
      case Some(e) => RemoveSpans(s, e)
      case None => [s[i]] + RemoveSpans(s, i + 1)
  }

  /** Removing spans only deletes: every character left comes from `s`. */
  lemma {:induction false} RemoveSpansChars(s: string, i: nat)
    requires i <= |s|
    ensures forall k :: 0 <= k < |RemoveSpans(s, i)| ==> RemoveSpans(s, i)[k] in s
    decreases |s| - i
  {
    if i < |s| {
      match SpanEnd(s, i)
      case Some(e) =>
        RemoveSpansChars(s, e);
      case None =>
        RemoveSpansChars(s, i + 1);
        var r := RemoveSpans(s, i);
        forall k | 0 <= k < |r| ensures r[k] in s {
          if k > 0 { assert r[k] == RemoveSpans(s, i + 1)[k - 1]; }
        }
    }
  }

  /** The line left once every marker span is removed: stripped, with one
      trailing ':' dropped. */
  function VerseBody(text: string): string {
    var stripped := Strip(RemoveSpans(text, 0));
    if EndsWith(stripped, ":") then stripped[..|stripped| - 1] else stripped
  }

  /** Every character of the body comes from the text. */
  lemma VerseBodyChars(text: string)
    ensures forall k :: 0 <= k < |VerseBody(text)| ==> VerseBody(text)[k] in text
  {
    var removed := RemoveSpans(text, 0);
    RemoveSpansChars(text, 0);
    StripKeeps(removed);
    var stripped := Strip(removed);
    forall k | 0 <= k < |VerseBody(text)| ensures VerseBody(text)[k] in text {
      assert VerseBody(text)[k] == stripped[k];
    }
  }

  /** The rebuilt line: the verse number, then the body, then the colon, each
      closed by a RIGHT-TO-LEFT MARK. */
  function VerseLine(token: string, body: string): (r: string)
    ensures StartsWith(r, " " + token + [RLM, ' '])
    ensures EndsWith(r, [RLM, ' ', ':', RLM])
    ensures |r| == |token| + |body| + 7
  {
    " " + token + [RLM] + " " + body + [RLM] + " " + ":" + [RLM]
  }

  /** Every character of the rebuilt line comes from the number or the body,
      or is a space, the colon or a RIGHT-TO-LEFT MARK. */
  lemma VerseLineChars(token: string, body: string)
    ensures forall k :: 0 <= k < |VerseLine(token, body)| ==>
      var c := VerseLine(token, body)[k]; c in token || c in body || c == ' ' || c == ':' || c == RLM
  {
    var r := VerseLine(token, body);
    assert r == [' '] + token + [RLM, ' '] + body + [RLM, ' ', ':', RLM];
    forall k | 0 <= k < |r| ensures r[k] in token || r[k] in body || r[k] == ' ' || r[k] == ':' || r[k] == RLM {
      if 1 <= k < 1 + |token| {
        assert r[k] == token[k - 1];
      } else if 3 + |token| <= k < 3 + |token| + |body| {
        assert r[k] == body[k - 3 - |token|];
      }
    }
  }

  /** `move_verse_number_to_start(text)`: without a verse-number match the
      text comes back unchanged; with one, the line is rebuilt around the
      first match's group, which is non-empty and holds no ')'. */
  function MoveVerseNumberToStart(text: string): (r: string)
    ensures FindToken(text, 0).None? ==> r == text
    ensures FindToken(text, 0).Some? ==> var t := FindToken(text, 0).value;
      && t.lo < t.hi && (forall m :: t.lo <= m < t.hi ==> text[m] != ')')
      && r == VerseLine(text[t.lo..t.hi], VerseBody(text))
  {
    match FindToken(text, 0)
    case None => text
    case Some(t) => VerseLine(text[t.lo..t.hi], VerseBody(text))
  }

  lemma {:induction false} NoEmbeddingNoToken(s: string, i: nat)
    requires forall j :: i <= j < |s| ==> s[j] != LRE
    ensures FindToken(s, i).None?
    decreases |s| - i
  {
    if i < |s| {
      NoEmbeddingNoToken(s, i + 1);
    }
  }

  lemma FindTokenSkip(s: string, i: nat, k: nat)
    requires i <= k <= |s|
    requires forall j :: i <= j < k ==> s[j] != LRE
    ensures FindToken(s, i) == FindToken(s, k)
  {
    forall j: nat | i <= j < k ensures FindToken(s, j) == FindToken(s, j + 1) {
      FindTokenStep(s, j);
    }
    ChainEqual((j: nat) => FindToken(s, j), i, k);
  }

  /** Values linked by equal neighbours are equal end to end. */
  lemma {:induction false} ChainEqual<T>(f: nat -> T, i: nat, k: nat)
    requires i <= k
    requires forall j: nat :: i <= j < k ==> f(j) == f(j + 1)
    ensures f(i) == f(k)
    decreases k - i
  {
    if i < k {
      ChainEqual(f, i + 1, k);
    }
  }

  lemma FindTokenStep(s: string, i: nat)
    requires i < |s| && s[i] != LRE
    ensures FindToken(s, i) == FindToken(s, i + 1)
  {
    assert Opener(s, i).None?;
  }

  lemma {:induction false} RemoveSpansSkip(s: string, i: nat, k: nat)
    requires i <= k <= |s|
    requires forall j :: i <= j < k ==> s[j] != LRE
    ensures RemoveSpans(s, i) == s[i..k] + RemoveSpans(s, k)
    decreases k - i
  {
    if i < k {
      RemoveSpansStep(s, i);
      RemoveSpansSkip(s, i + 1, k);
      assert s[i..k] == [s[i]] + s[i + 1..k];
      ConsConcat(s[i], s[i + 1..k], RemoveSpans(s, k));
    }
  }

  lemma ConsConcat<T>(x: T, a: seq<T>, b: seq<T>)
    ensures [x] + (a + b) == ([x] + a) + b
  {
  }

  lemma RemoveSpansStep(s: string, i: nat)
    requires i < |s| && s[i] != LRE
    ensures RemoveSpans(s, i) == [s[i]] + RemoveSpans(s, i + 1)
  {
    assert Opener(s, i).None?;
  }

  lemma {:induction false} LazyCloseSkip(s: string, o: nat, j: nat, b: nat)
    requires o < j <= b <= |s|
    requires forall m :: o < m < j ==> s[m] != '\n'
    requires forall c: nat :: c < j ==> !LazyEnd(s, o, c)
    requires forall m :: j <= m < b ==> s[m] != ')' && s[m] != '\n'
    ensures LazyClose(s, o, j) == LazyClose(s, o, b)
    decreases b - j
  {
    if j < b {
      LazyCloseSkip(s, o, j + 1, b);
    }
  }

  /** The shape of a verse line when it reaches this pass: its text `x`,
      then LEFT-TO-RIGHT EMBEDDING, a space, the verse number `n` in
      parentheses, another embedding and ':'. */
  predicate VerseLineInput(t: string, x: string, n: string) {
    && t == x + [LRE, ' ', '('] + n + [')', LRE, ':']
    && LRE !in x
    && n != [] && forall m :: 0 <= m < |n| ==> n[m] != ')' && n[m] != '\n'
  }

  lemma VerseLineInputShape(t: string, x: string, n: string)
    requires VerseLineInput(t, x, n)
    ensures |t| == |x| + |n| + 6
    ensures forall j :: 0 <= j < |x| ==> t[j] == x[j] && t[j] != LRE
    ensures t[|x|] == LRE && t[|x| + 1] == ' ' && t[|x| + 2] == '('
    ensures forall m :: |x| + 3 <= m < |x| + 3 + |n| ==> t[m] == n[m - |x| - 3] && t[m] != ')' && t[m] != '\n'
    ensures t[|x| + 3 + |n|] == ')' && t[|x| + 4 + |n|] == LRE && t[|x| + 5 + |n|] == ':'
    ensures t[|x| + 3..|x| + 3 + |n|] == n && t[..|x|] == x
  {
  }

  lemma VerseLineToken(t: string, x: string, n: string)
    requires VerseLineInput(t, x, n)
    ensures FindToken(t, 0) == Some(Token(|x|, |x| + 3, |x| + 3 + |n|))
  {
    VerseLineInputShape(t, x, n);
    FindTokenSkip(t, 0, |x|);
    VerseLineTokenAt(t, x, n);
  }

  lemma VerseLineTokenAt(t: string, x: string, n: string)
    requires VerseLineInput(t, x, n)
    ensures TokenAt(t, |x|) == Some((|x| + 3, |x| + 3 + |n|))
  {
    VerseLineInputShape(t, x, n);
    VerseLineOpener(t, x, n);
    VerseLineFirstClose(t, x, n);
    VerseLineCloseEnd(t, x, n);
  }

  lemma VerseLineOpener(t: string, x: string, n: string)
    requires VerseLineInput(t, x, n)
    ensures Opener(t, |x|) == Some(|x| + 2)
  {
    VerseLineInputShape(t, x, n);
  }

  lemma VerseLineFirstClose(t: string, x: string, n: string)
    requires VerseLineInput(t, x, n)
    ensures FirstClose(t, |x| + 3) == Some(|x| + 3 + |n|)
  {
    VerseLineInputShape(t, x, n);
  }

  lemma VerseLineCloseEnd(t: string, x: string, n: string)
    requires VerseLineInput(t, x, n)
    ensures CloseEnd(t, |x| + 3 + |n|) == Some(|x| + 5 + |n|)
  {
    VerseLineInputShape(t, x, n);
  }

  lemma VerseLineRemoved(t: string, x: string, n: string)
    requires VerseLineInput(t, x, n)
    ensures RemoveSpans(t, 0) == x + [':']
  {
    VerseLineInputShape(t, x, n);
    RemoveSpansSkip(t, 0, |x|);
    VerseLineSpanEnd(t, x, n);
    VerseLineColon(t, x, n);
  }

  lemma VerseLineSpanEnd(t: string, x: string, n: string)
    requires VerseLineInput(t, x, n)
    ensures SpanEnd(t, |x|) == Some(|x| + 5 + |n|)
  {
    VerseLineInputShape(t, x, n);
    var o := |x| + 2;
    var b := o + 1 + |n|;
    VerseLineOpener(t, x, n);
    LazyCloseSkip(t, o, o + 1, b);
    VerseLineCloseEnd(t, x, n);
    assert LazyClose(t, o, b) == Some(b);
  }

  lemma VerseLineColon(t: string, x: string, n: string)
    requires VerseLineInput(t, x, n)
    ensures RemoveSpans(t, |x| + 5 + |n|) == [':']
  {
    VerseLineInputShape(t, x, n);
    assert RemoveSpans(t, |t|) == [];
  }

  /** On a verse line of the shape above, the number moves to the front and
      the colon to the end. */
  lemma MoveVerseLine(x: string, n: string)
    requires LRE !in x && (x == [] || !IsSpace(x[0]))
    requires n != [] && forall m :: 0 <= m < |n| ==> n[m] != ')' && n[m] != '\n'
    ensures MoveVerseNumberToStart(x + [LRE, ' ', '('] + n + [')', LRE, ':']) == VerseLine(n, x)
  {
    var t := x + [LRE, ' ', '('] + n + [')', LRE, ':'];
    assert VerseLineInput(t, x, n);
    VerseLineToken(t, x, n);
    VerseLineGroup(t, x, n);
    VerseLineBody(t, x, n);
  }

  lemma VerseLineGroup(t: string, x: string, n: string)
    requires VerseLineInput(t, x, n)
    ensures t[|x| + 3..|x| + 3 + |n|] == n
  {
    VerseLineInputShape(t, x, n);
  }

  /** The body of a verse line of the shape above is its text. */
  lemma VerseLineBody(t: string, x: string, n: string)
    requires VerseLineInput(t, x, n) && (x == [] || !IsSpace(x[0]))
    ensures VerseBody(t) == x
  {
    VerseLineRemoved(t, x, n);
    var removed := x + [':'];
    StripOfStripped(removed);
    assert removed[..|removed| - 1] == x;
  }

  /** Every match of either pattern starts with LEFT-TO-RIGHT EMBEDDING, so a
      text without one is returned as it is. */
  lemma MoveWithoutEmbedding(text: string)
    requires LRE !in text
    ensures MoveVerseNumberToStart(text) == text
  {
    NoEmbeddingNoToken(text, 0);
  }

  /** The rebuilt line adds nothing but spaces, one ':' and RIGHT-TO-LEFT
      MARKs: in particular no LEFT-TO-RIGHT EMBEDDING. */
  lemma MoveAddsOnlyMarks(text: string)
    ensures forall k :: 0 <= k < |MoveVerseNumberToStart(text)| ==>
      var c := MoveVerseNumberToStart(text)[k]; c in text || c == ' ' || c == ':' || c == RLM
    ensures LRE in MoveVerseNumberToStart(text) ==> LRE in text
  {
    match FindToken(text, 0)
    case None =>
    case Some(t) =>
      var token := text[t.lo..t.hi];
      var body := VerseBody(text);
      VerseBodyChars(text);
      VerseLineChars(token, body);
      assert forall c :: c in token ==> c in text;
  }

  /** A second application returns the line unchanged as long as the
      rebuilt line holds no LEFT-TO-RIGHT EMBEDDING. */
  lemma MoveTwice(text: string)
    requires LRE !in MoveVerseNumberToStart(text)
    ensures MoveVerseNumberToStart(MoveVerseNumberToStart(text)) == MoveVerseNumberToStart(text)
  {
    MoveWithoutEmbedding(MoveVerseNumberToStart(text));
  }

  // ---------------------------------------------------------------------
  // format_hebrew_paragraph
  // ---------------------------------------------------------------------

  /** A run after `apply_hebrew_font`: Frank Ruehl at 16 pt, nothing else
      changed. */
  function HebrewRun(r: Run): (c: Run)
    ensures c.font == Some(HEBREW_FONT) && c.size == Some(HEBREW_SIZE)
    ensures c.(font := r.font, size := r.size) == r
  {
    r.(font := Some(HEBREW_FONT), size := Some(HEBREW_SIZE))
  }

  function HebrewRuns(runs: seq<Run>): (r: seq<Run>)
    ensures |r| == |runs| && forall i :: 0 <= i < |r| ==> r[i] == HebrewRun(runs[i])
  {
    seq(|runs|, i requires 0 <= i < |runs| => HebrewRun(runs[i]))
  }

  /** What `format_hebrew_paragraph` makes of one paragraph. A paragraph
      without Hebrew letters is left as it is; one with Hebrew is aligned
      right, marked right-to-left, and its text, now a single Frank Ruehl
      16 pt run, is the moved verse line. */
  function FormatHebrew(p: Paragraph): (r: Paragraph)
    ensures !ContainsHebrew(Text(p)) ==> r == p
    ensures ContainsHebrew(Text(p)) ==>
      && r.alignment == Some(ALIGN_RIGHT) && r.bidi == Some(true)
      && Text(r) == MoveVerseNumberToStart(Text(p))
      && |r.runs| == 1 && r.runs[0].font == Some(HEBREW_FONT) && r.runs[0].size == Some(HEBREW_SIZE)
  {
    if ContainsHebrew(Text(p)) then
      var run := HebrewRun(PlainRun(MoveVerseNumberToStart(Text(p))));
      RunTextsSingle(run);
      Paragraph([run], Some(ALIGN_RIGHT), Some(true))
    else p
  }

  /** `apply_hebrew_font(paragraph)`. */
  method ApplyHebrewFont(p: DocParagraph)
    modifies p
    ensures p.runs == HebrewRuns(old(p.runs))
    ensures p.alignment == old(p.alignment) && p.bidi == old(p.bidi)
  {
    var j := 0;
    while j < |p.runs|
      invariant 0 <= j <= |p.runs| == |old(p.runs)|
      invariant forall k :: 0 <= k < j ==> p.runs[k] == HebrewRun(old(p.runs)[k])
      invariant forall k :: j <= k < |p.runs| ==> p.runs[k] == old(p.runs)[k]
      invariant p.alignment == old(p.alignment) && p.bidi == old(p.bidi)
    {
      p.runs := p.runs[j := p.runs[j].(font := Some(HEBREW_FONT), size := Some(HEBREW_SIZE))];
      j := j + 1;
    }
  }

  /** `format_hebrew_paragraph(document)` over the document's paragraphs. */
  method FormatHebrewParagraphs(paras: seq<DocParagraph>)
    requires forall i, j :: 0 <= i < j < |paras| ==> paras[i] != paras[j]
    modifies set p | p in paras
    ensures forall i :: 0 <= i < |paras| ==> paras[i].Value() == FormatHebrew(old(paras[i].Value()))
  {
    ghost var before := Values(paras);
    var n := 0;
    while n < |paras|
      invariant 0 <= n <= |paras|
      invariant forall i :: 0 <= i < n ==> paras[i].Value() == FormatHebrew(before[i])
      invariant forall i :: n <= i < |paras| ==> paras[i].Value() == before[i]
    {
      label Step:
      FormatHebrewParagraph(paras[n]);
      assert forall i :: 0 <= i < |paras| && i != n ==> paras[i].Value() == old@Step(paras[i].Value());
      n := n + 1;
    }
  }

  /** The body of the loop of `format_hebrew_paragraph`, on one paragraph. */
  method FormatHebrewParagraph(p: DocParagraph)
    modifies p
    ensures p.Value() == FormatHebrew(old(p.Value()))
  {
    if ContainsHebrew(p.Text()) {
      ghost var moved := MoveVerseNumberToStart(p.Text());
      p.alignment := Some(ALIGN_RIGHT);
      p.bidi := Some(true);
      p.SetText(MoveVerseNumberToStart(p.Text()));
      ApplyHebrewFont(p);
      assert p.runs == [HebrewRun(PlainRun(moved))];
    }
  }

  // ---------------------------------------------------------------------
  // update_second_line
  // ---------------------------------------------------------------------

  /** A text from its first "Chapter" on; the text itself when it has none.
      What is cut off holds no "Chapter". */
  function FromChapter(text: string): (r: string)
    ensures !Contains(text, "Chapter") ==> r == text
    ensures Contains(text, "Chapter") ==>
      StartsWith(r, "Chapter") && EndsWith(text, r) && !Contains(text[..|text| - |r|], "Chapter")
  {
    match Find(text, "Chapter")
    case None => text
    case Some(k) =>
      PrefixBeforeFirst(text, "Chapter", k);
      text[k..]
  }

  /** Nothing before the first occurrence holds an occurrence. */
  lemma PrefixBeforeFirst(s: string, p: string, k: nat)
    requires p != [] && Find(s, p) == Some(k)
    ensures !Contains(s[..k], p)
  {
    forall j | 0 <= j <= k ensures !OccursAt(s[..k], p, j) {
      if j + |p| <= k {
        assert !OccursAt(s, p, j);
        assert s[..k][j..j + |p|] == s[j..j + |p|];
      }
    }
  }

  /** `update_second_line(document)`: only the second paragraph may change,
      and only when there are two paragraphs and the second holds "Chapter";
      its text then starts at its first "Chapter", set through the text
      setter. */
  method UpdateSecondLine(paras: seq<DocParagraph>)
    modifies if |paras| >= 2 then {paras[1]} else {}
    ensures |paras| >= 2 ==>
      paras[1].runs == (if Contains(old(paras[1].Text()), "Chapter")
                        then [PlainRun(FromChapter(old(paras[1].Text())))] else old(paras[1].runs))
    ensures |paras| >= 2 ==> paras[1].Text() == FromChapter(old(paras[1].Text()))
    ensures |paras| >= 2 ==> paras[1].alignment == old(paras[1].alignment) && paras[1].bidi == old(paras[1].bidi)
  {
    if |paras| >= 2 {
      var second := paras[1];
      if Contains(second.Text(), "Chapter") {
        var chapterIndex := Find(second.Text(), "Chapter").value;
        var updated := second.Text()[chapterIndex..];
        second.SetText(updated);
      }
    }
  }
}
