/** The colon passes of the pipeline: the English "::" rewrite
    (`remove_second_colon_eng`, `process_paragraph`), the Hebrew verse-number
    colon fix (`remove_second_colon`), and the run-level removal and
    re-insertion of verse-final colons (`docx_remove_colons`,
    `docx_add_colons`). */
module Colons {
  import opened Wrappers
  import opened Strings
  import opened Docx

  // ---------------------------------------------------------------------
  // remove_second_colon_eng and process_paragraph
  // ---------------------------------------------------------------------

  /** `re.sub(r"::", r":", text)`: every non-overlapping "::", found from
      left to right, becomes ":". */
  function RemoveSecondColonEng(text: string): (r: string)
    ensures |r| <= |text|
  {
    ReplaceAllNoLonger(text, "::", ":");
    ReplaceAll(text, "::", ":")
  }

  lemma {:induction false} ReplaceAllNoLonger(s: string, pat: string, rep: string)
    requires pat != [] && |rep| <= |pat|
    ensures |ReplaceAll(s, pat, rep)| <= |s|
    decreases |s|
  {
    if |s| >= |pat| {
      if s[..|pat|] == pat {
        ReplaceAllNoLonger(s[|pat|..], pat, rep);
      } else {
        ReplaceAllNoLonger(s[1..], pat, rep);
      }
    }
  }

  /** A replacement shorter than the pattern shortens any text the pattern
      occurs in. */
  lemma {:induction false} ReplaceAllShrinks(s: string, pat: string, rep: string, k: nat)
    requires pat != [] && |rep| < |pat|
    requires OccursAt(s, pat, k)
    ensures |ReplaceAll(s, pat, rep)| < |s|
    decreases |s|
  {
    if s[..|pat|] == pat {
      ReplaceAllNoLonger(s[|pat|..], pat, rep);
    } else {
      assert k != 0 by { assert s[0..|pat|] == s[..|pat|]; }
      assert s[1..][k - 1..k - 1 + |pat|] == s[k..k + |pat|];
      ReplaceAllShrinks(s[1..], pat, rep, k - 1);
    }
  }

  /** The rewrite changes a text exactly when the text contains "::". */
  lemma RemoveSecondColonEngUnchanged(text: string)
    ensures RemoveSecondColonEng(text) == text <==> !Contains(text, "::")
  {
    if Contains(text, "::") {
      ReplaceAllShrinks(text, "::", ":", Find(text, "::").value);
    } else {
      ReplaceAllAbsent(text, "::", ":");
    }
  }

  /** A run of k colons becomes a run of ceil(k/2) colons: the rewrite pairs
      colons off from the left; it does not collapse a run to one colon. */
  lemma {:induction false} ColonRunHalves(k: nat)
    ensures RemoveSecondColonEng(Repeat(':', k)) == Repeat(':', (k + 1) / 2)
  {
    var s := Repeat(':', k);
    if k < 2 {
      assert (k + 1) / 2 == k;
    } else {
      assert s[..2] == "::";
      assert s[2..] == Repeat(':', k - 2);
      ColonRunHalves(k - 2);
      assert ":" + Repeat(':', (k - 1) / 2) == Repeat(':', (k + 1) / 2);
    }
  }

  /** ":::" becomes "::", which becomes ":": the rewrite is not idempotent. */
  lemma RemoveSecondColonEngNotIdempotent()
    ensures RemoveSecondColonEng(":::") == "::"
    ensures RemoveSecondColonEng(RemoveSecondColonEng(":::")) == ":"
  {
    ColonRunHalves(3);
    ColonRunHalves(2);
    assert Repeat(':', 3) == ":::";
    assert Repeat(':', 2) == "::";
    assert Repeat(':', 1) == ":";
  }

  /** The runs with their texts emptied and their formatting kept. */
  function Blanked(runs: seq<Run>): (r: seq<Run>)
    ensures |r| == |runs|
    ensures forall i :: 0 <= i < |r| ==> r[i].text == [] && r[i].(text := runs[i].text) == runs[i]
  {
    seq(|runs|, i requires 0 <= i < |runs| => runs[i].(text := []))
  }

  lemma {:induction false} BlankedText(runs: seq<Run>)
    ensures RunTexts(Blanked(runs)) == []
    decreases |runs|
  {
    if runs != [] {
      assert Blanked(runs)[1..] == Blanked(runs[1..]);
      BlankedText(runs[1..]);
    }
  }

  /** `process_paragraph`: when the rewrite changes the joined run text, every
      run is emptied and one run holding the new text is appended; otherwise
      the paragraph is left alone. */
  method ProcessParagraph(p: DocParagraph)
    modifies p
    ensures var before := RunTexts(old(p.runs));
      p.runs == if RemoveSecondColonEng(before) == before then old(p.runs)
                else Blanked(old(p.runs)) + [PlainRun(RemoveSecondColonEng(before))]
    ensures p.Text() == RemoveSecondColonEng(old(p.Text()))
    ensures p.alignment == old(p.alignment) && p.bidi == old(p.bidi)
  {
    var paraText := p.Text();
    var updated := RemoveSecondColonEng(paraText);
    if paraText != updated {
      var j := 0;
      while j < |p.runs|
        invariant 0 <= j <= |p.runs| == |old(p.runs)|
        invariant forall k :: 0 <= k < j ==> p.runs[k] == old(p.runs)[k].(text := [])
        invariant forall k :: j <= k < |p.runs| ==> p.runs[k] == old(p.runs)[k]
        invariant p.alignment == old(p.alignment) && p.bidi == old(p.bidi)
      {
        p.runs := p.runs[j := p.runs[j].(text := [])];
        j := j + 1;
      }
      assert p.runs == Blanked(old(p.runs));
      p.AddRun(updated);
      RunTextsAppend(Blanked(old(p.runs)), [PlainRun(updated)]);
      BlankedText(old(p.runs));
      RunTextsSingle(PlainRun(updated));
    }
  }

  /** A paragraph whose text has no "::" is left exactly as it was. */
  lemma ProcessParagraphNoDoubleColon(runs: seq<Run>)
    requires !Contains(RunTexts(runs), "::")
    ensures RemoveSecondColonEng(RunTexts(runs)) == RunTexts(runs)
  {
    RemoveSecondColonEngUnchanged(RunTexts(runs));
  }

  // ---------------------------------------------------------------------
  // remove_second_colon
  // ---------------------------------------------------------------------

  /** The end of a verse-number marker: ")", LEFT-TO-RIGHT EMBEDDING, ":". */
  const CLOSE: string := [')', LRE, ':']

  /** The pattern `:\((\D+)\)‪:` matches `s[i..k + 3]`, its group being
      `s[i + 2..k]`. */
  predicate MarkerSpan(s: string, i: nat, k: nat) {
    && OccursAt(s, ":(", i)
    && i + 3 <= k
    && OccursAt(s, CLOSE, k)
    && forall j :: i + 2 <= j < k ==> !IsDigit(s[j])
  }

  /** The largest group end at most `hi` of a match starting at `i`. */
  function LastMarkerEnd(s: string, i: nat, hi: nat): (r: Option<nat>)
    ensures r.Some? ==> r.value <= hi && MarkerSpan(s, i, r.value)
    ensures r.Some? ==> forall k :: r.value < k <= hi ==> !MarkerSpan(s, i, k)
    ensures r.None? ==> forall k: nat :: k <= hi ==> !MarkerSpan(s, i, k)
    decreases hi
  {
    if hi < i + 3 then None
    else if MarkerSpan(s, i, hi) then Some(hi)
    else LastMarkerEnd(s, i, hi - 1)
  }

  /** The match the greedy `\D+` makes at `i`: the one with the largest group
      end, or `None` when the pattern does not match at `i`. */
  function MarkerAt(s: string, i: nat): (r: Option<nat>)
    ensures r.Some? ==> MarkerSpan(s, i, r.value)
    ensures r.Some? ==> forall k :: r.value < k ==> !MarkerSpan(s, i, k)
    ensures r.None? ==> forall k: nat :: !MarkerSpan(s, i, k)
  {
    LastMarkerEnd(s, i, |s|)
  }

  /** The substitution `r" (\2)‪:"` applied from index `i` on: each
      match, found left to right without overlap, has its leading ':' turned
      into a space and everything else kept. */
  function ColonFix(s: string, i: nat): (r: string)
    requires i <= |s|
    ensures |r| == |s| - i
    ensures forall j :: 0 <= j < |r| ==> r[j] == s[i + j] || (s[i + j] == ':' && r[j] == ' ')
    decreases |s| - i
  {
    if i == |s| then []
    else match MarkerAt(s, i)
      case Some(k) => [' '] + s[i + 1..k + 3] + ColonFix(s, k + 3)
      case None => [s[i]] + ColonFix(s, i + 1)
  }

  /** `re.sub(r"(:\((\D+)\)‪):", r" (\2)‪:", text)`. */
  function RemoveSecondColonText(text: string): (r: string)
    ensures |r| == |text|
  {
    ColonFix(text, 0)
  }

  /** No match of the pattern starts at or after `i`. */
  predicate NoMarkerFrom(s: string, i: nat) {
    forall j, k :: i <= j < |s| && 0 <= k < |s| ==> !MarkerSpan(s, j, k)
  }

  /** The substitution leaves the text alone exactly when the pattern matches
      nowhere in it. */
  lemma {:induction false} ColonFixUnchanged(s: string, i: nat)
    requires i <= |s|
    ensures ColonFix(s, i) == s[i..] <==> NoMarkerFrom(s, i)
    decreases |s| - i
  {
    if i < |s| {
      match MarkerAt(s, i)
      case Some(k) =>
        assert ColonFix(s, i)[0] == ' ' && s[i..][0] == ':';
        assert MarkerSpan(s, i, k) && k < |s|;
      case None =>
        var rest := ColonFix(s, i + 1);
        assert ColonFix(s, i) == [s[i]] + rest;
        assert s[i..] == [s[i]] + s[i + 1..];
        ColonFixUnchanged(s, i + 1);
        if rest == s[i + 1..] {
          forall j, k | i <= j < |s| && 0 <= k < |s| ensures !MarkerSpan(s, j, k) {
            if j > i {
              assert !MarkerSpan(s, j, k);
            }
          }
        } else {
          assert ([s[i]] + rest)[1..] == rest;
        }
    }
  }

  /** The substitution on one verse marker ":(X)‪:" whose X has no
      digit and no ')': only the first colon changes. */
  lemma RemoveSecondColonMarker(x: string)
    requires x != [] && forall j :: 0 <= j < |x| ==> !IsDigit(x[j]) && x[j] != ')'
    ensures RemoveSecondColonText(":(" + x + CLOSE) == " (" + x + CLOSE
  {
    var s := ":(" + x + CLOSE;
    var e := |x| + 2;
    assert OccursAt(s, ":(", 0);
    assert OccursAt(s, CLOSE, e);
    assert MarkerSpan(s, 0, e);
    var m := MarkerAt(s, 0);
    assert m.value == e by {
      forall k: nat | e < k ensures !MarkerSpan(s, 0, k) {
      }
    }
    assert ColonFix(s, e + 3) == [];
    assert s[1..e + 3] == "(" + x + CLOSE;
  }

  /** `remove_second_colon(para_text, paragraph)`: the paragraph's runs are
      cleared and replaced by one run holding the rewritten text. */
  method RemoveSecondColon(paraText: string, p: DocParagraph)
    modifies p
    ensures p.runs == [PlainRun(RemoveSecondColonText(paraText))]
    ensures p.Text() == RemoveSecondColonText(paraText)
    ensures p.alignment == old(p.alignment) && p.bidi == old(p.bidi)
  {
    var fixed := RemoveSecondColonText(paraText);
    p.Clear();
    p.AddRun(fixed);
    RunTextsSingle(PlainRun(fixed));
  }

  /** A paragraph after the post-weaving pass: one run holding the rewrite of
      its stripped text, the paragraph format kept. */
  function ColonFixedParagraph(v: Paragraph): Paragraph {
    Paragraph([PlainRun(RemoveSecondColonText(Strip(Text(v))))], v.alignment, v.bidi)
  }

  /** What the pass leaves: the rewrite of the stripped text, in one run, and
      the paragraph format as it was. */
  lemma ColonFixedParagraphText(v: Paragraph)
    ensures var r := ColonFixedParagraph(v);
      Text(r) == RemoveSecondColonText(Strip(Text(v))) && |r.runs| == 1
      && r.alignment == v.alignment && r.bidi == v.bidi
  {
    RunTextsSingle(PlainRun(RemoveSecondColonText(Strip(Text(v)))));
  }

  /** The post-weaving loop over the document's paragraphs: each one gets the
      rewrite of its own stripped text. */
  method RemoveSecondColonPass(paras: seq<DocParagraph>)
    requires forall i, j :: 0 <= i < j < |paras| ==> paras[i] != paras[j]
    modifies set p | p in paras
    ensures forall i :: 0 <= i < |paras| ==> paras[i].Value() == ColonFixedParagraph(old(paras[i].Value()))
  {
    ghost var before := Values(paras);
    var n := 0;
    while n < |paras|
      invariant 0 <= n <= |paras|
      invariant forall i :: 0 <= i < n ==> paras[i].Value() == ColonFixedParagraph(before[i])
      invariant forall i :: n <= i < |paras| ==> paras[i].Value() == before[i]
    {
      RemoveSecondColonAt(paras, n);
      n := n + 1;
    }
  }

  /** One step of the loop: paragraph `n` is rewritten, the others keep their
      contents. */
  method RemoveSecondColonAt(paras: seq<DocParagraph>, n: nat)
    requires n < |paras|
    requires forall i, j :: 0 <= i < j < |paras| ==> paras[i] != paras[j]
    modifies paras[n]
    ensures paras[n].Value() == ColonFixedParagraph(old(paras[n].Value()))
    ensures forall i :: 0 <= i < |paras| && i != n ==> paras[i].Value() == old(paras[i].Value())
  {
    RemoveSecondColonOfText(paras[n]);
  }

  /** The body of the post-weaving loop: the paragraph's stripped text is
      read and handed to `remove_second_colon`. */
  method RemoveSecondColonOfText(para: DocParagraph)
    modifies para
    ensures para.Value() == ColonFixedParagraph(old(para.Value()))
  {
    var paraText := Strip(para.Text());
    RemoveSecondColon(paraText, para);
  }

  // ---------------------------------------------------------------------
  // docx_remove_colons
  // ---------------------------------------------------------------------

  /** A run with every ':' deleted from its text. */
  function ColonFreeRun(r: Run): (c: Run)
    ensures ':' !in c.text && c.(text := r.text) == r
  {
    r.(text := DeleteChar(r.text, ':'))
  }

  function ColonFreeRuns(runs: seq<Run>): (r: seq<Run>)
    ensures |r| == |runs|
    ensures forall i :: 0 <= i < |r| ==> ':' !in r[i].text && r[i].(text := runs[i].text) == runs[i]
  {
    seq(|runs|, i requires 0 <= i < |runs| => ColonFreeRun(runs[i]))
  }

  /** Deleting colons run by run deletes them from the paragraph text. */
  lemma {:induction false} ColonFreeRunsText(runs: seq<Run>)
    ensures RunTexts(ColonFreeRuns(runs)) == DeleteChar(RunTexts(runs), ':')
    decreases |runs|
  {
    if runs != [] {
      assert ColonFreeRuns(runs)[1..] == ColonFreeRuns(runs[1..]);
      ColonFreeRunsText(runs[1..]);
      DeleteCharConcat(runs[0].text, RunTexts(runs[1..]), ':');
    }
  }

  /** A second removal pass changes nothing. */
  lemma ColonFreeRunsIdempotent(runs: seq<Run>)
    ensures ColonFreeRuns(ColonFreeRuns(runs)) == ColonFreeRuns(runs)
  {
    var once := ColonFreeRuns(runs);
    forall i | 0 <= i < |once| ensures ColonFreeRun(once[i]) == once[i] {
      DeleteCharAbsent(once[i].text, ':');
    }
  }

  /** The inner loop of `docx_remove_colons` over one paragraph's runs. */
  method RemoveColonsFromRuns(p: DocParagraph)
    modifies p
    ensures p.runs == ColonFreeRuns(old(p.runs))
    ensures p.alignment == old(p.alignment) && p.bidi == old(p.bidi)
  {
    var j := 0;
    while j < |p.runs|
      invariant 0 <= j <= |p.runs| == |old(p.runs)|
      invariant forall k :: 0 <= k < j ==> p.runs[k] == ColonFreeRun(old(p.runs)[k])
      invariant forall k :: j <= k < |p.runs| ==> p.runs[k] == old(p.runs)[k]
      invariant p.alignment == old(p.alignment) && p.bidi == old(p.bidi)
    {
      p.runs := p.runs[j := p.runs[j].(text := DeleteChar(p.runs[j].text, ':'))];
      j := j + 1;
    }
  }

  /** One loop of `docx_remove_colons`. The same paragraph may be listed more
      than once (a merged table cell is returned once per grid cell it
      spans); a repeated visit changes nothing. */
  method RemoveColonsFromParagraphs(ps: seq<DocParagraph>)
    modifies set p | p in ps
    ensures forall p :: p in ps ==> (p.runs == ColonFreeRuns(old(p.runs))
      && p.alignment == old(p.alignment) && p.bidi == old(p.bidi))
  {
    var i := 0;
    while i < |ps|
      invariant 0 <= i <= |ps|
      invariant forall p :: p in ps[..i] ==> (p.runs == ColonFreeRuns(old(p.runs))
        && p.alignment == old(p.alignment) && p.bidi == old(p.bidi))
      invariant forall p :: p in ps && p !in ps[..i] ==> (p.runs == old(p.runs)
        && p.alignment == old(p.alignment) && p.bidi == old(p.bidi))
    {
      var p := ps[i];
      if p in ps[..i] {
        ColonFreeRunsIdempotent(old(p.runs));
      }
      RemoveColonsFromRuns(p);
      assert ps[..i + 1] == ps[..i] + [p];
      i := i + 1;
    }
  }

  /** `docx_remove_colons`: every run of the body paragraphs and of the
      table-cell paragraphs loses all its colons and keeps its formatting. */
  method DocxRemoveColons(body: seq<DocParagraph>, cells: seq<DocParagraph>)
    modifies set p | p in body + cells
    ensures forall p :: p in body + cells ==> (p.runs == ColonFreeRuns(old(p.runs))
      && p.alignment == old(p.alignment) && p.bidi == old(p.bidi))
  {
    RemoveColonsFromParagraphs(body);
    label mid:
    RemoveColonsFromParagraphs(cells);
    forall p | p in body + cells
      ensures p.runs == ColonFreeRuns(old(p.runs))
      ensures p.alignment == old(p.alignment) && p.bidi == old(p.bidi)
    {
      if p in body && p in cells {
        ColonFreeRunsIdempotent(old(p.runs));
        assert old@mid(p.runs) == ColonFreeRuns(old(p.runs));
      }
    }
  }

  // ---------------------------------------------------------------------
  // docx_add_colons
  // ---------------------------------------------------------------------

  /** The verse-final colon `docx_add_colons` appends: LRE, then ':'. */
  const ADDED_COLON: string := [LRE, ':']

  /** A run text after `docx_add_colons`: stripped, with the colon added
      when the stripped text is non-empty and does not end in ':'. */
  function AddColonText(t: string): string {
    var s := Strip(t);
    if s != [] && s[|s| - 1] != ':' then s + ADDED_COLON else s
  }

  /** The new text is empty only when the stripped text is; otherwise it
      ends in ':' and starts with the stripped text, which it extends only
      when that does not already end in ':'. */
  lemma AddColonTextShape(t: string)
    ensures var r := AddColonText(t);
      && (r == [] <==> Strip(t) == [])
      && (r != [] ==> r[|r| - 1] == ':' && !IsSpace(r[0]))
      && StartsWith(r, Strip(t)) && |r| <= |Strip(t)| + 2
      && (r == Strip(t) <==> Strip(t) == [] || EndsWith(Strip(t), ":"))
  {
  }

  /** A second pass leaves the text as the first one made it. */
  lemma AddColonTextIdempotent(t: string)
    ensures AddColonText(AddColonText(t)) == AddColonText(t)
  {
    var r := AddColonText(t);
    AddColonTextShape(t);
    StripOfStripped(r);
  }

  /** Removing every colon and then adding one gives a text with exactly one
      colon, the added one at its end. */
  lemma RemoveThenAddColon(t: string)
    ensures var r := AddColonText(DeleteChar(t, ':'));
      r == [] || (EndsWith(r, ADDED_COLON) && ':' !in r[..|r| - 1])
  {
    var d := DeleteChar(t, ':');
    var s := Strip(d);
    StripKeeps(d);
    if s != [] {
      assert s[|s| - 1] in d;
      var r := AddColonText(d);
      assert r == s + ADDED_COLON;
      assert r[..|r| - 1] == s + [LRE];
    }
  }

  /** A run after `docx_add_colons`: new text and the "David" font. */
  function AddColonRun(r: Run): (c: Run)
    ensures c.text == AddColonText(r.text) && c.font == Some("David")
    ensures c.(text := r.text, font := r.font) == r
  {
    r.(text := AddColonText(r.text), font := Some("David"))
  }

  function AddColonRuns(runs: seq<Run>): (r: seq<Run>)
    ensures |r| == |runs|
    ensures forall i :: 0 <= i < |r| ==> r[i] == AddColonRun(runs[i])
  {
    seq(|runs|, i requires 0 <= i < |runs| => AddColonRun(runs[i]))
  }

  lemma AddColonRunsIdempotent(runs: seq<Run>)
    ensures AddColonRuns(AddColonRuns(runs)) == AddColonRuns(runs)
  {
    var once := AddColonRuns(runs);
    forall i | 0 <= i < |once| ensures AddColonRun(once[i]) == once[i] {
      AddColonTextIdempotent(runs[i].text);
    }
  }

  /** A paragraph after `docx_add_colons`: aligned right, each run rewritten,
      its direction kept. */
  function AddColonsParagraph(v: Paragraph): Paragraph {
    v.(runs := AddColonRuns(v.runs), alignment := Some(ALIGN_RIGHT))
  }

  /** One paragraph of `docx_add_colons`: right alignment, then the runs. */
  method AddColonsToParagraph(p: DocParagraph)
    modifies p
    ensures p.runs == AddColonRuns(old(p.runs))
    ensures p.alignment == Some(ALIGN_RIGHT) && p.bidi == old(p.bidi)
  {
    ghost var before := p.runs;
    p.alignment := Some(ALIGN_RIGHT);
    var j := 0;
    while j < |p.runs|
      invariant 0 <= j <= |p.runs| == |before|
      invariant forall k :: 0 <= k < j ==> p.runs[k] == AddColonRun(before[k])
      invariant forall k :: j <= k < |p.runs| ==> p.runs[k] == before[k]
      invariant p.alignment == Some(ALIGN_RIGHT) && p.bidi == old(p.bidi)
    {
      var run := AddColonToRun(p.runs[j]);
      p.runs := p.runs[j := run];
      j := j + 1;
    }
  }

  /** The body of the loop over a paragraph's runs. */
  method AddColonToRun(run: Run) returns (c: Run)
    ensures c == AddColonRun(run)
  {
    var text := Strip(run.text);
    if text != [] && !EndsWith(text, ":") {
      text := text + ADDED_COLON;
    }
    EndsWithChar(Strip(run.text), ':');
    c := run.(text := text, font := Some("David"));
  }

  /** `docx_add_colons` over the document's paragraphs. */
  method DocxAddColons(paras: seq<DocParagraph>)
    requires forall i, j :: 0 <= i < j < |paras| ==> paras[i] != paras[j]
    modifies set p | p in paras
    ensures forall i :: 0 <= i < |paras| ==> paras[i].Value() == AddColonsParagraph(old(paras[i].Value()))
  {
    ghost var before := Values(paras);
    var n := 0;
    while n < |paras|
      invariant 0 <= n <= |paras|
      invariant forall i :: 0 <= i < n ==> paras[i].Value() == AddColonsParagraph(before[i])
      invariant forall i :: n <= i < |paras| ==> paras[i].Value() == before[i]
    {
      label Step:
      AddColonsToParagraph(paras[n]);
      assert forall i :: 0 <= i < |paras| && i != n ==> paras[i].Value() == old@Step(paras[i].Value());
      n := n + 1;
    }
  }
}
