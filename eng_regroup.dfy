/** `reformat_eng_docx` (`1B_format_eng.py`, `torah_web_scraper/new_getEng.py`,
    `old_code/1_engBereshit.py`): the paragraphs of an English chapter are
    regrouped so that each "Verse ..." paragraph starts one output paragraph
    and the paragraphs that follow it are appended to it. The document is
    given by the texts of its paragraphs and the result is the list of texts
    the new document receives, one paragraph each. */
module EngRegroup {
  import opened Strings

  /** A paragraph that opens a verse: its stripped text starts with "Verse". */
  predicate IsVerse(t: string) {
    StartsWith(Strip(t), "Verse")
  }

  /** A paragraph that continues the current verse: not a verse, not blank. */
  predicate Continues(t: string) {
    !IsVerse(t) && Strip(t) != []
  }

  /** What a paragraph contributes: its stripped text with every newline
      turned into a space. */
  function Line(t: string): (r: string)
    ensures '\n' !in r && |r| == |Strip(t)|
  {
    var s := Strip(t);
    var r := ReplaceChar(s, '\n', ' ');
    assert forall k :: 0 <= k < |r| ==> r[k] != '\n';
    r
  }

  /** The role a paragraph plays in the regrouping. */
  datatype Piece = Opens(line: string) | Adds(line: string) | Blank

  function Classify(t: string): (r: Piece)
    ensures r.Opens? <==> IsVerse(t)
    ensures r.Adds? <==> Continues(t)
    ensures !r.Blank? ==> r.line == Line(t) && r.line != [] && '\n' !in r.line
  {
    if IsVerse(t) then Opens(Line(t))
    else if Strip(t) != [] then Adds(Line(t))
    else Blank
  }

  function Pieces(ts: seq<string>): (ps: seq<Piece>)
    ensures |ps| == |ts| && forall i :: 0 <= i < |ts| ==> ps[i] == Classify(ts[i])
  {
    seq(|ts|, i requires 0 <= i < |ts| => Classify(ts[i]))
  }

  /** The loop's two variables: the finished paragraphs and the verse being
      accumulated. */
  datatype Acc = Acc(done: seq<string>, current: string)

  /** The loop's state after one more piece. */
  function Step(a: Acc, p: Piece): Acc {
    match p
    case Opens(line) => Acc(if a.current != [] then a.done + [a.current] else a.done, line)
    case Adds(line) => Acc(a.done, a.current + " " + line)
    case Blank => a
  }

  /** The loop's state after the pieces `ps`. */
  function Scan(ps: seq<Piece>): Acc
    decreases |ps|
  {
    if ps == [] then Acc([], "") else Step(Scan(ps[..|ps| - 1]), ps[|ps| - 1])
  }

  /** The paragraphs made of the pieces: the finished ones and the last
      accumulated verse when it is not empty. */
  function Groups(ps: seq<Piece>): seq<string> {
    var a := Scan(ps);
    if a.current != [] then a.done + [a.current] else a.done
  }

  /** The paragraphs of the new document. */
  function Regroup(ts: seq<string>): seq<string> {
    Groups(Pieces(ts))
  }

  /** The pieces are lines without newlines, non-empty where they count. */
  predicate CleanPieces(ps: seq<Piece>) {
    forall i :: 0 <= i < |ps| ==> !ps[i].Blank? ==> ps[i].line != [] && '\n' !in ps[i].line
  }

  lemma CleanPrefix(ps: seq<Piece>, m: nat)
    requires CleanPieces(ps) && m <= |ps|
    ensures CleanPieces(ps[..m])
  {
    assert forall i :: 0 <= i < m ==> ps[..m][i] == ps[i];
  }

  /** While nothing has been accumulated nothing has been finished either. */
  lemma {:induction false} ScanEmptyCurrent(ps: seq<Piece>)
    requires CleanPieces(ps)
    ensures Scan(ps).current == [] ==> Scan(ps).done == []
    decreases |ps|
  {
    if ps != [] {
      CleanPrefix(ps, |ps| - 1);
      ScanEmptyCurrent(ps[..|ps| - 1]);
    }
  }

  /** How one more piece changes the paragraphs: a verse opens a new
      paragraph, a continuation extends the last one (or opens the first one
      with a leading space), and a blank piece changes nothing. */
  lemma GroupsStep(ps: seq<Piece>, p: Piece)
    requires CleanPieces(ps) && (p.Opens? ==> p.line != [])
    ensures p.Opens? ==> Groups(ps + [p]) == Groups(ps) + [p.line]
    ensures p.Adds? && Groups(ps) == [] ==> Groups(ps + [p]) == [" " + p.line]
    ensures p.Adds? && Groups(ps) != [] ==>
      Groups(ps + [p]) == Groups(ps)[..|Groups(ps)| - 1] + [Groups(ps)[|Groups(ps)| - 1] + " " + p.line]
    ensures p.Blank? ==> Groups(ps + [p]) == Groups(ps)
  {
    var all := ps + [p];
    assert all[..|all| - 1] == ps && all[|all| - 1] == p;
    ScanEmptyCurrent(ps);
    var a := Scan(ps);
    if a.current != [] {
      assert Groups(ps)[..|Groups(ps)| - 1] == a.done;
    } else if p.Adds? {
      assert a.current + " " + p.line == " " + p.line;
    }
  }

  /** No paragraph made of clean pieces is empty or holds a newline. */
  lemma {:induction false} GroupsClean(ps: seq<Piece>)
    requires CleanPieces(ps)
    ensures forall g :: g in Groups(ps) ==> g != [] && '\n' !in g
    decreases |ps|
  {
    if ps != [] {
      var front := ps[..|ps| - 1];
      var p := ps[|ps| - 1];
      assert front + [p] == ps;
      CleanPrefix(ps, |ps| - 1);
      GroupsClean(front);
      GroupsStep(front, p);
      if p.Adds? && Groups(front) != [] {
        var last := Groups(front)[|Groups(front)| - 1];
        assert last in Groups(front);
        assert forall g :: g in Groups(front)[..|Groups(front)| - 1] ==> g in Groups(front);
        var grown := last + " " + p.line;
        assert '\n' !in grown by {
          assert forall x :: x in grown ==> x in last || x == ' ' || x in p.line;
        }
      }
    }
  }

  /** No paragraph of the new document is empty or holds a newline. */
  lemma RegroupClean(ts: seq<string>)
    ensures forall g :: g in Regroup(ts) ==> g != [] && '\n' !in g
  {
    PiecesClean(ts);
    GroupsClean(Pieces(ts));
  }

  /** The number of verse pieces. */
  function Opened(ps: seq<Piece>): (n: nat)
    ensures n <= |ps|
    decreases |ps|
  {
    if ps == [] then 0 else Opened(ps[..|ps| - 1]) + if ps[|ps| - 1].Opens? then 1 else 0
  }

  lemma {:induction false} OpenedZero(ps: seq<Piece>)
    ensures Opened(ps) == 0 <==> forall j :: 0 <= j < |ps| ==> !ps[j].Opens?
    decreases |ps|
  {
    if ps != [] {
      var front := ps[..|ps| - 1];
      OpenedZero(front);
      assert forall j :: 0 <= j < |front| ==> front[j] == ps[j];
    }
  }

  /** Some continuation comes before the first verse. */
  predicate Preamble(ps: seq<Piece>) {
    exists k :: 0 <= k < |ps| && PreambleAt(ps, k)
  }

  /** Piece `k` is a continuation and no verse comes before it. */
  predicate PreambleAt(ps: seq<Piece>, k: nat)
    requires k < |ps|
  {
    ps[k].Adds? && forall j :: 0 <= j < k ==> !ps[j].Opens?
  }

  lemma PreambleStep(ps: seq<Piece>, p: Piece)
    ensures Preamble(ps + [p]) <==> Preamble(ps) || (Opened(ps) == 0 && p.Adds?)
  {
    var all := ps + [p];
    OpenedZero(ps);
    assert forall j :: 0 <= j < |ps| ==> all[j] == ps[j];
    if Preamble(ps) {
      var k :| 0 <= k < |ps| && PreambleAt(ps, k);
      assert all[k] == ps[k];
      assert PreambleAt(all, k);
    } else if Opened(ps) == 0 && p.Adds? {
      assert all[|ps|] == p;
      assert PreambleAt(all, |ps|);
    }
    if Preamble(all) {
      var k :| 0 <= k < |all| && PreambleAt(all, k);
      if k < |ps| {
        assert ps[k] == all[k];
        assert PreambleAt(ps, k);
      }
    }
  }

  /** One paragraph per verse, and one more when a continuation comes before
      the first verse. */
  lemma {:induction false} GroupsCount(ps: seq<Piece>)
    requires CleanPieces(ps)
    ensures |Groups(ps)| == Opened(ps) + if Preamble(ps) then 1 else 0
    decreases |ps|
  {
    if ps != [] {
      var front := ps[..|ps| - 1];
      var p := ps[|ps| - 1];
      assert front + [p] == ps;
      CleanPrefix(ps, |ps| - 1);
      GroupsCount(front);
      GroupsStep(front, p);
      PreambleStep(front, p);
      if p.Adds? && Groups(front) != [] && Opened(front) == 0 {
        assert Preamble(front);
      }
    }
  }

  /** Later pieces only add: every paragraph made so far stays, and the last
      one can only grow at its end. */
  lemma {:induction false} GroupsExtend(ps: seq<Piece>, m: nat)
    requires m <= |ps| && CleanPieces(ps)
    ensures var a := Groups(ps[..m]); var b := Groups(ps);
      && |a| <= |b|
      && (forall g :: 0 <= g < |a| - 1 ==> b[g] == a[g])
      && (a != [] ==> StartsWith(b[|a| - 1], a[|a| - 1]))
    decreases |ps| - m
  {
    if m < |ps| {
      var a := Groups(ps[..m]);
      var c := Groups(ps[..m + 1]);
      assert ps[..m + 1] == ps[..m] + [ps[m]];
      CleanPrefix(ps, m);
      GroupsStep(ps[..m], ps[m]);
      GroupsExtend(ps, m + 1);
      if a != [] && ps[m].Adds? {
        assert c[|a| - 1] == a[|a| - 1] + " " + ps[m].line;
        assert c[|a| - 1][..|a[|a| - 1]|] == a[|a| - 1];
      }
    } else {
      assert ps[..m] == ps;
    }
  }

  /** The number of verse paragraphs among `ts`. */
  function VerseCount(ts: seq<string>): nat {
    Opened(Pieces(ts))
  }

  /** A non-blank paragraph comes before the first verse paragraph. */
  predicate HasPreamble(ts: seq<string>) {
    exists k :: 0 <= k < |ts| && TextPreambleAt(ts, k)
  }

  /** Paragraph `k` continues a verse and no verse paragraph comes before it. */
  predicate TextPreambleAt(ts: seq<string>, k: nat)
    requires k < |ts|
  {
    Continues(ts[k]) && forall j :: 0 <= j < k ==> !IsVerse(ts[j])
  }

  lemma PiecesClean(ts: seq<string>)
    ensures CleanPieces(Pieces(ts))
  {
  }

  lemma PiecesPreamble(ts: seq<string>)
    ensures HasPreamble(ts) <==> Preamble(Pieces(ts))
  {
    if HasPreamble(ts) {
      var k :| 0 <= k < |ts| && TextPreambleAt(ts, k);
      PreambleAtPieces(ts, k);
    }
    if Preamble(Pieces(ts)) {
      var k :| 0 <= k < |ts| && PreambleAt(Pieces(ts), k);
      PreambleAtPieces(ts, k);
    }
  }

  /** Classifying the paragraphs keeps where the preamble is. */
  lemma PreambleAtPieces(ts: seq<string>, k: nat)
    requires k < |ts|
    ensures TextPreambleAt(ts, k) <==> PreambleAt(Pieces(ts), k)
  {
    var ps := Pieces(ts);
    assert ps[k] == Classify(ts[k]);
    assert forall j :: 0 <= j < k ==> ps[j] == Classify(ts[j]);
  }

  /** The new document has one paragraph per verse paragraph, and one more
      when some text comes before the first verse. */
  lemma RegroupCount(ts: seq<string>)
    ensures |Regroup(ts)| == VerseCount(ts) + if HasPreamble(ts) then 1 else 0
  {
    PiecesClean(ts);
    GroupsCount(Pieces(ts));
    PiecesPreamble(ts);
  }

  /** The paragraph a verse piece opens starts with its line, after one
      paragraph per earlier verse piece and the preamble. */
  lemma OpensGroupAt(ps: seq<Piece>, i: nat)
    requires CleanPieces(ps) && i < |ps| && ps[i].Opens?
    ensures var g := Opened(ps[..i]) + if Preamble(ps[..i]) then 1 else 0;
      g < |Groups(ps)| && StartsWith(Groups(ps)[g], ps[i].line)
  {
    assert ps[..i + 1] == ps[..i] + [ps[i]];
    CleanPrefix(ps, i);
    GroupsStep(ps[..i], ps[i]);
    GroupsCount(ps[..i]);
    GroupsExtend(ps, i + 1);
  }

  /** The paragraph a verse opens starts with that verse's own text, and it
      comes after one paragraph per earlier verse (and the preamble). */
  lemma VerseOpensGroup(ts: seq<string>, i: nat)
    requires i < |ts| && IsVerse(ts[i])
    ensures var g := VerseCount(ts[..i]) + if HasPreamble(ts[..i]) then 1 else 0;
      g < |Regroup(ts)| && StartsWith(Regroup(ts)[g], Line(ts[i]))
  {
    var ps := Pieces(ts);
    PiecesClean(ts);
    PiecesPrefix(ts, i);
    assert VerseCount(ts[..i]) == Opened(ps[..i]);
    PiecesPreamble(ts[..i]);
    assert HasPreamble(ts[..i]) == Preamble(ps[..i]);
    assert ps[i] == Classify(ts[i]);
    OpensGroupAt(ps, i);
  }

  lemma PiecesPrefix(ts: seq<string>, m: nat)
    requires m <= |ts|
    ensures Pieces(ts[..m]) == Pieces(ts)[..m]
  {
  }

  /** The body of the loop of `reformat_eng_docx` for one paragraph. */
  method Accumulate(newParagraphs: seq<string>, currentVerse: string, text: string)
    returns (newParagraphs': seq<string>, currentVerse': string)
    ensures Acc(newParagraphs', currentVerse') == Step(Acc(newParagraphs, currentVerse), Classify(text))
  {
    newParagraphs', currentVerse' := newParagraphs, currentVerse;
    var paraText := Strip(text);
    if StartsWith(paraText, "Verse") {
      if currentVerse' != [] {
        newParagraphs' := newParagraphs' + [currentVerse'];
      }
      currentVerse' := ReplaceChar(paraText, '\n', ' ');
    } else {
      if paraText != [] {
        currentVerse' := currentVerse' + " " + ReplaceChar(paraText, '\n', ' ');
      }
    }
  }

  /** `reformat_eng_docx`: the texts of the new document's paragraphs. */
  method ReformatEngDocx(paragraphs: seq<string>) returns (newParagraphs: seq<string>)
    ensures newParagraphs == Regroup(paragraphs)
  {
    ghost var ps := Pieces(paragraphs);
    newParagraphs := [];
    var currentVerse := "";
    var n := 0;
    while n < |paragraphs|
      invariant 0 <= n <= |paragraphs|
      invariant Acc(newParagraphs, currentVerse) == Scan(ps[..n])
    {
      newParagraphs, currentVerse := Accumulate(newParagraphs, currentVerse, paragraphs[n]);
      assert ps[..n + 1][..n] == ps[..n];
      n := n + 1;
    }
    if currentVerse != [] {
      newParagraphs := newParagraphs + [currentVerse];
    }
    assert ps[..n] == ps;
  }
}
