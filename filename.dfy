/** `clean_hebrew_filename` (2_final_output.py): a fixed chain of eight regular
    expression substitutions that turns a raw "<parasha>_<first line>.docx"
    into the name the woven document is saved under. Each substitution is
    written out with the matching rules of Python's `re.sub` for its pattern. */
module FilenameSanitizer {
  import opened Strings

  /** No two underscores in a row. */
  predicate NoDoubleUnderscore(s: string) {
    forall k :: 0 <= k < |s| - 1 ==> !(s[k] == '_' && s[k + 1] == '_')
  }

  /** Every whitespace character is a plain space that stands right before
      the word "Chapter" or "Verses". */
  predicate SpacesBeforeKeywords(s: string) {
    forall k :: 0 <= k < |s| && IsSpace(s[k]) ==>
      s[k] == ' ' && (OccursAt(s, "Chapter", k + 1) || OccursAt(s, "Verses", k + 1))
  }

  /** Step 1, `re.sub(r"\s+", "_", s)`: each maximal run of whitespace becomes
      one underscore. */
  function SpacesToUnderscore(s: string): (r: string)
    ensures NoSpace(r)
    decreases |s|
  {
    if s == [] then []
    else if IsSpace(s[0]) then
      "_" + SpacesToUnderscore(LStrip(s[1..]))
    else [s[0]] + SpacesToUnderscore(s[1..])
  }

  /** `s` without its leading underscores. */
  function DropUnderscores(s: string): (r: string)
    ensures |r| <= |s| && r == s[|s| - |r|..]
    ensures r == [] || r[0] != '_'
  {
    if s != [] && s[0] == '_' then DropUnderscores(s[1..]) else s
  }

  /** Step 2, `re.sub(r"_{2,}", "_", s)`: each maximal run of underscores
      becomes one underscore (a run of one is left as it is). */
  function CollapseUnderscores(s: string): (r: string)
    ensures NoDoubleUnderscore(r)
    ensures NoSpace(s) ==> NoSpace(r)
    ensures r == [] <==> s == []
    ensures r != [] ==> (r[0] == '_' <==> s[0] == '_')
    decreases |s|
  {
    if s == [] then []
    else if s[0] == '_' then
      var rest := DropUnderscores(s);
      var tail := CollapseUnderscores(rest);
      assert NoSpace(s) ==> NoSpace(rest) by {
        forall k | 0 <= k < |rest| ensures rest[k] == s[|s| - |rest| + k] { }
      }
      "_" + tail
    else
      var tail := CollapseUnderscores(s[1..]);
      [s[0]] + tail
  }

  /** The index just past the run of underscores starting at `i`. */
  function UnderscoreRunEnd(s: string, i: nat): (e: nat)
    requires i <= |s|
    ensures i <= e <= |s| && (e == |s| || s[e] != '_')
    ensures forall k :: i <= k < e ==> s[k] == '_'
    decreases |s| - i
  {
    if i < |s| && s[i] == '_' then UnderscoreRunEnd(s, i + 1) else i
  }

  /** Steps 5 and 6, `re.sub(r"(?<=" + w + r")_+", "_", s)`, scanning from
      index `i`: a run of underscores right after `w` becomes one underscore.
      The look-behind is checked against the original string. */
  function CollapseAfter(s: string, w: string, i: nat): string
    requires i <= |s|
    decreases |s| - i
  {
    if i == |s| then []
    else if s[i] == '_' && EndsWith(s[..i], w) then "_" + CollapseAfter(s, w, UnderscoreRunEnd(s, i))
    else [s[i]] + CollapseAfter(s, w, i + 1)
  }

  /** Step 7, `re.sub(r"_+$", "", s)`: the trailing underscores are removed.
      (Step 1 has removed every newline, so `$` can only match at the end.) */
  function StripTrailingUnderscores(s: string): (r: string)
    ensures |r| <= |s| && r == s[..|r|]
    ensures r == [] || r[|r| - 1] != '_'
    ensures forall k :: |r| <= k < |s| ==> s[k] == '_'
    decreases |s|
  {
    if s != [] && s[|s| - 1] == '_' then StripTrailingUnderscores(s[..|s| - 1]) else s
  }

  /** Step 8, `re.sub(r"_\.docx$", ".docx", s)`. */
  function FixDocxSuffix(s: string): string {
    if EndsWith(s, "_.docx") then s[..|s| - 6] + ".docx" else s
  }

  /** Steps 3 and 4 replace `_<w>_` with ` <w>_`, for `w` "Chapter", then
      "Verses". */
  function KeywordPattern(w: string): (p: string)
    ensures |p| == |w| + 2 && p[0] == '_'
  {
    "_" + w + "_"
  }

  function KeywordReplacement(w: string): (p: string)
    ensures |p| == |w| + 2 && p[0] == ' '
  {
    " " + w + "_"
  }

  /** `clean_hebrew_filename(filename)`. */
  function CleanHebrewFilename(filename: string): string {
    var s1 := SpacesToUnderscore(filename);
    var s2 := CollapseUnderscores(s1);
    var s3 := ReplaceAll(s2, KeywordPattern("Chapter"), KeywordReplacement("Chapter"));
    var s4 := ReplaceAll(s3, KeywordPattern("Verses"), KeywordReplacement("Verses"));
    var s5 := CollapseAfter(s4, "Chapter", 0);
    var s6 := CollapseAfter(s5, "Verses", 0);
    var s7 := StripTrailingUnderscores(s6);
    FixDocxSuffix(s7)
  }

  // ---------------------------------------------------------------------
  // Proofs

  /** A word the two keyword substitutions move a space in front of. */
  predicate Keyword(w: string) {
    w == "Chapter" || w == "Verses"
  }

  lemma NoDoubleConcat(a: string, b: string)
    requires NoDoubleUnderscore(a) && NoDoubleUnderscore(b)
    requires a == [] || b == [] || !(a[|a| - 1] == '_' && b[0] == '_')
    ensures NoDoubleUnderscore(a + b)
  {
    var ab := a + b;
    forall k | 0 <= k < |ab| - 1 ensures !(ab[k] == '_' && ab[k + 1] == '_') {
      if k + 1 < |a| {
        assert ab[k] == a[k] && ab[k + 1] == a[k + 1];
      } else if k >= |a| {
        assert ab[k] == b[k - |a|] && ab[k + 1] == b[k - |a| + 1];
      }
    }
  }

  lemma NoDoubleSuffix(s: string, i: nat)
    requires NoDoubleUnderscore(s) && i <= |s|
    ensures NoDoubleUnderscore(s[i..])
  {
    forall k | 0 <= k < |s[i..]| - 1 ensures !(s[i..][k] == '_' && s[i..][k + 1] == '_') {
      assert s[i..][k] == s[i + k] && s[i..][k + 1] == s[i + k + 1];
    }
  }

  /** The first character of a keyword substitution's result is the input's
      first character or the replacement's. */
  lemma {:induction false} ReplaceHead(t: string, pat: string, rep: string)
    requires pat != [] && rep != [] && t != []
    ensures ReplaceAll(t, pat, rep) != []
    ensures ReplaceAll(t, pat, rep)[0] == t[0] || (OccursAt(t, pat, 0) && ReplaceAll(t, pat, rep)[0] == rep[0])
  {
  }

  /** A prefix none of whose characters can start a match is kept as it is. */
  lemma {:induction false} ReplaceKeepsPrefix(t: string, v: string, pat: string, rep: string)
    requires pat != [] && StartsWith(t, v)
    requires forall k :: 0 <= k < |v| ==> v[k] != pat[0]
    ensures StartsWith(ReplaceAll(t, pat, rep), v)
    decreases |v|
  {
    if v != [] {
      assert t[0] == v[0];
      if |t| >= |pat| {
        assert t[..|pat|] != pat by { assert t[..|pat|][0] != pat[0]; }
      }
      assert ReplaceAll(t, pat, rep) == [t[0]] + ReplaceAll(t[1..], pat, rep);
      assert StartsWith(t[1..], v[1..]) by { assert t[1..][..|v| - 1] == t[..|v|][1..]; }
      ReplaceKeepsPrefix(t[1..], v[1..], pat, rep);
    }
  }

  /** A keyword substitution creates no double underscore. */
  lemma {:induction false} ReplaceKeepsNoDouble(s: string, w: string)
    requires Keyword(w) && NoDoubleUnderscore(s)
    ensures NoDoubleUnderscore(ReplaceAll(s, KeywordPattern(w), KeywordReplacement(w)))
    decreases |s|
  {
    var pat, rep := KeywordPattern(w), KeywordReplacement(w);
    if |s| >= |pat| {
      if s[..|pat|] == pat {
        var rest := s[|pat|..];
        NoDoubleSuffix(s, |pat|);
        ReplaceKeepsNoDouble(rest, w);
        assert NoDoubleUnderscore(rep);
        if rest != [] {
          assert s[|pat| - 1] == '_';
          assert rest[0] == s[|pat|];
          ReplaceHead(rest, pat, rep);
        }
        NoDoubleConcat(rep, ReplaceAll(rest, pat, rep));
      } else {
        NoDoubleSuffix(s, 1);
        ReplaceKeepsNoDouble(s[1..], w);
        if s[1..] != [] {
          assert s[1..][0] == s[1];
          ReplaceHead(s[1..], pat, rep);
        }
        NoDoubleConcat([s[0]], ReplaceAll(s[1..], pat, rep));
      }
    }
  }

  lemma SpacesConcat(a: string, b: string)
    requires SpacesBeforeKeywords(b)
    requires forall k :: 0 <= k < |a| && IsSpace(a[k]) ==>
      a[k] == ' ' && (OccursAt(a + b, "Chapter", k + 1) || OccursAt(a + b, "Verses", k + 1))
    ensures SpacesBeforeKeywords(a + b)
  {
    var ab := a + b;
    forall k | 0 <= k < |ab| && IsSpace(ab[k])
      ensures ab[k] == ' ' && (OccursAt(ab, "Chapter", k + 1) || OccursAt(ab, "Verses", k + 1))
    {
      if k >= |a| {
        var j := k - |a|;
        assert ab[k] == b[j];
        if OccursAt(b, "Chapter", j + 1) {
          assert ab[k + 1..k + 8] == b[j + 1..j + 8];
        } else {
          assert ab[k + 1..k + 7] == b[j + 1..j + 7];
        }
      }
    }
  }

  lemma SpacesSuffix(s: string, i: nat)
    requires SpacesBeforeKeywords(s) && i <= |s|
    ensures SpacesBeforeKeywords(s[i..])
  {
    var t := s[i..];
    forall k | 0 <= k < |t| && IsSpace(t[k])
      ensures t[k] == ' ' && (OccursAt(t, "Chapter", k + 1) || OccursAt(t, "Verses", k + 1))
    {
      assert t[k] == s[i + k];
      if OccursAt(s, "Chapter", i + k + 1) {
        assert t[k + 1..k + 8] == s[i + k + 1..i + k + 8];
      } else {
        assert t[k + 1..k + 7] == s[i + k + 1..i + k + 7];
      }
    }
  }

  /** A space replacing the underscore of a match stands before the keyword. */
  lemma SpacesAfterMatch(w: string, tail: string)
    requires Keyword(w) && SpacesBeforeKeywords(tail)
    ensures SpacesBeforeKeywords(KeywordReplacement(w) + tail)
  {
    var rep := KeywordReplacement(w);
    forall k | 0 <= k < |rep| && IsSpace(rep[k])
      ensures rep[k] == ' ' && (OccursAt(rep + tail, "Chapter", k + 1) || OccursAt(rep + tail, "Verses", k + 1))
    {
      assert k == 0;
      assert (rep + tail)[1..1 + |w|] == w;
    }
    SpacesConcat(rep, tail);
  }

  lemma KeywordShape(w: string)
    requires Keyword(w)
    ensures |w| >= 6 && forall k :: 0 <= k < |w| ==> w[k] != '_' && !IsSpace(w[k])
  {
  }

  /** A keyword right after the first character survives a substitution of
      the rest. */
  lemma KeywordKept(s: string, w: string, v: string)
    requires Keyword(w) && Keyword(v) && |s| > 0 && OccursAt(s, v, 1)
    ensures OccursAt([s[0]] + ReplaceAll(s[1..], KeywordPattern(w), KeywordReplacement(w)), v, 1)
  {
    var tail := ReplaceAll(s[1..], KeywordPattern(w), KeywordReplacement(w));
    KeywordShape(v);
    assert StartsWith(s[1..], v) by { assert s[1..][..|v|] == s[1..1 + |v|]; }
    ReplaceKeepsPrefix(s[1..], v, KeywordPattern(w), KeywordReplacement(w));
    assert ([s[0]] + tail)[1..1 + |v|] == tail[..|v|];
  }

  /** A character kept by a keyword substitution keeps its keyword after it. */
  lemma SpacesAfterSkip(s: string, w: string)
    requires Keyword(w) && |s| > 0 && SpacesBeforeKeywords(s)
    requires SpacesBeforeKeywords(ReplaceAll(s[1..], KeywordPattern(w), KeywordReplacement(w)))
    ensures SpacesBeforeKeywords([s[0]] + ReplaceAll(s[1..], KeywordPattern(w), KeywordReplacement(w)))
  {
    var tail := ReplaceAll(s[1..], KeywordPattern(w), KeywordReplacement(w));
    if IsSpace(s[0]) {
      if OccursAt(s, "Chapter", 1) {
        KeywordKept(s, w, "Chapter");
      } else {
        KeywordKept(s, w, "Verses");
      }
    }
    SpacesConcat([s[0]], tail);
  }

  /** A keyword substitution keeps every space in front of a keyword. */
  lemma {:induction false} ReplaceKeepsSpaces(s: string, w: string)
    requires Keyword(w) && SpacesBeforeKeywords(s)
    ensures SpacesBeforeKeywords(ReplaceAll(s, KeywordPattern(w), KeywordReplacement(w)))
    decreases |s|
  {
    var pat, rep := KeywordPattern(w), KeywordReplacement(w);
    if |s| >= |pat| {
      if s[..|pat|] == pat {
        SpacesSuffix(s, |pat|);
        ReplaceKeepsSpaces(s[|pat|..], w);
        SpacesAfterMatch(w, ReplaceAll(s[|pat|..], pat, rep));
      } else {
        SpacesSuffix(s, 1);
        ReplaceKeepsSpaces(s[1..], w);
        SpacesAfterSkip(s, w);
      }
    }
  }

  /** Without double underscores, the look-behind collapse changes nothing. */
  lemma {:induction false} CollapseAfterIdentity(s: string, w: string, i: nat)
    requires NoDoubleUnderscore(s) && i <= |s|
    ensures CollapseAfter(s, w, i) == s[i..]
    decreases |s| - i
  {
    if i < |s| {
      CollapseAfterIdentity(s, w, i + 1);
      if s[i] == '_' && EndsWith(s[..i], w) {
        assert UnderscoreRunEnd(s, i) == i + 1 by {
          if i + 1 < |s| { assert !(s[i] == '_' && s[i + 1] == '_'); }
        }
      }
    }
  }

  lemma StripTrailingKeeps(s: string)
    requires NoDoubleUnderscore(s) && SpacesBeforeKeywords(s)
    ensures NoDoubleUnderscore(StripTrailingUnderscores(s))
    ensures SpacesBeforeKeywords(StripTrailingUnderscores(s))
  {
    var r := StripTrailingUnderscores(s);
    forall k | 0 <= k < |r| && IsSpace(r[k])
      ensures r[k] == ' ' && (OccursAt(r, "Chapter", k + 1) || OccursAt(r, "Verses", k + 1))
    {
      StripTrailingSpaceAt(s, k);
    }
  }

  /** A space kept by stripping trailing underscores still has its keyword
      after it. */
  lemma StripTrailingSpaceAt(s: string, k: int)
    requires SpacesBeforeKeywords(s)
    requires 0 <= k < |StripTrailingUnderscores(s)| && IsSpace(StripTrailingUnderscores(s)[k])
    ensures var r := StripTrailingUnderscores(s);
      r[k] == ' ' && (OccursAt(r, "Chapter", k + 1) || OccursAt(r, "Verses", k + 1))
  {
    var r := StripTrailingUnderscores(s);
    assert r[k] == s[k];
    var n := if OccursAt(s, "Chapter", k + 1) then 7 else 6;
    assert s[k + n] != '_' by {
      if OccursAt(s, "Chapter", k + 1) { assert s[k + 7] == "Chapter"[6]; }
      else { assert s[k + 6] == "Verses"[5]; }
    }
    assert k + n < |r|;
    assert r[k + 1..k + 1 + n] == s[k + 1..k + 1 + n];
  }

  lemma FixDocxKeeps(s: string)
    requires NoDoubleUnderscore(s) && SpacesBeforeKeywords(s)
    ensures NoDoubleUnderscore(FixDocxSuffix(s))
    ensures SpacesBeforeKeywords(FixDocxSuffix(s))
  {
    if EndsWith(s, "_.docx") {
      DocxDropNoDouble(s);
      var r := s[..|s| - 6] + ".docx";
      forall k | 0 <= k < |r| && IsSpace(r[k])
        ensures r[k] == ' ' && (OccursAt(r, "Chapter", k + 1) || OccursAt(r, "Verses", k + 1))
      {
        DocxDropSpaceAt(s, k);
      }
    }
  }

  lemma DocxDropNoDouble(s: string)
    requires NoDoubleUnderscore(s) && EndsWith(s, "_.docx")
    ensures NoDoubleUnderscore(s[..|s| - 6] + ".docx")
  {
    var u := s[..|s| - 6];
    assert NoDoubleUnderscore(u) by {
      forall k | 0 <= k < |u| - 1 ensures !(u[k] == '_' && u[k + 1] == '_') {
        assert u[k] == s[k] && u[k + 1] == s[k + 1];
      }
    }
    NoDoubleConcat(u, ".docx");
  }

  /** A space kept by the ".docx" fix still has its keyword after it. */
  lemma DocxDropSpaceAt(s: string, k: int)
    requires SpacesBeforeKeywords(s) && EndsWith(s, "_.docx")
    requires 0 <= k < |s[..|s| - 6] + ".docx"| && IsSpace((s[..|s| - 6] + ".docx")[k])
    ensures var r := s[..|s| - 6] + ".docx";
      r[k] == ' ' && (OccursAt(r, "Chapter", k + 1) || OccursAt(r, "Verses", k + 1))
  {
    var u := s[..|s| - 6];
    var r := u + ".docx";
    assert k < |u|;
    assert r[k] == s[k];
    var n := if OccursAt(s, "Chapter", k + 1) then 7 else 6;
    KeywordBeforeEnd(s, k, n);
    assert r[k + 1..k + 1 + n] == s[k + 1..k + 1 + n];
  }

  /** A keyword after position `k` ends before the final "_.docx". */
  lemma KeywordBeforeEnd(s: string, k: int, n: int)
    requires EndsWith(s, "_.docx") && 0 <= k
    requires (n == 7 && OccursAt(s, "Chapter", k + 1)) || (n == 6 && OccursAt(s, "Verses", k + 1))
    ensures k + n < |s| - 6
  {
    assert s[|s| - 6] == '_';
    if n == 7 {
      assert forall j :: k + 1 <= j <= k + 7 ==> s[j] == "Chapter"[j - k - 1];
    } else {
      assert forall j :: k + 1 <= j <= k + 6 ==> s[j] == "Verses"[j - k - 1];
    }
  }

  /** The shape of every cleaned name: no double underscore, no trailing
      underscore, no underscore right before a final ".docx", and no
      whitespace except single spaces in front of "Chapter" or "Verses". */
  lemma CleanHebrewFilenameShape(filename: string)
    ensures var r := CleanHebrewFilename(filename);
      && NoDoubleUnderscore(r)
      && !EndsWith(r, "_")
      && !EndsWith(r, "_.docx")
      && SpacesBeforeKeywords(r)
  {
    var s1 := SpacesToUnderscore(filename);
    var s2 := CollapseUnderscores(s1);
    var s3 := ReplaceAll(s2, KeywordPattern("Chapter"), KeywordReplacement("Chapter"));
    var s4 := ReplaceAll(s3, KeywordPattern("Verses"), KeywordReplacement("Verses"));
    var s5 := CollapseAfter(s4, "Chapter", 0);
    var s6 := CollapseAfter(s5, "Verses", 0);
    var s7 := StripTrailingUnderscores(s6);
    var r := FixDocxSuffix(s7);
    assert SpacesBeforeKeywords(s2);
    ReplaceKeepsNoDouble(s2, "Chapter");
    ReplaceKeepsSpaces(s2, "Chapter");
    ReplaceKeepsNoDouble(s3, "Verses");
    ReplaceKeepsSpaces(s3, "Verses");
    CollapseAfterIdentity(s4, "Chapter", 0);
    CollapseAfterIdentity(s5, "Verses", 0);
    StripTrailingKeeps(s6);
    FixDocxKeeps(s7);
    if EndsWith(s7, "_.docx") {
      assert r[|r| - 1] == 'x';
      if |s7| >= 7 {
        assert s7[|s7| - 6] == '_';
        assert s7[|s7| - 7] != '_';
        assert r[|r| - 6] == s7[|s7| - 7];
      }
    } else {
      assert r == s7;
    }
  }

  /** A name without whitespace is unchanged by step 1. */
  lemma {:induction false} SpacesToUnderscoreIdentity(s: string)
    requires NoSpace(s)
    ensures SpacesToUnderscore(s) == s
  {
    if s != [] { SpacesToUnderscoreIdentity(s[1..]); }
  }

  /** A name without double underscores is unchanged by step 2. */
  lemma {:induction false} CollapseUnderscoresIdentity(s: string)
    requires NoDoubleUnderscore(s)
    ensures CollapseUnderscores(s) == s
  {
    if s != [] {
      NoDoubleSuffix(s, 1);
      CollapseUnderscoresIdentity(s[1..]);
      if s[0] == '_' {
        assert DropUnderscores(s) == s[1..];
      }
    }
  }

  /** The eight steps of `CleanHebrewFilename`, one at a time; the two
      look-behind steps change nothing once the name has no double underscore. */
  lemma CleanSteps(a: string, s1: string, s2: string, s3: string, s4: string, s7: string)
    requires SpacesToUnderscore(a) == s1 && CollapseUnderscores(s1) == s2
    requires ReplaceAll(s2, KeywordPattern("Chapter"), KeywordReplacement("Chapter")) == s3
    requires ReplaceAll(s3, KeywordPattern("Verses"), KeywordReplacement("Verses")) == s4
    requires NoDoubleUnderscore(s4) && StripTrailingUnderscores(s4) == s7
    ensures CleanHebrewFilename(a) == FixDocxSuffix(s7)
  {
    CollapseAfterIdentity(s4, "Chapter", 0);
    CollapseAfterIdentity(s4, "Verses", 0);
  }

  /** A word with neither underscores nor whitespace, such as a parasha name. */
  predicate PlainWord(x: string) {
    forall k :: 0 <= k < |x| ==> x[k] != '_' && !IsSpace(x[k])
  }

  /** A substitution passes over a prefix none of whose characters can start
      a match. */
  lemma {:induction false} ReplaceAllPrefix(x: string, t: string, pat: string, rep: string)
    requires pat != [] && forall k :: 0 <= k < |x| ==> x[k] != pat[0]
    ensures ReplaceAll(x + t, pat, rep) == x + ReplaceAll(t, pat, rep)
    decreases |x|
  {
    if x == [] {
      assert x + t == t;
    } else if |x + t| >= |pat| {
      assert (x + t)[..|pat|][0] == x[0];
      assert (x + t)[1..] == x[1..] + t;
      ReplaceAllPrefix(x[1..], t, pat, rep);
      assert x + ReplaceAll(t, pat, rep) == [x[0]] + (x[1..] + ReplaceAll(t, pat, rep));
    }
  }

  /** A substitution whose pattern cannot both start and end anywhere in `s`
      changes nothing. */
  lemma ReplaceAllNoEnds(s: string, pat: string, rep: string)
    requires |pat| >= 2
    requires forall k :: 0 <= k && k + |pat| <= |s| ==> s[k] != pat[0] || s[k + |pat| - 1] != pat[|pat| - 1]
    ensures ReplaceAll(s, pat, rep) == s
  {
    forall k | 0 <= k <= |s| ensures !OccursAt(s, pat, k) {
      if k + |pat| <= |s| {
        assert s[k..k + |pat|][0] == s[k];
        assert s[k..k + |pat|][|pat| - 1] == s[k + |pat| - 1];
      }
    }
    ReplaceAllAbsent(s, pat, rep);
  }

  /** A single space between two parts without whitespace becomes an
      underscore. */
  lemma {:induction false} SpacesToUnderscoreOne(a: string, c: string)
    requires NoSpace(a) && NoSpace(c)
    ensures SpacesToUnderscore(a + " " + c) == a + "_" + c
    decreases |a|
  {
    if a == [] {
      assert a + " " + c == " " + c;
      assert LStrip((" " + c)[1..]) == c by { assert (" " + c)[1..] == c; }
      SpacesToUnderscoreIdentity(c);
    } else {
      assert (a + " " + c)[1..] == a[1..] + " " + c;
      SpacesToUnderscoreOne(a[1..], c);
      assert a + "_" + c == [a[0]] + (a[1..] + "_" + c);
    }
  }

  lemma PlainWordJoins(x: string, t: string)
    requires PlainWord(x) && NoDoubleUnderscore(t)
    ensures NoDoubleUnderscore(x + t)
    ensures NoSpace(t) ==> NoSpace(x + t)
  {
    NoDoubleConcat(x, t);
    if NoSpace(t) {
      forall k | 0 <= k < |x + t| ensures !IsSpace((x + t)[k]) {
        if k >= |x| { assert (x + t)[k] == t[k - |x|]; }
      }
    }
  }

  // Facts about the literal tails, one per lemma to keep each proof small.
  lemma KeywordTailClean()
    ensures NoSpace("_Chapter_.docx")
  {
  }

  lemma KeywordTailSingle()
    ensures NoDoubleUnderscore("_Chapter_.docx")
  {
  }

  lemma KeywordTailChapter()
    ensures ReplaceAll("_Chapter_.docx", KeywordPattern("Chapter"), KeywordReplacement("Chapter")) == " Chapter_.docx"
  {
    var pat, rep := KeywordPattern("Chapter"), KeywordReplacement("Chapter");
    assert "_Chapter_.docx" == pat + ".docx" && " Chapter_.docx" == rep + ".docx";
    ReplaceAllAtStart(pat, ".docx", rep);
  }

  lemma KeywordTailVerses()
    ensures ReplaceAll(" Chapter_.docx", KeywordPattern("Verses"), KeywordReplacement("Verses")) == " Chapter_.docx"
  {
    ReplaceAllNoEnds(" Chapter_.docx", KeywordPattern("Verses"), KeywordReplacement("Verses"));
  }

  lemma KeywordTailResult()
    ensures NoDoubleUnderscore(" Chapter_.docx")
  {
  }

  /** Cleaning a plain word followed by a tail that steps 1 to 7 leave
      alone except for the keyword substitutions. */
  lemma CleanPlainPrefix(x: string, t: string, t3: string, t4: string)
    requires PlainWord(x) && NoSpace(t) && NoDoubleUnderscore(t)
    requires ReplaceAll(t, KeywordPattern("Chapter"), KeywordReplacement("Chapter")) == t3
    requires ReplaceAll(t3, KeywordPattern("Verses"), KeywordReplacement("Verses")) == t4
    requires NoDoubleUnderscore(t4) && t4 != [] && t4[|t4| - 1] != '_'
    ensures CleanHebrewFilename(x + t) == FixDocxSuffix(x + t4)
  {
    var a := x + t;
    PlainWordJoins(x, t);
    SpacesToUnderscoreIdentity(a);
    CollapseUnderscoresIdentity(a);
    PlainKeywords(x, t, t3, t4);
    PlainWordJoins(x, t4);
    PlainTrailing(x, t4);
    CleanSteps(a, a, a, x + t3, x + t4, x + t4);
  }

  /** The keyword substitutions pass over a plain word in front. */
  lemma PlainKeywords(x: string, t: string, t3: string, t4: string)
    requires PlainWord(x)
    requires ReplaceAll(t, KeywordPattern("Chapter"), KeywordReplacement("Chapter")) == t3
    requires ReplaceAll(t3, KeywordPattern("Verses"), KeywordReplacement("Verses")) == t4
    ensures ReplaceAll(x + t, KeywordPattern("Chapter"), KeywordReplacement("Chapter")) == x + t3
    ensures ReplaceAll(x + t3, KeywordPattern("Verses"), KeywordReplacement("Verses")) == x + t4
  {
    ReplaceAllPrefix(x, t, KeywordPattern("Chapter"), KeywordReplacement("Chapter"));
    ReplaceAllPrefix(x, t3, KeywordPattern("Verses"), KeywordReplacement("Verses"));
  }

  /** A text not ending in '_' keeps its end when trailing underscores go. */
  lemma PlainTrailing(x: string, t4: string)
    requires t4 != [] && t4[|t4| - 1] != '_'
    ensures StripTrailingUnderscores(x + t4) == x + t4
  {
    var s := x + t4;
    assert s[|s| - 1] == t4[|t4| - 1];
  }

  /** A chapter or verse number: one or more decimal digits. */
  predicate Numeral(c: string) {
    c != [] && forall k :: 0 <= k < |c| ==> IsDigit(c[k])
  }

  lemma NumeralPlain(c: string)
    requires Numeral(c)
    ensures PlainWord(c) && NoSpace(c) && NoDoubleUnderscore(c)
  {
  }

  /** A substitution replaces a pattern it finds at the very start. */
  lemma ReplaceAllAtStart(pat: string, rest: string, rep: string)
    requires pat != []
    ensures ReplaceAll(pat + rest, pat, rep) == rep + ReplaceAll(rest, pat, rep)
  {
    assert (pat + rest)[..|pat|] == pat;
    assert (pat + rest)[|pat|..] == rest;
  }

  /** Digits are never touched by a pattern that starts with '_'. */
  lemma ReplaceAllNumeral(v: string, pat: string, rep: string)
    requires Numeral(v) && pat != [] && pat[0] == '_'
    ensures ReplaceAll(v, pat, rep) == v
  {
    ReplaceAllPrefix(v, [], pat, rep);
    assert v + [] == v;
  }

  /** "_<w>_<v>" with a word `w` whose first letter differs from the
      pattern's second character and a number `v` goes through unchanged. */
  lemma ReplaceAllWordNumeral(w: string, v: string, pat: string, rep: string)
    requires PlainWord(w) && w != [] && Numeral(v)
    requires |pat| >= 2 && pat[0] == '_' && pat[1] != w[0] && !IsDigit(pat[1])
    ensures ReplaceAll("_" + w + "_" + v, pat, rep) == "_" + w + "_" + v
  {
    assert (w + ("_" + v))[0] == w[0];
    ReplaceAllCons('_', w + ("_" + v), pat, rep);
    ReplaceAllPrefix(w, "_" + v, pat, rep);
    ReplaceAllCons('_', v, pat, rep);
    ReplaceAllNumeral(v, pat, rep);
    assert "_" + w + "_" + v == "_" + (w + ("_" + v));
  }

  /** Step 3's shape: the pattern at the start of "<pat><c>_<w>_<v>" is the
      only one replaced. */
  lemma ReplaceAllLeadingOnly(pat: string, rep: string, c: string, w: string, v: string)
    requires Numeral(c) && PlainWord(w) && w != [] && Numeral(v)
    requires |pat| >= 2 && pat[0] == '_' && pat[1] != w[0] && !IsDigit(pat[1])
    ensures ReplaceAll(pat + (c + ("_" + w + "_" + v)), pat, rep) == rep + (c + ("_" + w + "_" + v))
  {
    var u := "_" + w + "_" + v;
    ReplaceAllAtStart(pat, c + u, rep);
    NumeralPlain(c);
    ReplaceAllPrefix(c, u, pat, rep);
    ReplaceAllWordNumeral(w, v, pat, rep);
  }

  /** Step 4's shape: in "<a>_<c><pat><v>", with no underscore in `a`, only
      the pattern in front of `v` is replaced. */
  lemma ReplaceAllInnerOnly(pat: string, rep: string, a: string, c: string, v: string)
    requires forall k :: 0 <= k < |a| ==> a[k] != '_'
    requires Numeral(c) && Numeral(v)
    requires |pat| >= 2 && pat[0] == '_' && !IsDigit(pat[1])
    ensures ReplaceAll(a + ("_" + (c + (pat + v))), pat, rep) == a + ("_" + (c + (rep + v)))
  {
    ReplaceAllPrefix(a, "_" + (c + (pat + v)), pat, rep);
    ReplaceAllNumberedPattern(pat, rep, c, v);
  }

  /** A substitution passes over a first character when the next one
      cannot continue the pattern. */
  lemma ReplaceAllCons(ch: char, r: string, pat: string, rep: string)
    requires |pat| >= 2 && r != [] && r[0] != pat[1]
    ensures ReplaceAll([ch] + r, pat, rep) == [ch] + ReplaceAll(r, pat, rep)
  {
    var s := [ch] + r;
    assert s[1] == r[0];
    assert s[1..] == r;
    if |s| >= |pat| { assert s[..|pat|][1] == s[1]; }
  }

  lemma ReplaceAllNumberedPattern(pat: string, rep: string, c: string, v: string)
    requires Numeral(c) && Numeral(v)
    requires |pat| >= 2 && pat[0] == '_' && !IsDigit(pat[1])
    ensures ReplaceAll("_" + (c + (pat + v)), pat, rep) == "_" + (c + (rep + v))
  {
    assert (c + (pat + v))[0] == c[0];
    ReplaceAllCons('_', c + (pat + v), pat, rep);
    ReplaceAllNumberedRest(pat, rep, c, v);
  }

  lemma ReplaceAllNumberedRest(pat: string, rep: string, c: string, v: string)
    requires Numeral(c) && Numeral(v)
    requires |pat| >= 2 && pat[0] == '_'
    ensures ReplaceAll(c + (pat + v), pat, rep) == c + (rep + v)
  {
    NumeralPlain(c);
    ReplaceAllPrefix(c, pat + v, pat, rep);
    ReplaceAllAtStart(pat, v, rep);
    ReplaceAllNumeral(v, pat, rep);
  }

  /** Step 3 on "_Chapter_<c>_Verses_<v>". */
  lemma NumberedTailChapter(c: string, v: string)
    requires Numeral(c) && Numeral(v)
    ensures ReplaceAll("_Chapter_" + c + "_Verses_" + v, KeywordPattern("Chapter"), KeywordReplacement("Chapter"))
         == " Chapter_" + c + "_Verses_" + v
  {
    var pat, rep := KeywordPattern("Chapter"), KeywordReplacement("Chapter");
    ReplaceAllLeadingOnly(pat, rep, c, "Verses", v);
    NumberedTailChapterShape(c, v);
  }

  lemma NumberedTailChapterShape(c: string, v: string)
    ensures "_Chapter_" + c + "_Verses_" + v == KeywordPattern("Chapter") + (c + ("_" + "Verses" + "_" + v))
    ensures " Chapter_" + c + "_Verses_" + v == KeywordReplacement("Chapter") + (c + ("_" + "Verses" + "_" + v))
  {
  }

  /** Step 4 on " Chapter_<c>_Verses_<v>". */
  lemma NumberedTailVerses(c: string, v: string)
    requires Numeral(c) && Numeral(v)
    ensures ReplaceAll(" Chapter_" + c + "_Verses_" + v, KeywordPattern("Verses"), KeywordReplacement("Verses"))
         == " Chapter_" + c + " Verses_" + v
  {
    var pat, rep := KeywordPattern("Verses"), KeywordReplacement("Verses");
    ReplaceAllInnerOnly(pat, rep, " Chapter", c, v);
    NumberedTailVersesShape(c, v);
  }

  lemma NumberedTailVersesShape(c: string, v: string)
    ensures " Chapter_" + c + "_Verses_" + v == " Chapter" + ("_" + (c + (KeywordPattern("Verses") + v)))
    ensures " Chapter_" + c + " Verses_" + v == " Chapter" + ("_" + (c + (KeywordReplacement("Verses") + v)))
  {
  }

  lemma NumberedTailClean(c: string, v: string)
    requires Numeral(c) && Numeral(v)
    ensures NoSpace("_Chapter_" + c + "_Verses_" + v)
  {
    var t := "_Chapter_" + c + "_Verses_" + v;
    forall k | 0 <= k < |t| ensures !IsSpace(t[k]) {
      if 9 <= k < 9 + |c| { assert t[k] == c[k - 9]; }
      else if k >= 17 + |c| { assert t[k] == v[k - 17 - |c|]; }
    }
  }

  /** No two underscores in a row in `a + "_" + w + "_" + b` for words
      without underscores. */
  lemma NoDoubleAround(a: string, w: string, b: string)
    requires NoDoubleUnderscore(a) && (a == [] || a[|a| - 1] != '_')
    requires PlainWord(w) && w != [] && PlainWord(b) && b != []
    ensures NoDoubleUnderscore(a + "_" + w + "_" + b)
  {
    var s := a + "_" + w + "_" + b;
    forall k | 0 <= k < |s| - 1 ensures !(s[k] == '_' && s[k + 1] == '_') {
      if k < |a| - 1 { assert s[k] == a[k] && s[k + 1] == a[k + 1]; }
      else if k == |a| - 1 { assert s[k] == a[k]; }
      else if k == |a| { assert s[k + 1] == w[0]; }
      else if k < |a| + |w| { assert s[k] == w[k - |a| - 1]; }
      else if k == |a| + |w| { assert s[k] == w[|w| - 1]; }
      else if k == |a| + |w| + 1 { assert s[k + 1] == b[0]; }
      else { assert s[k] == b[k - |a| - |w| - 2]; }
    }
  }

  lemma NumberedTailSingle(c: string, v: string)
    requires Numeral(c) && Numeral(v)
    ensures NoDoubleUnderscore("_Chapter_" + c + "_Verses_" + v)
  {
    NumeralPlain(c);
    NumeralPlain(v);
    NoDoubleAround([], "Chapter", c);
    var a := "_Chapter_" + c;
    assert [] + "_" + "Chapter" + "_" + c == a;
    assert a[|a| - 1] == c[|c| - 1];
    NoDoubleAround(a, "Verses", v);
  }

  lemma NumberedTailResult(c: string, v: string)
    requires Numeral(c) && Numeral(v)
    ensures var t4 := " Chapter_" + c + " Verses_" + v;
      NoDoubleUnderscore(t4) && t4[|t4| - 1] != '_'
  {
    NumeralPlain(c);
    NumeralPlain(v);
    var a := " Chapter_" + c;
    var t4 := a + " Verses_" + v;
    assert NoDoubleUnderscore(a) by {
      forall k | 0 <= k < |a| - 1 ensures !(a[k] == '_' && a[k + 1] == '_') {
        if k >= 9 { assert a[k] == c[k - 9]; } else if k == 8 { assert a[k + 1] == c[0]; }
      }
    }
    forall k | 0 <= k < |t4| - 1 ensures !(t4[k] == '_' && t4[k + 1] == '_') {
      if k < |a| - 1 { assert t4[k] == a[k] && t4[k + 1] == a[k + 1]; }
      else if k < |a| + 7 { assert t4[k + 1] == " Verses_"[k + 1 - |a|]; }
      else if k == |a| + 7 { assert t4[k + 1] == v[0]; }
      else { assert t4[k] == v[k - |a| - 8]; }
    }
    assert t4[|t4| - 1] == v[|v| - 1];
  }

  /** For every name part `x` without underscores or whitespace and all
      chapter and verse numbers `c` and `v`, cleaning
      "<x>_Chapter_<c>_Verses_<v>" puts a space before each keyword and keeps
      the underscore after it; "Bereshit_Chapter_1_Verses_1" becomes
      "Bereshit Chapter_1 Verses_1". */
  lemma CleanChapterVersesName(x: string, c: string, v: string)
    requires PlainWord(x) && Numeral(c) && Numeral(v)
    ensures CleanHebrewFilename(x + ("_Chapter_" + c + "_Verses_" + v)) == x + (" Chapter_" + c + " Verses_" + v)
  {
    var t := "_Chapter_" + c + "_Verses_" + v;
    var t3 := " Chapter_" + c + "_Verses_" + v;
    var t4 := " Chapter_" + c + " Verses_" + v;
    NumberedTailClean(c, v);
    NumberedTailSingle(c, v);
    NumberedTailChapter(c, v);
    NumberedTailVerses(c, v);
    NumberedTailResult(c, v);
    CleanPlainPrefix(x, t, t3, t4);
    NumberedNameEnd(x, c, v);
  }

  /** A name ending in a digit has no ".docx" to fix. */
  lemma NumberedNameEnd(x: string, c: string, v: string)
    requires Numeral(v)
    ensures FixDocxSuffix(x + (" Chapter_" + c + " Verses_" + v)) == x + (" Chapter_" + c + " Verses_" + v)
  {
    var s4 := x + (" Chapter_" + c + " Verses_" + v);
    assert s4[|s4| - 1] == v[|v| - 1];
    assert s4[|s4| - 1] != "_.docx"[5];
  }

  lemma CleanKeywordSteps(x: string)
    requires PlainWord(x)
    ensures CleanHebrewFilename(x + "_Chapter_.docx") == FixDocxSuffix(x + " Chapter_.docx")
  {
    KeywordTailClean();
    KeywordTailSingle();
    KeywordTailChapter();
    KeywordTailVerses();
    KeywordTailResult();
    CleanPlainPrefix(x, "_Chapter_.docx", " Chapter_.docx", " Chapter_.docx");
  }

  lemma FixKeywordName(x: string)
    ensures FixDocxSuffix(x + " Chapter_.docx") == x + " Chapter.docx"
  {
    var s3 := x + " Chapter_.docx";
    assert EndsWith(s3, "_.docx");
    assert s3[..|s3| - 6] + ".docx" == x + " Chapter.docx";
  }

  /** For every name part `x` without underscores or whitespace, cleaning
      "<x>_Chapter_.docx" moves a space in front of the keyword and drops the
      underscore before ".docx". */
  lemma CleanKeywordName(x: string)
    requires PlainWord(x)
    ensures CleanHebrewFilename(x + "_Chapter_.docx") == x + " Chapter.docx"
  {
    CleanKeywordSteps(x);
    FixKeywordName(x);
  }

  lemma SpaceTailClean()
    ensures NoSpace("Chapter.docx") && NoSpace("_Chapter.docx")
  {
  }

  lemma SpaceTailSingle()
    ensures NoDoubleUnderscore("_Chapter.docx")
  {
  }

  lemma SpaceTailChapter()
    ensures ReplaceAll("_Chapter.docx", KeywordPattern("Chapter"), KeywordReplacement("Chapter")) == "_Chapter.docx"
  {
    ReplaceAllNoEnds("_Chapter.docx", KeywordPattern("Chapter"), KeywordReplacement("Chapter"));
  }

  lemma SpaceTailVerses()
    ensures ReplaceAll("_Chapter.docx", KeywordPattern("Verses"), KeywordReplacement("Verses")) == "_Chapter.docx"
  {
    ReplaceAllNoEnds("_Chapter.docx", KeywordPattern("Verses"), KeywordReplacement("Verses"));
  }

  lemma SpaceFirstStep(x: string)
    requires PlainWord(x)
    ensures SpacesToUnderscore(x + " Chapter.docx") == SpacesToUnderscore(x + "_Chapter.docx")
  {
    SpaceTailClean();
    SpacesToUnderscoreOne(x, "Chapter.docx");
    assert x + " " + "Chapter.docx" == x + " Chapter.docx";
    assert x + "_" + "Chapter.docx" == x + "_Chapter.docx";
    PlainWordJoins(x, "_Chapter.docx");
    SpacesToUnderscoreIdentity(x + "_Chapter.docx");
  }

  lemma CleanUnderscoreSteps(x: string)
    requires PlainWord(x)
    ensures CleanHebrewFilename(x + "_Chapter.docx") == FixDocxSuffix(x + "_Chapter.docx")
  {
    SpaceTailClean();
    SpaceTailSingle();
    SpaceTailChapter();
    SpaceTailVerses();
    CleanPlainPrefix(x, "_Chapter.docx", "_Chapter.docx", "_Chapter.docx");
  }

  lemma FixUnderscoreName(x: string)
    ensures FixDocxSuffix(x + "_Chapter.docx") == x + "_Chapter.docx"
  {
    var b := x + "_Chapter.docx";
    assert b[|b| - 6] == 'r';
  }

  /** For the same `x`, cleaning "<x> Chapter.docx" turns the space back into
      an underscore. */
  lemma CleanSpaceName(x: string)
    requires PlainWord(x)
    ensures CleanHebrewFilename(x + " Chapter.docx") == x + "_Chapter.docx"
  {
    SpaceFirstStep(x);
    CleanUnderscoreSteps(x);
    FixUnderscoreName(x);
  }

  /** Cleaning is not idempotent: a space the keyword step introduced turns
      back into an underscore on a second pass, where the keyword step no
      longer applies because the underscore after the keyword is gone. */
  lemma CleanHebrewFilenameNotIdempotent(x: string)
    requires PlainWord(x)
    ensures var once := CleanHebrewFilename(x + "_Chapter_.docx");
      CleanHebrewFilename(once) != once
  {
    CleanKeywordName(x);
    CleanSpaceName(x);
    assert (x + " Chapter.docx")[|x|] != (x + "_Chapter.docx")[|x|];
  }
}
