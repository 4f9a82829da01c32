/**
 * `DocumentProcessor._create_chunks`: normalise the text, drop short inputs, split it into
 * sentence pieces on runs of `.`, `!` and `?`, and pack the pieces greedily into chunks of
 * about 500 characters.
 */
module Chunker {
  import opened Wrappers
  import opened Text
  import opened Sequences

  /** The `section_type` tags the extractors give their chunks. */
  datatype SectionType = Page | Paragraph | Table | Headers | DataRow

  /** A chunk dictionary: `text`, `page_number`, `section_type`, `length`. */
  datatype Chunk = Chunk(text: string, pageNumber: Option<int>, sectionType: SectionType, length: int)

  /** Normalised texts shorter than this produce no chunk. */
  const MinTextLength := 50
  /** A chunk is flushed when its length plus the next sentence's would exceed this. */
  const MaxChunkLength := 500

  // ----- Whitespace normalisation -----

  /** Whitespace occurs only as single spaces. */
  predicate IsCollapsed(s: string) {
    forall i :: 0 <= i < |s| && IsSpace(s[i]) ==> s[i] == ' ' && (i + 1 < |s| ==> !IsSpace(s[i + 1]))
  }

  /** The characters of `s` that are not whitespace, in order. */
  function NonSpace(s: string): string
    decreases |s|
  {
    if s == [] then [] else (if IsSpace(s[0]) then [] else [s[0]]) + NonSpace(s[1..])
  }

  lemma {:induction false} NonSpaceConcat(a: string, b: string)
    ensures NonSpace(a + b) == NonSpace(a) + NonSpace(b)
    decreases |a|
  {
    if a != [] {
      var x := if IsSpace(a[0]) then [] else [a[0]];
      assert (a + b)[0] == a[0];
      assert (a + b)[1..] == a[1..] + b;
      NonSpaceConcat(a[1..], b);
      calc {
        NonSpace(a + b);
        x + NonSpace(a[1..] + b);
        x + (NonSpace(a[1..]) + NonSpace(b));
        (x + NonSpace(a[1..])) + NonSpace(b);
        NonSpace(a) + NonSpace(b);
      }
    } else {
      assert a + b == b;
    }
  }

  lemma {:induction false} StripStartNonSpace(s: string)
    ensures NonSpace(StripStart(s)) == NonSpace(s)
    decreases |s|
  {
    if s != [] && IsSpace(s[0]) {
      StripStartNonSpace(s[1..]);
    }
  }

  lemma {:induction false} StripEndNonSpace(s: string)
    ensures NonSpace(StripEnd(s)) == NonSpace(s)
    decreases |s|
  {
    if s != [] && IsSpace(s[|s| - 1]) {
      var init := s[..|s| - 1];
      SplitLast(s);
      NonSpaceConcat(init, [s[|s| - 1]]);
      StripEndNonSpace(init);
    }
  }

  /** A character in front of a collapsed string keeps it collapsed when it is not whitespace, or a space before no whitespace. */
  lemma ConsCollapsed(c: char, r: string)
    requires IsCollapsed(r) && (IsSpace(c) ==> c == ' ' && (r == [] || !IsSpace(r[0])))
    ensures IsCollapsed([c] + r)
    ensures NonSpace([c] + r) == (if IsSpace(c) then [] else [c]) + NonSpace(r)
  {
    var x := [c] + r;
    assert x[1..] == r;
    forall i | 1 <= i < |x| ensures x[i] == r[i - 1] {
    }
  }

  /** `re.sub(r'\s+', ' ', s)` with `\s` the whitespace class: every maximal run of whitespace becomes one space. */
  function CollapseWhitespace(s: string): (r: string)
    ensures IsCollapsed(r) && NonSpace(r) == NonSpace(s)
    ensures r == [] <==> s == []
    ensures s != [] ==> IsSpace(r[0]) == IsSpace(s[0])
    decreases |s|
  {
    if s == [] then []
    else if IsSpace(s[0]) then
      var rest := StripStart(s[1..]);
      StripStartNonSpace(s[1..]);
      var tail := CollapseWhitespace(rest);
      ConsCollapsed(' ', tail);
      [' '] + tail
    else
      var tail := CollapseWhitespace(s[1..]);
      ConsCollapsed(s[0], tail);
      [s[0]] + tail
  }

  lemma CollapsedSlice(s: string, a: nat, b: nat)
    requires IsCollapsed(s) && a <= b <= |s|
    ensures IsCollapsed(s[a..b])
  {
    assert forall i :: 0 <= i < b - a ==> s[a..b][i] == s[a + i];
  }

  /**
   * The text `_create_chunks` measures and splits: whitespace runs collapsed to one space,
   * then stripped. The result has whitespace only as single inner spaces and keeps every
   * other character of `s`, in order.
   */
  function Normalize(s: string): (r: string)
    ensures IsStripped(r) && IsCollapsed(r)
    ensures NonSpace(r) == NonSpace(s)
  {
    var c := CollapseWhitespace(s);
    var t := StripStart(c);
    StripStartNonSpace(c);
    CollapsedSlice(c, |c| - |t|, |c|);
    var r := StripEnd(t);
    StripEndNonSpace(t);
    CollapsedSlice(t, 0, |r|);
    assert r == Strip(c);
    r
  }

  /** `s.split()`: the maximal runs of non-whitespace characters, in order. */
  function Words(s: string): (r: seq<string>)
    ensures s != [] && !IsSpace(s[0]) ==> r != [] && r[0] != [] && r[0][0] == s[0]
    decreases |s|
  {
    if s == [] then []
    else if IsSpace(s[0]) then Words(s[1..])
    else
      var ws := Words(s[1..]);
      if |s| > 1 && !IsSpace(s[1]) then [[s[0]] + ws[0]] + ws[1..] else [[s[0]]] + ws
  }

  lemma {:induction false} WordsStripStart(s: string)
    ensures Words(StripStart(s)) == Words(s)
    decreases |s|
  {
    if s != [] && IsSpace(s[0]) {
      WordsStripStart(s[1..]);
    }
  }

  lemma {:induction false} WordsAllSpace(b: string)
    requires forall k :: 0 <= k < |b| ==> IsSpace(b[k])
    ensures Words(b) == []
    decreases |b|
  {
    if b != [] {
      WordsAllSpace(b[1..]);
    }
  }

  /** Whitespace at the end adds no word. */
  lemma {:induction false} WordsTrailingSpace(a: string, b: string)
    requires forall k :: 0 <= k < |b| ==> IsSpace(b[k])
    ensures Words(a + b) == Words(a)
    decreases |a|
  {
    if a == [] {
      assert a + b == b;
      WordsAllSpace(b);
    } else {
      assert (a + b)[0] == a[0] && (a + b)[1..] == a[1..] + b;
      WordsTrailingSpace(a[1..], b);
      if |a| == 1 && b != [] {
        assert (a + b)[1] == b[0];
        assert a[1..] == [];
      }
    }
  }

  lemma WordsStripEnd(s: string)
    ensures Words(StripEnd(s)) == Words(s)
  {
    var t := StripEnd(s);
    StripEndDrops(s);
    assert s == t + s[|t|..];
    WordsTrailingSpace(t, s[|t|..]);
  }

  /** Collapsing whitespace runs keeps the words. */
  lemma {:induction false} WordsCollapse(s: string)
    ensures Words(CollapseWhitespace(s)) == Words(s)
    decreases |s|
  {
    if s != [] {
      var c := CollapseWhitespace(s);
      if IsSpace(s[0]) {
        var rest := StripStart(s[1..]);
        WordsCollapse(rest);
        WordsStripStart(s[1..]);
        assert c[1..] == CollapseWhitespace(rest);
      } else {
        WordsCollapse(s[1..]);
        assert c[1..] == CollapseWhitespace(s[1..]);
      }
    }
  }

  /** Joining the first word's extension: a character in front of the first word comes first. */
  lemma JoinConsFirst(c: char, ws: seq<string>, sep: string)
    requires ws != []
    ensures Join([[c] + ws[0]] + ws[1..], sep) == [c] + Join(ws, sep)
  {
    if |ws| > 1 {
      JoinConcat([[c] + ws[0]], ws[1..], sep);
      JoinConcat([ws[0]], ws[1..], sep);
      assert [ws[0]] + ws[1..] == ws;
    }
  }

  /** A stripped text with single inner spaces is its words joined by spaces. */
  lemma {:induction false} JoinWords(r: string)
    requires IsStripped(r) && IsCollapsed(r)
    ensures Join(Words(r), " ") == r
    decreases |r|
  {
    if |r| > 1 {
      CollapsedSlice(r, 1, |r|);
      if !IsSpace(r[1]) {
        JoinWords(r[1..]);
        JoinConsFirst(r[0], Words(r[1..]), " ");
        assert r == [r[0]] + r[1..];
      } else {
        assert r[1] == ' ' && |r| > 2 && !IsSpace(r[2]);
        CollapsedSlice(r, 2, |r|);
        JoinWords(r[2..]);
        assert r[1..][1..] == r[2..];
        JoinConcat([[r[0]]], Words(r[2..]), " ");
        assert r == [r[0]] + " " + r[2..];
      }
    }
  }

  /** `Normalize(s)` is `" ".join(s.split())`: each whitespace run becomes one space where it was, and none is left at the ends. */
  lemma NormalizeJoinsWords(s: string)
    ensures Normalize(s) == Join(Words(s), " ")
  {
    var c := CollapseWhitespace(s);
    var r := Normalize(s);
    assert r == StripEnd(StripStart(c));
    WordsCollapse(s);
    WordsStripStart(c);
    WordsStripEnd(StripStart(c));
    JoinWords(r);
  }

  // As written, the pattern is the raw string r'\\s+': a backslash followed by one or
  // more letters 's'. The two members below model that reading.

  function DropLeadingS(s: string): (r: string)
    ensures |r| <= |s|
    decreases |s|
  {
    if s != [] && s[0] == 's' then DropLeadingS(s[1..]) else s
  }

  /** `re.sub(r'\\s+', ' ', s)`: each backslash followed by a run of `s` letters becomes one space. */
  function ReplaceBackslashS(s: string): string
    decreases |s|
  {
    if |s| >= 2 && s[0] == '\\' && s[1] == 's' then [' '] + ReplaceBackslashS(DropLeadingS(s[2..]))
    else if s == [] then []
    else [s[0]] + ReplaceBackslashS(s[1..])
  }

  /** The normalisation line as written: the backslash-s substitution, then `strip()`. */
  function NormalizeAsWritten(s: string): (r: string)
    ensures IsStripped(r)
  {
    Strip(ReplaceBackslashS(s))
  }

  /** Text without backslashes has nothing for the as-written pattern to match. */
  lemma {:induction false} ReplaceBackslashSNoBackslash(s: string)
    requires '\\' !in s
    ensures ReplaceBackslashS(s) == s
    decreases |s|
  {
    if s != [] {
      assert s[0] != '\\';
      assert '\\' !in s[1..] by {
        assert forall k :: 0 <= k < |s| - 1 ==> s[1..][k] == s[k + 1];
      }
      ReplaceBackslashSNoBackslash(s[1..]);
      assert s == [s[0]] + s[1..];
    }
  }

  /** As written, the normalisation of backslash-free text is plain `strip()`: whitespace runs are never collapsed. */
  lemma NormalizeAsWrittenIsStrip(s: string)
    requires '\\' !in s
    ensures NormalizeAsWritten(s) == Strip(s)
  {
    ReplaceBackslashSNoBackslash(s);
  }

  /** As written, a run of tabs inside the text survives normalisation: the result is not collapsed. */
  lemma NormalizeAsWrittenKeepsTabs()
    ensures NormalizeAsWritten("a\t\tb") == "a\t\tb" && !IsCollapsed(NormalizeAsWritten("a\t\tb"))
  {
    assert ReplaceBackslashS("a\t\tb") == "a\t\tb" by {
      assert ReplaceBackslashS("b") == "b";
      assert ReplaceBackslashS("\tb") == "\tb";
      assert ReplaceBackslashS("\t\tb") == "\t\tb";
    }
    StripStripped("a\t\tb");
    assert IsSpace("a\t\tb"[1]);
  }

  /** As written, the two characters backslash and `s` become a space. */
  lemma NormalizeAsWrittenReplacesBackslashS()
    ensures NormalizeAsWritten("a\\sb") == "a b"
  {
    assert ReplaceBackslashS("a\\sb") == "a b" by {
      var w := "a\\sb";
      assert w[1] == '\\' && w[2] == 's' && w[1..][2..] == "b";
      assert DropLeadingS("b") == "b";
      assert ReplaceBackslashS(w[1..]) == " b";
    }
    assert IsStripped("a b");
    StripStripped("a b");
  }

  // ----- Sentence pieces -----

  /** Every string is non-empty and has no whitespace at either end. */
  predicate AllNonEmptyStripped(xs: seq<string>) {
    forall k :: 0 <= k < |xs| ==> xs[k] != [] && IsStripped(xs[k])
  }

  /** The loop's `sentence.strip()` and `if not sentence: continue`: the non-empty stripped pieces, in order. */
  function Keep(xs: seq<string>): (r: seq<string>)
    ensures AllNonEmptyStripped(r)
    decreases |xs|
  {
    if xs == [] then []
    else
      var p := Strip(xs[|xs| - 1]);
      Keep(xs[..|xs| - 1]) + (if p == [] then [] else [p])
  }

  /** Keep over one more piece. */
  lemma KeepPrefix(xs: seq<string>, i: nat)
    requires i < |xs|
    ensures Keep(xs[..i + 1]) == Keep(xs[..i]) + (if Strip(xs[i]) == [] then [] else [Strip(xs[i])])
  {
    assert xs[..i + 1][..i] == xs[..i];
  }

  /** The sentences `_create_chunks` packs from normalised text `t`. */
  function Sentences(t: string): (r: seq<string>)
    ensures AllNonEmptyStripped(r)
  {
    Keep(Split(t))
  }

  // ----- Greedy packing -----

  function Last<T>(xs: seq<T>): T
    requires xs != []
  {
    xs[|xs| - 1]
  }

  /**
   * The sentences of each chunk, in order: a sentence starts a new group when the
   * current group is non-empty and its length plus the sentence's exceeds
   * MaxChunkLength; otherwise it joins the current group.
   */
  function Grouping(ps: seq<string>): seq<seq<string>>
    decreases |ps|
  {
    if ps == [] then []
    else
      var gs := Grouping(ps[..|ps| - 1]);
      var s := ps[|ps| - 1];
      if gs == [] then [[s]]
      else if |Join(Last(gs), " ")| + |s| > MaxChunkLength then gs + [[s]]
      else gs[..|gs| - 1] + [Last(gs) + [s]]
  }

  /** The concatenation of the groups, in order. */
  function Flatten(gs: seq<seq<string>>): seq<string>
    decreases |gs|
  {
    if gs == [] then [] else Flatten(gs[..|gs| - 1]) + Last(gs)
  }

  /** Every group is non-empty and holds non-empty stripped sentences. */
  predicate GroupsNonEmpty(gs: seq<seq<string>>) {
    forall k :: 0 <= k < |gs| ==> gs[k] != [] && AllNonEmptyStripped(gs[k])
  }

  /** Each later sentence of a group fitted when it was added. */
  predicate GroupsFit(gs: seq<seq<string>>) {
    forall k, j :: 0 <= k < |gs| && 1 <= j < |gs[k]| ==> |Join(gs[k][..j], " ")| + |gs[k][j]| <= MaxChunkLength
  }

  /** A group was closed only because the next sentence did not fit. */
  predicate GroupsClosedWhenFull(gs: seq<seq<string>>)
    requires GroupsNonEmpty(gs)
  {
    forall k :: 0 <= k < |gs| - 1 ==> |Join(gs[k], " ")| + |gs[k + 1][0]| > MaxChunkLength
  }

  /**
   * The groups of a chunking as the source's loop forms them: nothing lost, reordered or
   * split, every group non-empty, every later sentence fitted when it was added, every
   * group closed only when the next sentence did not fit, and so a group of two or more
   * sentences joins to at most MaxChunkLength + 1 characters.
   */
  predicate IsGreedyGrouping(gs: seq<seq<string>>, ps: seq<string>) {
    && Flatten(gs) == ps
    && GroupsNonEmpty(gs)
    && GroupsFit(gs)
    && GroupsClosedWhenFull(gs)
    && (forall k :: 0 <= k < |gs| && |gs[k]| >= 2 ==> |Join(gs[k], " ")| <= MaxChunkLength + 1)
  }

  lemma {:induction false} GroupingFlatten(ps: seq<string>)
    ensures Flatten(Grouping(ps)) == ps
    decreases |ps|
  {
    if ps != [] {
      var ps' := ps[..|ps| - 1];
      var s := ps[|ps| - 1];
      assert ps == ps' + [s];
      GroupingFlatten(ps');
      var gs' := Grouping(ps');
      var gs := Grouping(ps);
      if gs' == [] {
        assert gs == [[s]];
        assert Flatten(gs) == Flatten(gs[..0]) + [s];
      } else if |Join(Last(gs'), " ")| + |s| > MaxChunkLength {
        assert gs[..|gs| - 1] == gs';
      } else {
        var n := |gs'|;
        assert gs[..n - 1] == gs'[..n - 1];
        assert Flatten(gs') == Flatten(gs'[..n - 1]) + Last(gs');
      }
    }
  }

  lemma {:induction false} GroupingNonEmpty(ps: seq<string>)
    requires AllNonEmptyStripped(ps)
    ensures GroupsNonEmpty(Grouping(ps))
    decreases |ps|
  {
    if ps != [] {
      var ps' := ps[..|ps| - 1];
      GroupingNonEmpty(ps');
    }
  }

  lemma {:induction false} GroupingFits(ps: seq<string>)
    ensures GroupsFit(Grouping(ps))
    decreases |ps|
  {
    if ps != [] {
      var ps' := ps[..|ps| - 1];
      var s := ps[|ps| - 1];
      GroupingFits(ps');
      var gs' := Grouping(ps');
      var gs := Grouping(ps);
      if gs' != [] && |Join(Last(gs'), " ")| + |s| <= MaxChunkLength {
        var n := |gs'|;
        var l := Last(gs');
        assert gs == gs'[..n - 1] + [l + [s]];
        forall k, j | 0 <= k < |gs| && 1 <= j < |gs[k]|
          ensures |Join(gs[k][..j], " ")| + |gs[k][j]| <= MaxChunkLength
        {
          if k == n - 1 && j < |l| {
            assert gs[k][..j] == l[..j];
          } else if k == n - 1 {
            assert gs[k][..j] == l;
          }
        }
      }
    }
  }

  lemma {:induction false} GroupingClosedWhenFull(ps: seq<string>)
    requires AllNonEmptyStripped(ps)
    ensures GroupsNonEmpty(Grouping(ps)) && GroupsClosedWhenFull(Grouping(ps))
    decreases |ps|
  {
    GroupingNonEmpty(ps);
    if ps != [] {
      var ps' := ps[..|ps| - 1];
      GroupingClosedWhenFull(ps');
      var gs' := Grouping(ps');
      var gs := Grouping(ps);
      if gs' != [] && |Join(Last(gs'), " ")| + |ps[|ps| - 1]| <= MaxChunkLength {
        var n := |gs'|;
        assert gs[..n - 1] == gs'[..n - 1];
        assert gs[n - 1][0] == Last(gs')[0];
      }
    }
  }

  /** A group of two or more sentences that each fitted joins to at most MaxChunkLength + 1 characters. */
  lemma FittedGroupBound(gs: seq<seq<string>>)
    requires GroupsFit(gs)
    ensures forall k :: 0 <= k < |gs| && |gs[k]| >= 2 ==> |Join(gs[k], " ")| <= MaxChunkLength + 1
  {
    forall k | 0 <= k < |gs| && |gs[k]| >= 2 ensures |Join(gs[k], " ")| <= MaxChunkLength + 1 {
      var g := gs[k];
      var j := |g| - 1;
      assert g == g[..j] + [g[j]];
      JoinAppend(g[..j], g[j], " ");
    }
  }

  lemma GroupingIsGreedy(ps: seq<string>)
    requires AllNonEmptyStripped(ps)
    ensures IsGreedyGrouping(Grouping(ps), ps)
  {
    GroupingFlatten(ps);
    GroupingClosedWhenFull(ps);
    GroupingFits(ps);
    FittedGroupBound(Grouping(ps));
  }

  /** Each group joined with single spaces. */
  function JoinEach(gs: seq<seq<string>>): (ts: seq<string>)
    ensures |ts| == |gs| && forall k :: 0 <= k < |gs| ==> ts[k] == Join(gs[k], " ")
  {
    seq(|gs|, k requires 0 <= k < |gs| => Join(gs[k], " "))
  }

  /** Joining the groups' joins is joining all the sentences. */
  lemma {:induction false} JoinFlatten(gs: seq<seq<string>>)
    requires forall k :: 0 <= k < |gs| ==> gs[k] != []
    ensures Join(JoinEach(gs), " ") == Join(Flatten(gs), " ")
    decreases |gs|
  {
    if gs != [] {
      var gs' := gs[..|gs| - 1];
      var ts := JoinEach(gs);
      var ts' := JoinEach(gs');
      JoinFlatten(gs');
      if gs' == [] {
        assert Flatten(gs) == Last(gs);
      } else {
        assert ts == ts' + [Join(Last(gs), " ")];
        JoinAppend(ts', Join(Last(gs), " "), " ");
        assert Flatten(gs') != [] by {
          FlattenNonEmpty(gs');
        }
        JoinConcat(Flatten(gs'), Last(gs), " ");
      }
    }
  }

  lemma FlattenNonEmpty(gs: seq<seq<string>>)
    requires gs != [] && forall k :: 0 <= k < |gs| ==> gs[k] != []
    ensures Flatten(gs) != []
  {
  }

  /** A space-joined list of non-empty stripped strings is itself non-empty and stripped. */
  lemma {:induction false} JoinStripped(xs: seq<string>)
    requires xs != [] && AllNonEmptyStripped(xs)
    ensures Join(xs, " ") != [] && IsStripped(Join(xs, " "))
    ensures Join(xs, " ")[0] == xs[0][0]
    decreases |xs|
  {
    if |xs| > 1 {
      JoinStripped(xs[..|xs| - 1]);
    }
  }

  // ----- Chunks -----

  function MakeChunk(text: string, pageNumber: Option<int>, sectionType: SectionType): Chunk {
    Chunk(text, pageNumber, sectionType, |text|)
  }

  /** One chunk per group: the group's sentences joined with single spaces. */
  function ChunksOf(gs: seq<seq<string>>, pageNumber: Option<int>, sectionType: SectionType): (cs: seq<Chunk>)
    ensures |cs| == |gs|
    ensures forall k :: 0 <= k < |gs| ==> cs[k] == MakeChunk(Join(gs[k], " "), pageNumber, sectionType)
  {
    seq(|gs|, k requires 0 <= k < |gs| => MakeChunk(Join(gs[k], " "), pageNumber, sectionType))
  }

  /** The texts of a list of chunks. */
  function Texts(cs: seq<Chunk>): seq<string> {
    MapSeq(cs, (c: Chunk) => c.text)
  }

  /** What `_create_chunks` returns once its text is normalised to `t`: nothing for a short text, otherwise one chunk per group. */
  function ChunkedText(t: string, pageNumber: Option<int>, sectionType: SectionType): seq<Chunk> {
    if |t| < MinTextLength then [] else ChunksOf(Grouping(Sentences(t)), pageNumber, sectionType)
  }

  /**
   * What `_create_chunks(text, page_number, section_type)` returns with the whitespace
   * collapsing its normalisation line evidently intends (see `Normalize`). The extractors
   * are modelled over this corrected chunker.
   */
  function Chunked(text: string, pageNumber: Option<int>, sectionType: SectionType): seq<Chunk> {
    ChunkedText(Normalize(text), pageNumber, sectionType)
  }

  /** What `_create_chunks(text, page_number, section_type)` returns as written, with `NormalizeAsWritten`. */
  function ChunkedAsWritten(text: string, pageNumber: Option<int>, sectionType: SectionType): seq<Chunk> {
    ChunkedText(NormalizeAsWritten(text), pageNumber, sectionType)
  }

  /** As written, the chunker of a backslash-free text only strips it: line breaks and tab runs stay in the chunks and count toward the 50-character threshold. */
  lemma ChunkedAsWrittenOnlyStrips(text: string, pageNumber: Option<int>, sectionType: SectionType)
    requires '\\' !in text
    ensures ChunkedAsWritten(text, pageNumber, sectionType) == ChunkedText(Strip(text), pageNumber, sectionType)
  {
    NormalizeAsWrittenIsStrip(text);
  }

  /** Every chunk is non-empty and stripped, carries the given tags, and records its own length. */
  predicate WellFormed(cs: seq<Chunk>, pageNumber: Option<int>, sectionType: SectionType) {
    forall k :: 0 <= k < |cs| ==>
      && cs[k].text != [] && IsStripped(cs[k].text)
      && cs[k].pageNumber == pageNumber && cs[k].sectionType == sectionType
      && cs[k].length == |cs[k].text|
  }

  lemma ChunksOfWellFormed(gs: seq<seq<string>>, pageNumber: Option<int>, sectionType: SectionType)
    requires forall k :: 0 <= k < |gs| ==> gs[k] != [] && AllNonEmptyStripped(gs[k])
    ensures WellFormed(ChunksOf(gs, pageNumber, sectionType), pageNumber, sectionType)
  {
    forall k | 0 <= k < |gs| ensures Join(gs[k], " ") != [] && IsStripped(Join(gs[k], " ")) {
      JoinStripped(gs[k]);
    }
  }

  /** Whatever the normalisation gave, the chunks are well formed. */
  lemma ChunkedTextWellFormed(t: string, pageNumber: Option<int>, sectionType: SectionType)
    ensures WellFormed(ChunkedText(t, pageNumber, sectionType), pageNumber, sectionType)
  {
    if |t| >= MinTextLength {
      GroupingNonEmpty(Sentences(t));
      ChunksOfWellFormed(Grouping(Sentences(t)), pageNumber, sectionType);
    }
  }

  lemma ChunkedWellFormed(text: string, pageNumber: Option<int>, sectionType: SectionType)
    ensures WellFormed(Chunked(text, pageNumber, sectionType), pageNumber, sectionType)
  {
    ChunkedTextWellFormed(Normalize(text), pageNumber, sectionType);
  }

  /**
   * Nothing is lost, reordered or split mid-sentence, whatever the normalisation gave: the
   * chunks in order, joined with single spaces, are exactly the sentences joined with
   * single spaces.
   */
  lemma ChunkedTextKeepsSentences(t: string, pageNumber: Option<int>, sectionType: SectionType)
    requires |t| >= MinTextLength
    ensures Join(Texts(ChunkedText(t, pageNumber, sectionType)), " ") == Join(Sentences(t), " ")
  {
    var ps := Sentences(t);
    var gs := Grouping(ps);
    var cs := ChunksOf(gs, pageNumber, sectionType);
    GroupingNonEmpty(ps);
    GroupingFlatten(ps);
    JoinFlatten(gs);
    assert Texts(cs) == JoinEach(gs);
  }

  lemma ChunkedKeepsSentences(text: string, pageNumber: Option<int>, sectionType: SectionType)
    requires |Normalize(text)| >= MinTextLength
    ensures Join(Texts(Chunked(text, pageNumber, sectionType)), " ") == Join(Sentences(Normalize(text)), " ")
  {
    ChunkedTextKeepsSentences(Normalize(text), pageNumber, sectionType);
  }

  /** A chunk longer than MaxChunkLength + 1 characters is a single sentence. */
  lemma ChunkedOversizedIsOneSentence(text: string, pageNumber: Option<int>, sectionType: SectionType, k: nat)
    requires k < |Chunked(text, pageNumber, sectionType)|
    requires |Chunked(text, pageNumber, sectionType)[k].text| > MaxChunkLength + 1
    ensures Chunked(text, pageNumber, sectionType)[k].text in Sentences(Normalize(text))
  {
    var ps := Sentences(Normalize(text));
    var gs := Grouping(ps);
    GroupingIsGreedy(ps);
    assert |gs[k]| == 1;
    FlattenMember(gs, k);
  }

  lemma {:induction false} FlattenMember(gs: seq<seq<string>>, k: nat)
    requires k < |gs| && |gs[k]| == 1
    ensures gs[k][0] in Flatten(gs)
    decreases |gs|
  {
    if k < |gs| - 1 {
      FlattenMember(gs[..|gs| - 1], k);
    }
  }

  /** The loop's state after packing the sentences grouped as `gs`: the flushed chunks and the buffer. */
  predicate Packed(gs: seq<seq<string>>, chunks: seq<Chunk>, current: string,
                   pageNumber: Option<int>, sectionType: SectionType)
  {
    && (gs == [] ==> chunks == [] && current == "")
    && (gs != [] ==> chunks == ChunksOf(gs[..|gs| - 1], pageNumber, sectionType)
                     && current == Join(Last(gs), " "))
  }

  /** The buffer is empty exactly before the first sentence, and it is always stripped. */
  lemma PackedBuffer(ps: seq<string>, chunks: seq<Chunk>, current: string,
                     pageNumber: Option<int>, sectionType: SectionType)
    requires AllNonEmptyStripped(ps)
    requires Packed(Grouping(ps), chunks, current, pageNumber, sectionType)
    ensures (current == "") == (Grouping(ps) == []) && IsStripped(current)
  {
    var gs := Grouping(ps);
    GroupingNonEmpty(ps);
    if gs != [] {
      JoinStripped(Last(gs));
    }
  }

  /** The grouping of one more sentence, from the grouping before it. */
  lemma GroupingLast(ps: seq<string>, s: string)
    ensures var gs := Grouping(ps);
      Grouping(ps + [s]) == if gs == [] then [[s]]
        else if |Join(Last(gs), " ")| + |s| > MaxChunkLength then gs + [[s]]
        else gs[..|gs| - 1] + [Last(gs) + [s]]
  {
    assert (ps + [s])[..|ps|] == ps;
  }

  /** A sentence that does not fit closes the buffer's group as a chunk and starts a new group. */
  lemma PackFlush(ps: seq<string>, s: string, chunks: seq<Chunk>, current: string,
                  pageNumber: Option<int>, sectionType: SectionType)
    requires Grouping(ps) != [] && |current| + |s| > MaxChunkLength
    requires Packed(Grouping(ps), chunks, current, pageNumber, sectionType)
    ensures Packed(Grouping(ps + [s]), chunks + [MakeChunk(current, pageNumber, sectionType)], s, pageNumber, sectionType)
  {
    var gs := Grouping(ps);
    GroupingLast(ps, s);
    assert (gs + [[s]])[..|gs|] == gs;
    SplitLast(gs);
    ChunksOfAppend(gs[..|gs| - 1], Last(gs), pageNumber, sectionType);
  }

  /** A sentence that fits joins the buffer's group after a space. */
  lemma PackExtend(ps: seq<string>, s: string, chunks: seq<Chunk>, current: string,
                   pageNumber: Option<int>, sectionType: SectionType)
    requires Grouping(ps) != [] && |current| + |s| <= MaxChunkLength
    requires Packed(Grouping(ps), chunks, current, pageNumber, sectionType)
    ensures Packed(Grouping(ps + [s]), chunks, current + " " + s, pageNumber, sectionType)
  {
    var gs := Grouping(ps);
    GroupingLast(ps, s);
    JoinAppend(Last(gs), s, " ");
  }

  /** One iteration of the loop for a non-empty stripped sentence `s`. */
  lemma PackStep(ps: seq<string>, s: string, chunks: seq<Chunk>, current: string,
                 pageNumber: Option<int>, sectionType: SectionType)
    requires AllNonEmptyStripped(ps) && s != [] && IsStripped(s)
    requires Packed(Grouping(ps), chunks, current, pageNumber, sectionType)
    ensures |current| + |s| > MaxChunkLength && current != "" ==>
      Packed(Grouping(ps + [s]), chunks + [MakeChunk(current, pageNumber, sectionType)], s, pageNumber, sectionType)
    ensures !(|current| + |s| > MaxChunkLength && current != "") ==>
      Packed(Grouping(ps + [s]), chunks, if current != "" then current + " " + s else s, pageNumber, sectionType)
  {
    PackedBuffer(ps, chunks, current, pageNumber, sectionType);
    if Grouping(ps) == [] {
      GroupingLast(ps, s);
    } else if |current| + |s| > MaxChunkLength {
      PackFlush(ps, s, chunks, current, pageNumber, sectionType);
    } else {
      PackExtend(ps, s, chunks, current, pageNumber, sectionType);
    }
  }

  /** Closing one more group adds its chunk at the end. */
  lemma ChunksOfAppend(gs: seq<seq<string>>, g: seq<string>, pageNumber: Option<int>, sectionType: SectionType)
    ensures ChunksOf(gs + [g], pageNumber, sectionType)
            == ChunksOf(gs, pageNumber, sectionType) + [MakeChunk(Join(g, " "), pageNumber, sectionType)]
  {
    var a := ChunksOf(gs + [g], pageNumber, sectionType);
    var b := ChunksOf(gs, pageNumber, sectionType) + [MakeChunk(Join(g, " "), pageNumber, sectionType)];
    assert |a| == |b|;
    forall k | 0 <= k < |a| ensures a[k] == b[k] {
      if k < |gs| {
        assert (gs + [g])[k] == gs[k];
      }
    }
  }

  /** One iteration of the loop over the pieces `xs`, at piece `i`. */
  lemma PackIter(xs: seq<string>, i: nat, chunks: seq<Chunk>, current: string,
                 pageNumber: Option<int>, sectionType: SectionType)
    requires i < |xs|
    requires Packed(Grouping(Keep(xs[..i])), chunks, current, pageNumber, sectionType)
    ensures Strip(current) == current
    ensures Strip(xs[i]) == [] ==>
      Packed(Grouping(Keep(xs[..i + 1])), chunks, current, pageNumber, sectionType)
    ensures var s := Strip(xs[i]);
      s != [] && |current| + |s| > MaxChunkLength && current != "" ==>
      Packed(Grouping(Keep(xs[..i + 1])), chunks + [MakeChunk(current, pageNumber, sectionType)], s,
             pageNumber, sectionType)
    ensures var s := Strip(xs[i]);
      s != [] && !(|current| + |s| > MaxChunkLength && current != "") ==>
      Packed(Grouping(Keep(xs[..i + 1])), chunks, if current != "" then current + " " + s else s,
             pageNumber, sectionType)
  {
    var ps := Keep(xs[..i]);
    KeepPrefix(xs, i);
    PackedBuffer(ps, chunks, current, pageNumber, sectionType);
    StripStripped(current);
    var s := Strip(xs[i]);
    if s == [] {
      assert ps + [] == ps;
    } else {
      PackStep(ps, s, chunks, current, pageNumber, sectionType);
    }
  }

  /** After the loop, flushing a non-empty buffer gives one chunk per group. */
  lemma PackFinish(ps: seq<string>, chunks: seq<Chunk>, current: string,
                   pageNumber: Option<int>, sectionType: SectionType)
    requires AllNonEmptyStripped(ps)
    requires Packed(Grouping(ps), chunks, current, pageNumber, sectionType)
    ensures Strip(current) == current
    ensures (if current != "" then chunks + [MakeChunk(current, pageNumber, sectionType)] else chunks)
            == ChunksOf(Grouping(ps), pageNumber, sectionType)
  {
    PackedBuffer(ps, chunks, current, pageNumber, sectionType);
    StripStripped(current);
    var gs := Grouping(ps);
    if gs != [] {
      SplitLast(gs);
      ChunksOfAppend(gs[..|gs| - 1], Last(gs), pageNumber, sectionType);
    }
  }

  /**
   * `_create_chunks`: normalise, drop short texts, split on runs of `.!?` and pack the
   * stripped non-empty sentences, flushing the buffer when the next sentence would
   * take it past MaxChunkLength.
   */
  method CreateChunks(text: string, pageNumber: Option<int>, sectionType: SectionType)
    returns (chunks: seq<Chunk>)
    ensures chunks == Chunked(text, pageNumber, sectionType)
    ensures |Normalize(text)| < MinTextLength ==> chunks == []
    ensures WellFormed(chunks, pageNumber, sectionType)
  {
    ChunkedWellFormed(text, pageNumber, sectionType);
    var t := Normalize(text);
    chunks := [];
    if |t| < MinTextLength {
      return;
    }
    var sentences := Split(t);
    var current := "";
    assert sentences[..0] == [];
    for i := 0 to |sentences|
      invariant Packed(Grouping(Keep(sentences[..i])), chunks, current, pageNumber, sectionType)
    {
      PackIter(sentences, i, chunks, current, pageNumber, sectionType);
      var sentence := Strip(sentences[i]);
      if sentence == "" {
        continue;
      }
      if |current| + |sentence| > MaxChunkLength && current != "" {
        chunks := chunks + [MakeChunk(Strip(current), pageNumber, sectionType)];
        current := sentence;
      } else {
        current := if current != "" then current + " " + sentence else sentence;
      }
    }
    assert sentences[..|sentences|] == sentences;
    PackFinish(Sentences(t), chunks, current, pageNumber, sectionType);
    if Strip(current) != "" {
      chunks := chunks + [MakeChunk(Strip(current), pageNumber, sectionType)];
    }
  }
}
