/**
 * `QuestionAnsweringService.answer_question`: the question's embedding retrieves the ten
 * nearest chunks, the close ones are taken in rank order while they fit a character
 * budget, an answer is composed from their joined text, and the reply carries a
 * confidence derived from their similarities and one source record per chunk used.
 */
module QuestionAnswering {
  import opened Wrappers
  import opened Text
  import opened Chunker
  import opened VectorIndex
  import opened Synthesis
  import opened Sequences

  /** `answer_question` asks the store for this many results. */
  const SearchResults: nat := 10
  /** Only results strictly closer than this enter the context. */
  const MaxDistance: real := 0.7
  /** The default character budget of the context. */
  const DefaultMaxContextLength := 2000
  /** Source previews keep this many characters before the ellipsis. */
  const PreviewLength := 200

  const NoResultsMessage := "I couldn't find any relevant information in the document to answer your question."
  const NotRelevantMessage := "I couldn't find sufficiently relevant information to answer your question."
  const ErrorPrefix := "An error occurred while processing your question: "

  /** A context chunk: its text, its stored metadata, `1 - distance` and its rank in the results. */
  datatype ContextChunk = ContextChunk(text: string, metadata: EntryMetadata, similarity: real, chunkId: nat)

  /** A source record of the reply. */
  datatype Source = Source(
    chunkId: nat, textPreview: string, pageNumber: Option<int>, sectionType: SectionType, similarity: real)

  /** The reply dictionary; `contextUsed` is present on success only. */
  datatype AnswerResult = AnswerResult(
    success: bool, answer: string, confidence: real, sources: seq<Source>, contextUsed: Option<nat>)

  /** A reply that failed with `message`. */
  function Unanswered(message: string): AnswerResult {
    AnswerResult(false, message, 0.0, [], None)
  }

  // ----- Rounding -----

  /** Rounds to the nearest integer, halves to the even one, as Python's `round` does. */
  function RoundHalfEven(y: real): (n: int)
    ensures y - 0.5 <= n as real <= y + 0.5
  {
    var f := y.Floor;
    var frac := y - f as real;
    if frac < 0.5 then f
    else if frac > 0.5 then f + 1
    else if f % 2 == 0 then f else f + 1
  }

  /** Rounding never crosses an integer bound. */
  lemma RoundHalfEvenBounds(y: real, k: int)
    ensures y <= k as real ==> RoundHalfEven(y) <= k
    ensures k as real <= y ==> k <= RoundHalfEven(y)
  {
    var f := y.Floor;
    if y <= k as real && f == k {
      assert y - f as real == 0.0;
    }
  }

  /** `round(x, 3)` on the real value of `x`. */
  function Round3(x: real): (r: real)
    ensures x - 0.0005 <= r <= x + 0.0005
  {
    RoundHalfEven(x * 1000.0) as real / 1000.0
  }

  /** Rounding to three places keeps a number within bounds that are themselves multiples of 0.001. */
  lemma Round3Bounds(x: real, lo: int, hi: int)
    ensures lo as real / 1000.0 <= x ==> lo as real / 1000.0 <= Round3(x)
    ensures x <= hi as real / 1000.0 ==> Round3(x) <= hi as real / 1000.0
  {
    RoundHalfEvenBounds(x * 1000.0, lo);
    RoundHalfEvenBounds(x * 1000.0, hi);
  }

  // ----- Context selection -----

  /** The number of triples `zip(documents, metadatas, distances)` yields. */
  function ZipLength(r: SearchResult): (n: nat)
    ensures n <= |r.documents| && n <= |r.metadatas| && n <= |r.distances|
    ensures n == |r.documents| || n == |r.metadatas| || n == |r.distances|
  {
    var a := if |r.documents| <= |r.metadatas| then |r.documents| else |r.metadatas|;
    if a <= |r.distances| then a else |r.distances|
  }

  /** The selection loop's state: the chunks taken and `total_length`. */
  datatype Selection = Selection(chunks: seq<ContextChunk>, total: int)

  /** Result `j` as a context chunk, with similarity `1 - distance`. */
  function ChunkAt(r: SearchResult, j: nat): ContextChunk
    requires j < ZipLength(r)
  {
    ContextChunk(r.documents[j], r.metadatas[j], 1.0 - r.distances[j], j)
  }

  /**
   * The selection loop over the first `i` results: a result is taken when it is closer
   * than MaxDistance and its text still fits the budget.
   */
  function Selected(r: SearchResult, maxLength: int, i: nat): Selection
    requires i <= ZipLength(r)
    decreases i
  {
    if i == 0 then Selection([], 0)
    else
      var s := Selected(r, maxLength, i - 1);
      var doc := r.documents[i - 1];
      if r.distances[i - 1] < MaxDistance && s.total + |doc| <= maxLength then
        Selection(s.chunks + [ChunkAt(r, i - 1)], s.total + |doc|)
      else s
  }

  /** `context_chunks` after the loop. */
  function Context(r: SearchResult, maxLength: int): seq<ContextChunk> {
    Selected(r, maxLength, ZipLength(r)).chunks
  }

  /** Result `j` passes the loop's test given what was taken before it. */
  predicate Takes(r: SearchResult, maxLength: int, j: nat)
    requires j < ZipLength(r)
  {
    r.distances[j] < MaxDistance && Selected(r, maxLength, j).total + |r.documents[j]| <= maxLength
  }

  /** The loop over one more result. */
  lemma SelectedStep(r: SearchResult, maxLength: int, i: nat)
    requires 0 < i <= ZipLength(r)
    ensures var s := Selected(r, maxLength, i - 1);
      Selected(r, maxLength, i)
      == if Takes(r, maxLength, i - 1) then Selection(s.chunks + [ChunkAt(r, i - 1)], s.total + |r.documents[i - 1]|)
         else s
  {
  }

  /** The summed lengths of the chunks' texts. */
  function TotalLength(chunks: seq<ContextChunk>): (n: nat)
    decreases |chunks|
  {
    if chunks == [] then 0 else TotalLength(chunks[..|chunks| - 1]) + |chunks[|chunks| - 1].text|
  }

  lemma TotalLengthAppend(chunks: seq<ContextChunk>, c: ContextChunk)
    ensures TotalLength(chunks + [c]) == TotalLength(chunks) + |c.text|
  {
    assert (chunks + [c])[..|chunks|] == chunks;
  }

  /** Chunk `c` is result `c.chunkId`, as the loop records it. */
  predicate FromResult(r: SearchResult, c: ContextChunk) {
    c.chunkId < ZipLength(r) && c == ChunkAt(r, c.chunkId) && r.distances[c.chunkId] < MaxDistance
  }

  /** The ranks of the chunks increase strictly: the context keeps the search order. */
  predicate InRankOrder(chunks: seq<ContextChunk>) {
    forall j, k :: 0 <= j < k < |chunks| ==> chunks[j].chunkId < chunks[k].chunkId
  }

  /** `total_length` is the summed length of the chunks taken, and within the budget once anything is taken. */
  lemma {:induction false} SelectedTotal(r: SearchResult, maxLength: int, i: nat)
    requires i <= ZipLength(r)
    ensures var s := Selected(r, maxLength, i);
      s.total == TotalLength(s.chunks) && (s.chunks != [] ==> s.total <= maxLength)
    decreases i
  {
    if i > 0 {
      SelectedTotal(r, maxLength, i - 1);
      SelectedStep(r, maxLength, i);
      TotalLengthAppend(Selected(r, maxLength, i - 1).chunks, ChunkAt(r, i - 1));
    }
  }

  /**
   * Every chunk taken is a close result among the first `i`, with its text, metadata and
   * `1 - distance`, and the chunks keep the search order.
   */
  lemma {:induction false} SelectedSound(r: SearchResult, maxLength: int, i: nat)
    requires i <= ZipLength(r)
    ensures var s := Selected(r, maxLength, i);
      && InRankOrder(s.chunks)
      && forall k :: 0 <= k < |s.chunks| ==> FromResult(r, s.chunks[k]) && s.chunks[k].chunkId < i
    decreases i
  {
    if i > 0 {
      SelectedSound(r, maxLength, i - 1);
      SelectedStep(r, maxLength, i);
      var s := Selected(r, maxLength, i - 1).chunks;
      if Takes(r, maxLength, i - 1) {
        var t := s + [ChunkAt(r, i - 1)];
        assert forall k :: 0 <= k < |s| ==> t[k] == s[k];
        assert t[|s|] == ChunkAt(r, i - 1);
      }
    }
  }

  predicate HasChunk(chunks: seq<ContextChunk>, j: nat) {
    exists k :: 0 <= k < |chunks| && chunks[k].chunkId == j
  }

  /**
   * Result `j` is in the context exactly when it passes the test on reaching it: a close
   * result is skipped only because its text would overflow the budget.
   */
  lemma {:induction false} SelectedTakes(r: SearchResult, maxLength: int, i: nat, j: nat)
    requires j < i <= ZipLength(r)
    ensures HasChunk(Selected(r, maxLength, i).chunks, j) <==> Takes(r, maxLength, j)
    decreases i
  {
    var s := Selected(r, maxLength, i - 1).chunks;
    var t := Selected(r, maxLength, i).chunks;
    SelectedSound(r, maxLength, i - 1);
    SelectedStep(r, maxLength, i);
    var c := ChunkAt(r, i - 1);
    if Takes(r, maxLength, i - 1) {
      assert t == s + [c];
      assert forall k :: 0 <= k < |s| ==> t[k] == s[k];
      assert t[|s|] == c;
    } else {
      assert t == s;
    }
    if j == i - 1 {
      assert !HasChunk(s, j);
    } else {
      SelectedTakes(r, maxLength, i - 1, j);
      if HasChunk(t, j) {
        var k :| 0 <= k < |t| && t[k].chunkId == j;
        assert k < |s|;
      }
    }
  }

  /** Result `j` is close enough and short enough to be taken on its own. */
  predicate FitsAlone(r: SearchResult, maxLength: int, j: nat)
    requires j < ZipLength(r)
  {
    r.distances[j] < MaxDistance && |r.documents[j]| <= maxLength
  }

  /** Nothing is taken exactly when no result is close enough and short enough on its own. */
  lemma {:induction false} SelectedEmpty(r: SearchResult, maxLength: int, i: nat)
    requires i <= ZipLength(r)
    ensures Selected(r, maxLength, i).chunks == [] <==> forall j :: 0 <= j < i ==> !FitsAlone(r, maxLength, j)
    decreases i
  {
    if i > 0 {
      SelectedEmpty(r, maxLength, i - 1);
      SelectedTotal(r, maxLength, i - 1);
      SelectedStep(r, maxLength, i);
      var s := Selected(r, maxLength, i - 1);
      if s.chunks == [] {
        assert Takes(r, maxLength, i - 1) == FitsAlone(r, maxLength, i - 1);
      } else {
        var j :| 0 <= j < i - 1 && FitsAlone(r, maxLength, j);
      }
    }
  }

  /**
   * The selection loop of `answer_question`: it returns the context chunks and leaves
   * `total_length` at their summed length.
   */
  method SelectContext(r: SearchResult, maxLength: int) returns (chunks: seq<ContextChunk>, totalLength: int)
    ensures chunks == Context(r, maxLength)
    ensures totalLength == TotalLength(chunks)
  {
    chunks := [];
    totalLength := 0;
    var n := ZipLength(r);
    for i := 0 to n
      invariant Selection(chunks, totalLength) == Selected(r, maxLength, i)
    {
      var doc := r.documents[i];
      var distance := r.distances[i];
      if distance < MaxDistance && totalLength + |doc| <= maxLength {
        chunks := chunks + [ContextChunk(doc, r.metadatas[i], 1.0 - distance, i)];
        totalLength := totalLength + |doc|;
      }
    }
    SelectedTotal(r, maxLength, n);
  }

  // ----- Confidence and sources -----

  function SimilaritySum(chunks: seq<ContextChunk>): real
    decreases |chunks|
  {
    if chunks == [] then 0.0 else SimilaritySum(chunks[..|chunks| - 1]) + chunks[|chunks| - 1].similarity
  }

  /** The sum of similarities all above `lo` is above `lo` times their number. */
  lemma {:induction false} SimilaritySumAbove(chunks: seq<ContextChunk>, lo: real)
    requires forall k :: 0 <= k < |chunks| ==> chunks[k].similarity > lo
    ensures chunks != [] ==> SimilaritySum(chunks) > lo * |chunks| as real
    ensures chunks == [] ==> SimilaritySum(chunks) == 0.0
    decreases |chunks|
  {
    if chunks != [] {
      var init := chunks[..|chunks| - 1];
      assert forall k :: 0 <= k < |init| ==> init[k] == chunks[k];
      SimilaritySumAbove(init, lo);
    }
  }

  lemma DivideAbove(sum: real, n: real, lo: real)
    requires n > 0.0 && sum > lo * n
    ensures sum / n > lo
  {
    var q := sum / n;
    assert q * n == sum;
    if q <= lo {
      assert q * n <= lo * n;
    }
  }

  /** `min(avg_similarity * 1.2, 1.0)`, before rounding. */
  function Confidence(chunks: seq<ContextChunk>): (c: real)
    requires chunks != []
    ensures c <= 1.0
  {
    var average := SimilaritySum(chunks) / |chunks| as real;
    if average * 1.2 <= 1.0 then average * 1.2 else 1.0
  }

  /** Chunks closer than MaxDistance give a confidence of at least 0.36, before and after rounding, and never above 1. */
  lemma ConfidenceBounds(chunks: seq<ContextChunk>)
    requires chunks != []
    requires forall k :: 0 <= k < |chunks| ==> chunks[k].similarity > 1.0 - MaxDistance
    ensures 0.36 < Confidence(chunks) <= 1.0
    ensures 0.36 <= Round3(Confidence(chunks)) <= 1.0
  {
    SimilaritySumAbove(chunks, 1.0 - MaxDistance);
    var n := |chunks| as real;
    var average := SimilaritySum(chunks) / n;
    DivideAbove(SimilaritySum(chunks), n, 0.3);
    Round3Bounds(Confidence(chunks), 360, 1000);
  }

  /** `text[:200] + "..."` for long texts, the text itself otherwise. */
  function Preview(text: string): string {
    if |text| > PreviewLength then text[..PreviewLength] + "..." else text
  }

  /** A preview is at most 203 characters and begins with the text's first 200. */
  lemma PreviewShape(text: string)
    ensures |Preview(text)| <= PreviewLength + 3
    ensures Prefix(text, PreviewLength) <= Preview(text)
    ensures |text| <= PreviewLength ==> Preview(text) == text
  {
  }

  /** The source record of one chunk. */
  function SourceOf(c: ContextChunk): Source {
    Source(c.chunkId, Preview(c.text), c.metadata.pageNumber, c.metadata.sectionType, Round3(c.similarity))
  }

  function Sources(chunks: seq<ContextChunk>): (r: seq<Source>)
    ensures |r| == |chunks| && forall k :: 0 <= k < |chunks| ==> r[k] == SourceOf(chunks[k])
  {
    seq(|chunks|, k requires 0 <= k < |chunks| => SourceOf(chunks[k]))
  }

  /** The texts of the selected chunks. */
  function ContextTexts(chunks: seq<ContextChunk>): seq<string> {
    MapSeq(chunks, (c: ContextChunk) => c.text)
  }

  /** `_generate_answer`: the strategy for the question, run over the chunks' texts joined by spaces. */
  function GenerateAnswer(question: string, chunks: seq<ContextChunk>, f: Finders): string {
    Synthesize(question, JoinedContext(chunks), f)
  }

  function JoinedContext(chunks: seq<ContextChunk>): string {
    Join(ContextTexts(chunks), " ")
  }

  /** The joined context is the chunks' texts plus one space between each two. */
  lemma {:induction false} JoinedContextLength(chunks: seq<ContextChunk>)
    requires chunks != []
    ensures |JoinedContext(chunks)| == TotalLength(chunks) + |chunks| - 1
    decreases |chunks|
  {
    if |chunks| > 1 {
      var init := chunks[..|chunks| - 1];
      JoinedContextLength(init);
      assert ContextTexts(chunks)[..|chunks| - 1] == ContextTexts(init);
    }
  }

  // ----- The reply -----

  /** `answer_question`'s reply for the results of a search that did not raise. */
  function Answered(question: string, r: SearchResult, maxLength: int, f: Finders): AnswerResult {
    if r.documents == [] then Unanswered(NoResultsMessage)
    else
      var chunks := Context(r, maxLength);
      if chunks == [] then Unanswered(NotRelevantMessage)
      else AnswerResult(true, GenerateAnswer(question, chunks, f), Round3(Confidence(chunks)),
                        Sources(chunks), Some(|chunks|))
  }

  /**
   * A reply fails exactly when the search found nothing or no result is close and short
   * enough to use on its own; a failed reply has confidence 0, no sources and no context count.
   */
  lemma AnsweredFailure(question: string, r: SearchResult, maxLength: int, f: Finders)
    ensures var a := Answered(question, r, maxLength, f);
      && (!a.success <==> r.documents == [] || forall j :: 0 <= j < ZipLength(r) ==> !FitsAlone(r, maxLength, j))
      && (!a.success ==> a.confidence == 0.0 && a.sources == [] && a.contextUsed == None)
      && (r.documents == [] ==> a.answer == NoResultsMessage)
  {
    SelectedEmpty(r, maxLength, ZipLength(r));
  }

  /**
   * A successful reply counts one source per context chunk, in rank order; each source
   * describes a close result, and the confidence lies between 0.36 and 1. The text the
   * answer is composed from fits the budget, plus the separating spaces.
   */
  lemma AnsweredSuccess(question: string, r: SearchResult, maxLength: int, f: Finders)
    ensures var a := Answered(question, r, maxLength, f);
      a.success ==>
        && a.contextUsed == Some(|a.sources|) && 0 < |a.sources| <= ZipLength(r)
        && 0.36 <= a.confidence <= 1.0
        && (forall j, k :: 0 <= j < k < |a.sources| ==> a.sources[j].chunkId < a.sources[k].chunkId)
        && (forall k :: 0 <= k < |a.sources| ==>
              var id := a.sources[k].chunkId;
              && id < ZipLength(r) && r.distances[id] < MaxDistance
              && a.sources[k].pageNumber == r.metadatas[id].pageNumber
              && a.sources[k].sectionType == r.metadatas[id].sectionType
              && a.sources[k].similarity == Round3(1.0 - r.distances[id])
              && a.sources[k].textPreview == Preview(r.documents[id]))
        && |JoinedContext(Context(r, maxLength))| <= maxLength + |a.sources| - 1
  {
    var a := Answered(question, r, maxLength, f);
    if a.success {
      var chunks := Context(r, maxLength);
      assert a.sources == Sources(chunks) && a.confidence == Round3(Confidence(chunks));
      ContextSources(r, maxLength);
      ContextBounds(r, maxLength);
    }
  }

  /** Each source describes a close result, with its metadata, rounded similarity and preview, in rank order. */
  lemma ContextSources(r: SearchResult, maxLength: int)
    ensures var sources := Sources(Context(r, maxLength));
      && (forall j, k :: 0 <= j < k < |sources| ==> sources[j].chunkId < sources[k].chunkId)
      && (forall k :: 0 <= k < |sources| ==>
            var id := sources[k].chunkId;
            && id < ZipLength(r) && r.distances[id] < MaxDistance
            && sources[k].pageNumber == r.metadatas[id].pageNumber
            && sources[k].sectionType == r.metadatas[id].sectionType
            && sources[k].similarity == Round3(1.0 - r.distances[id])
            && sources[k].textPreview == Preview(r.documents[id]))
  {
    var chunks := Context(r, maxLength);
    var sources := Sources(chunks);
    SelectedSound(r, maxLength, ZipLength(r));
    forall k | 0 <= k < |sources| ensures sources[k] == SourceOf(ChunkAt(r, chunks[k].chunkId)) {
      assert FromResult(r, chunks[k]);
    }
  }

  /** A non-empty context has at most one chunk per result, a confidence between 0.36 and 1, and fits the budget plus separators. */
  lemma ContextBounds(r: SearchResult, maxLength: int)
    ensures var chunks := Context(r, maxLength);
      chunks != [] ==>
        && |chunks| <= ZipLength(r)
        && 0.36 <= Round3(Confidence(chunks)) <= 1.0
        && |JoinedContext(chunks)| <= maxLength + |chunks| - 1
  {
    var chunks := Context(r, maxLength);
    if chunks != [] {
      var n := ZipLength(r);
      SelectedSound(r, maxLength, n);
      SelectedTotal(r, maxLength, n);
      forall k | 0 <= k < |chunks| ensures chunks[k].similarity > 1.0 - MaxDistance {
        assert FromResult(r, chunks[k]);
      }
      ConfidenceBounds(chunks);
      JoinedContextLength(chunks);
      RankBound(chunks, n);
    }
  }

  /**
   * A successful answer is one of the strategies' fallbacks, or quotes one to three
   * sentences of the selected chunks' texts joined by spaces.
   */
  lemma AnsweredGrounded(question: string, r: SearchResult, maxLength: int, f: Finders)
    ensures var a := Answered(question, r, maxLength, f);
      a.success ==> Grounded(a.answer, JoinedContext(Context(r, maxLength)))
  {
    var chunks := Context(r, maxLength);
    var a := Answered(question, r, maxLength, f);
    if a.success {
      assert a.answer == GenerateAnswer(question, chunks, f);
      GenerateAnswerGrounded(question, chunks, f);
    }
  }

  /** The composed answer is a fallback or quotes pieces of the joined context. */
  lemma GenerateAnswerGrounded(question: string, chunks: seq<ContextChunk>, f: Finders)
    ensures Grounded(GenerateAnswer(question, chunks, f), JoinedContext(chunks))
  {
    SynthesizeQuotesContext(question, JoinedContext(chunks), f);
  }

  /** Strictly increasing ranks below `n` number at most `n`. */
  lemma {:induction false} RankBound(chunks: seq<ContextChunk>, n: nat)
    requires InRankOrder(chunks)
    requires forall k :: 0 <= k < |chunks| ==> chunks[k].chunkId < n
    ensures |chunks| <= n
    decreases |chunks|
  {
    if chunks != [] {
      var init := chunks[..|chunks| - 1];
      var last := chunks[|chunks| - 1].chunkId;
      forall k | 0 <= k < |init| ensures init[k].chunkId < last {
        assert init[k] == chunks[k];
      }
      RankBound(init, last);
    }
  }

  /**
   * `answer_question`. `embedding` is what the embedding service produced for the
   * question, or the message of the exception it raised; the search runs on `store`
   * under the collection's `distance`. The context budget defaults to 2000 characters.
   */
  method AnswerQuestion(store: VectorStore, question: string, documentId: Option<int>,
                        embedding: Result<seq<real>>, distance: (seq<real>, seq<real>) -> real, f: Finders,
                        maxContextLength: int := DefaultMaxContextLength)
    returns (result: AnswerResult)
    ensures embedding.Failure? ==> result == Unanswered(ErrorPrefix + embedding.error)
    ensures embedding.Success? ==>
      result == Answered(question,
        Unzipped(Nearest(store.entries, embedding.value, WhereFilter(documentId), SearchResults, distance)),
        maxContextLength, f)
    ensures result.success ==> |result.sources| <= SearchResults
  {
    if embedding.Failure? {
      return Unanswered(ErrorPrefix + embedding.error);
    }
    var searchResults := store.SearchSimilar(embedding.value, documentId, SearchResults, distance);
    AnsweredSuccess(question, searchResults, maxContextLength, f);
    if searchResults.documents == [] {
      return Unanswered(NoResultsMessage);
    }
    var contextChunks, totalLength := SelectContext(searchResults, maxContextLength);
    if contextChunks == [] {
      return Unanswered(NotRelevantMessage);
    }
    var answer := GenerateAnswer(question, contextChunks, f);
    var confidence := Confidence(contextChunks);
    var sources := Sources(contextChunks);
    result := AnswerResult(true, answer, Round3(confidence), sources, Some(|contextChunks|));
  }
}
