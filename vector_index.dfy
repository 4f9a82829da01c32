/**
 * `VectorStore`: the bookkeeping around the vector collection. Chunks are added under
 * ids derived from their document and position, searched nearest first within one
 * document or across all of them, and deleted by document. The collection is an
 * in-memory sequence of entries in insertion order.
 */
module VectorIndex {
  import opened Wrappers
  import opened Text
  import opened Chunker
  import opened Sequences

  /** A chunk dictionary as `add_chunks` reads it; a missing key is `None`. */
  datatype ChunkInput = ChunkInput(
    text: string, pageNumber: Option<int>, sectionType: Option<SectionType>, length: Option<int>)

  /** The metadata stored with each chunk. */
  datatype EntryMetadata = EntryMetadata(
    documentId: int, pageNumber: Option<int>, sectionType: SectionType, length: int)

  /** One record of the collection: id, embedding, document text and metadata. */
  datatype Entry = Entry(id: string, embedding: seq<real>, document: string, metadata: EntryMetadata)

  /** The dictionary `search_similar` returns: parallel lists, nearest first. */
  datatype SearchResult = SearchResult(documents: seq<string>, metadatas: seq<EntryMetadata>, distances: seq<real>)

  // ----- Ids -----

  /** `f"doc_{document_id}_chunk_{i}"` */
  function ChunkId(documentId: int, i: nat): string {
    "doc_" + IntToString(documentId) + "_chunk_" + NatToString(i)
  }

  /** The ids of one `add_chunks` call with `n` chunks. */
  function ChunkIds(documentId: int, n: nat): (ids: seq<string>)
    ensures |ids| == n && forall i :: 0 <= i < n ==> ids[i] == ChunkId(documentId, i)
  {
    seq(n, i requires 0 <= i < n => ChunkId(documentId, i))
  }

  predicate NoUnderscore(s: string) {
    forall j :: 0 <= j < |s| ==> s[j] != '_'
  }

  /** The index of the first underscore of `s`, or `|s|` when there is none. */
  function FirstUnderscore(s: string): (i: nat)
    ensures i <= |s| && NoUnderscore(s[..i]) && (i < |s| ==> s[i] == '_')
    decreases |s|
  {
    if s == [] || s[0] == '_' then 0
    else
      var i := FirstUnderscore(s[1..]) + 1;
      assert s[..i] == [s[0]] + s[1..][..i - 1];
      i
  }

  lemma {:induction false} FirstUnderscoreAfter(a: string, b: string)
    requires NoUnderscore(a)
    ensures FirstUnderscore(a + "_" + b) == |a|
    decreases |a|
  {
    if a != [] {
      assert (a + "_" + b)[1..] == a[1..] + "_" + b;
      FirstUnderscoreAfter(a[1..], b);
    }
  }

  /** Splitting at the first underscore: an underscore-free head is determined by the string. */
  lemma SplitAtUnderscore(a: string, b: string, c: string, d: string)
    requires NoUnderscore(a) && NoUnderscore(c)
    requires a + "_" + b == c + "_" + d
    ensures a == c && b == d
  {
    var s := a + "_" + b;
    FirstUnderscoreAfter(a, b);
    FirstUnderscoreAfter(c, d);
    assert a == s[..|a|] == c;
    assert b == s[|a| + 1..] == d;
  }

  /** Equal strings with a common start are equal after it. */
  lemma DropCommonStart(p: string, x: string, y: string)
    requires p + x == p + y
    ensures x == y
  {
    assert x == (p + x)[|p|..];
    assert y == (p + y)[|p|..];
  }

  /** An id is its fixed start, the document id, an underscore, and the position's tail. */
  lemma ChunkIdShape(d: int, i: nat)
    ensures ChunkId(d, i) == "doc_" + (IntToString(d) + "_" + ("chunk_" + NatToString(i)))
  {
  }

  /**
   * Ids never collide: two chunks share an id only when they belong to the same
   * document and sit at the same position.
   */
  lemma ChunkIdInjective(d1: int, i1: nat, d2: int, i2: nat)
    requires ChunkId(d1, i1) == ChunkId(d2, i2)
    ensures d1 == d2 && i1 == i2
  {
    var a := IntToString(d1);
    var c := IntToString(d2);
    var t1 := "chunk_" + NatToString(i1);
    var t2 := "chunk_" + NatToString(i2);
    ChunkIdShape(d1, i1);
    ChunkIdShape(d2, i2);
    DropCommonStart("doc_", a + "_" + t1, c + "_" + t2);
    SplitAtUnderscore(a, t1, c, t2);
    DropCommonStart("chunk_", NatToString(i1), NatToString(i2));
    IntToStringInjective(d1, d2);
    NatToStringInjective(i1, i2);
  }

  /** The ids of one call are pairwise distinct. */
  lemma ChunkIdsDistinct(documentId: int, n: nat)
    ensures var ids := ChunkIds(documentId, n);
      forall i, j :: 0 <= i < j < n ==> ids[i] != ids[j]
  {
    forall i, j | 0 <= i < j < n ensures ChunkId(documentId, i) != ChunkId(documentId, j) {
      if ChunkId(documentId, i) == ChunkId(documentId, j) {
        ChunkIdInjective(documentId, i, documentId, j);
      }
    }
  }

  // ----- Adding -----

  /** The metadata dictionary of one chunk: `section_type` defaults to paragraph, `length` to the text's length. */
  function MetadataFor(documentId: int, chunk: ChunkInput): (m: EntryMetadata)
    ensures m.documentId == documentId && m.pageNumber == chunk.pageNumber
    ensures m.sectionType == (if chunk.sectionType.Some? then chunk.sectionType.value else Paragraph)
    ensures m.length == (if chunk.length.Some? then chunk.length.value else |chunk.text|)
  {
    EntryMetadata(
      documentId, chunk.pageNumber,
      match chunk.sectionType case Some(t) => t case None => Paragraph,
      match chunk.length case Some(n) => n case None => |chunk.text|)
  }

  /** The records one `add_chunks` call hands to the collection. */
  function NewEntries(documentId: int, chunks: seq<ChunkInput>, embeddings: seq<seq<real>>): (es: seq<Entry>)
    requires |embeddings| == |chunks|
    ensures |es| == |chunks|
    ensures forall i :: 0 <= i < |chunks| ==>
      es[i] == Entry(ChunkId(documentId, i), embeddings[i], chunks[i].text, MetadataFor(documentId, chunks[i]))
  {
    seq(|chunks|, i requires 0 <= i < |chunks| =>
      Entry(ChunkId(documentId, i), embeddings[i], chunks[i].text, MetadataFor(documentId, chunks[i])))
  }

  function Ids(entries: seq<Entry>): (ids: seq<string>)
    ensures |ids| == |entries| && forall k :: 0 <= k < |entries| ==> ids[k] == entries[k].id
  {
    seq(|entries|, k requires 0 <= k < |entries| => entries[k].id)
  }

  /** No two entries share an id. */
  predicate UniqueIds(entries: seq<Entry>) {
    forall j, k :: 0 <= j < k < |entries| ==> entries[j].id != entries[k].id
  }

  /** The collection's `add`: each new record whose id is already stored is ignored. */
  function Inserted(entries: seq<Entry>, news: seq<Entry>): (r: seq<Entry>)
    decreases |news|
  {
    if news == [] then entries
    else
      var before := Inserted(entries, news[..|news| - 1]);
      var e := news[|news| - 1];
      if e.id in Ids(before) then before else before + [e]
  }

  /** Inserting keeps the stored records in front and keeps ids unique. */
  lemma {:induction false} InsertedProperties(entries: seq<Entry>, news: seq<Entry>)
    requires UniqueIds(entries)
    ensures var r := Inserted(entries, news);
      && UniqueIds(r) && |entries| <= |r| && r[..|entries|] == entries
      && (forall k :: |entries| <= k < |r| ==> r[k] in news)
    decreases |news|
  {
    if news != [] {
      var before := Inserted(entries, news[..|news| - 1]);
      InsertedProperties(entries, news[..|news| - 1]);
      var e := news[|news| - 1];
      if e.id !in Ids(before) {
        var r := before + [e];
        assert forall k :: 0 <= k < |before| ==> before[k].id != e.id by {
          forall k | 0 <= k < |before| ensures before[k].id != e.id {
            assert Ids(before)[k] == before[k].id;
          }
        }
        assert r[..|entries|] == before[..|entries|];
        assert forall k :: |entries| <= k < |before| ==> before[k] in news[..|news| - 1];
      } else {
        assert forall k :: |entries| <= k < |before| ==> before[k] in news[..|news| - 1];
      }
    }
  }

  /** Whether the collection's `add` refuses the call: as many embeddings as chunks are required. */
  predicate AddRejected(chunks: seq<ChunkInput>, embeddings: seq<seq<real>>) {
    chunks != [] && embeddings != [] && |chunks| != |embeddings|
  }

  /** The collection after `add_chunks(documentId, chunks, embeddings)`. */
  function Added(entries: seq<Entry>, documentId: int, chunks: seq<ChunkInput>, embeddings: seq<seq<real>>): seq<Entry> {
    if chunks == [] || embeddings == [] || |chunks| != |embeddings| then entries
    else Inserted(entries, NewEntries(documentId, chunks, embeddings))
  }

  /** The entries of one document, in order. */
  function OfDocument(entries: seq<Entry>, documentId: int): (r: seq<Entry>)
    ensures forall k :: 0 <= k < |r| ==> r[k].metadata.documentId == documentId && r[k] in entries
    decreases |entries|
  {
    if entries == [] then []
    else
      var e := entries[|entries| - 1];
      OfDocument(entries[..|entries| - 1], documentId) + (if e.metadata.documentId == documentId then [e] else [])
  }

  /**
   * The records selected for a document are exactly that document's records, in their
   * stored order and each as often as it is stored.
   */
  lemma {:induction false} OfDocumentFilter(entries: seq<Entry>, documentId: int)
    ensures IsSubsequence(OfDocument(entries, documentId), entries)
    ensures forall e :: multiset(OfDocument(entries, documentId))[e]
                        == if e.metadata.documentId == documentId then multiset(entries)[e] else 0
    decreases |entries|
  {
    if entries != [] {
      var e := entries[|entries| - 1];
      var init := entries[..|entries| - 1];
      OfDocumentFilter(init, documentId);
      var r := OfDocument(init, documentId);
      var x := if e.metadata.documentId == documentId then [e] else [];
      SplitLast(entries);
      SubsequenceExtend(r, init, e, e.metadata.documentId == documentId);
      assert OfDocument(entries, documentId) == r + x;
      assert multiset(r + x) == multiset(r) + multiset(x);
      assert multiset(entries) == multiset(init) + multiset{e};
    }
  }

  /** Appending entries of one document leaves every other document's entries as they were. */
  lemma {:induction false} OfDocumentAppend(entries: seq<Entry>, extra: seq<Entry>, documentId: int)
    requires forall k :: 0 <= k < |extra| ==> extra[k].metadata.documentId != documentId
    ensures OfDocument(entries + extra, documentId) == OfDocument(entries, documentId)
    decreases |extra|
  {
    if extra != [] {
      var init := extra[..|extra| - 1];
      assert (entries + extra)[..|entries + extra| - 1] == entries + init;
      OfDocumentAppend(entries, init, documentId);
    } else {
      assert entries + extra == entries;
    }
  }

  /**
   * Adding chunks of document `d` stores exactly the new records whose ids are new, after
   * the records already stored, and leaves every other document's records unchanged.
   */
  lemma AddedIsolated(entries: seq<Entry>, d: int, chunks: seq<ChunkInput>, embeddings: seq<seq<real>>, other: int)
    requires UniqueIds(entries) && other != d
    ensures var r := Added(entries, d, chunks, embeddings);
      && UniqueIds(r) && |entries| <= |r| && r[..|entries|] == entries
      && (forall k :: |entries| <= k < |r| ==> r[k].metadata.documentId == d)
      && OfDocument(r, other) == OfDocument(entries, other)
  {
    var r := Added(entries, d, chunks, embeddings);
    if !(chunks == [] || embeddings == [] || |chunks| != |embeddings|) {
      var news := NewEntries(d, chunks, embeddings);
      InsertedProperties(entries, news);
      assert forall k :: |entries| <= k < |r| ==> r[k].metadata.documentId == d;
      assert r == entries + r[|entries|..];
      OfDocumentAppend(entries, r[|entries|..], other);
    }
  }

  // ----- Searching -----

  /** The `where` filter: a document id is applied only when it is truthy (present and non-zero). */
  function WhereFilter(documentId: Option<int>): (f: Option<int>)
    ensures f.Some? <==> documentId.Some? && documentId.value != 0
    ensures f.Some? ==> f == documentId
  {
    match documentId
    case Some(d) => if d != 0 then Some(d) else None
    case None => None
  }

  /** The entries a filter admits, in order. */
  function Matching(entries: seq<Entry>, filter: Option<int>): seq<Entry> {
    match filter
    case None => entries
    case Some(d) => OfDocument(entries, d)
  }

  /** A scored candidate: an entry and its distance to the query. */
  datatype Hit = Hit(entry: Entry, distance: real)

  function Hits(entries: seq<Entry>, query: seq<real>, distance: (seq<real>, seq<real>) -> real): (hs: seq<Hit>)
    ensures |hs| == |entries| && forall k :: 0 <= k < |entries| ==> hs[k] == Hit(entries[k], distance(query, entries[k].embedding))
  {
    seq(|entries|, k requires 0 <= k < |entries| => Hit(entries[k], distance(query, entries[k].embedding)))
  }

  predicate SortedByDistance(hs: seq<Hit>) {
    forall j, k :: 0 <= j < k < |hs| ==> hs[j].distance <= hs[k].distance
  }

  /** Inserts `h` after every hit at most as far, keeping equal distances in insertion order. */
  function InsertHit(sorted: seq<Hit>, h: Hit): seq<Hit>
    decreases |sorted|
  {
    if sorted == [] || sorted[|sorted| - 1].distance <= h.distance then sorted + [h]
    else InsertHit(sorted[..|sorted| - 1], h) + [sorted[|sorted| - 1]]
  }

  lemma {:induction false} InsertHitPermutes(sorted: seq<Hit>, h: Hit)
    ensures multiset(InsertHit(sorted, h)) == multiset(sorted) + multiset{h}
    decreases |sorted|
  {
    if !(sorted == [] || sorted[|sorted| - 1].distance <= h.distance) {
      var init := sorted[..|sorted| - 1];
      InsertHitPermutes(init, h);
      SplitLast(sorted);
    }
  }

  /** Every hit of an insertion is `h` or one of `sorted`, at least as far as `lo` when they all are. */
  lemma InsertHitBound(sorted: seq<Hit>, h: Hit, lo: real)
    requires forall k :: 0 <= k < |sorted| ==> lo <= sorted[k].distance
    requires lo <= h.distance
    ensures forall k :: 0 <= k < |InsertHit(sorted, h)| ==> lo <= InsertHit(sorted, h)[k].distance
  {
    var r := InsertHit(sorted, h);
    InsertHitPermutes(sorted, h);
    forall k | 0 <= k < |r| ensures lo <= r[k].distance {
      assert r[k] in multiset(r);
      assert r[k] in multiset(sorted) || r[k] == h;
    }
  }

  lemma {:induction false} InsertHitSorted(sorted: seq<Hit>, h: Hit)
    requires SortedByDistance(sorted)
    ensures SortedByDistance(InsertHit(sorted, h))
    decreases |sorted|
  {
    if !(sorted == [] || sorted[|sorted| - 1].distance <= h.distance) {
      var init := sorted[..|sorted| - 1];
      var last := sorted[|sorted| - 1];
      InsertHitSorted(init, h);
      var a := InsertHit(init, h);
      InsertHitPermutes(init, h);
      forall k | 0 <= k < |a| ensures a[k].distance <= last.distance {
        assert a[k] in multiset(a);
        assert a[k] in multiset(init) || a[k] == h;
      }
      assert forall j, k :: 0 <= j < k < |a + [last]| && k < |a| ==> (a + [last])[j] == a[j] && (a + [last])[k] == a[k];
    }
  }

  /** The hits nearest first (ties in insertion order). */
  function Rank(hs: seq<Hit>): (r: seq<Hit>)
    ensures SortedByDistance(r) && multiset(r) == multiset(hs)
    decreases |hs|
  {
    if hs == [] then []
    else
      var init := hs[..|hs| - 1];
      SplitLast(hs);
      InsertHitSorted(Rank(init), hs[|hs| - 1]);
      InsertHitPermutes(Rank(init), hs[|hs| - 1]);
      InsertHit(Rank(init), hs[|hs| - 1])
  }

  /** The collection's query: the `n` matching records nearest to the query embedding. */
  function Nearest(entries: seq<Entry>, query: seq<real>, filter: Option<int>, n: nat,
                   distance: (seq<real>, seq<real>) -> real): seq<Hit> {
    var ranked := Rank(Hits(Matching(entries, filter), query, distance));
    if |ranked| <= n then ranked else ranked[..n]
  }

  /** In a list sorted by distance, every hit after position `n` is at least as far as each one before it. */
  lemma SortedSplit(ranked: seq<Hit>, n: nat)
    requires SortedByDistance(ranked) && n <= |ranked|
    ensures forall x, y :: x in multiset(ranked[n..]) && y in ranked[..n] ==> y.distance <= x.distance
  {
    forall x, y | x in multiset(ranked[n..]) && y in ranked[..n] ensures y.distance <= x.distance {
      var i :| 0 <= i < |ranked[n..]| && ranked[n..][i] == x;
      var j :| 0 <= j < n && ranked[..n][j] == y;
      assert ranked[j] == y && ranked[n + i] == x;
    }
  }

  /** Taking the first `n` of a sorted permutation of `all` takes `n` of the nearest. */
  lemma TakeNearest(all: seq<Hit>, ranked: seq<Hit>, n: nat)
    requires SortedByDistance(ranked) && multiset(ranked) == multiset(all)
    ensures var top := if |ranked| <= n then ranked else ranked[..n];
      && |top| == (if |all| <= n then |all| else n)
      && SortedByDistance(top)
      && multiset(top) <= multiset(all)
      && (forall x, y :: x in multiset(all) - multiset(top) && y in top ==> y.distance <= x.distance)
  {
    assert |ranked| == |all| by {
      assert |multiset(ranked)| == |multiset(all)|;
    }
    if |ranked| > n {
      var top := ranked[..n];
      assert ranked == top + ranked[n..];
      assert multiset(ranked) == multiset(top) + multiset(ranked[n..]);
      assert multiset(all) - multiset(top) == multiset(ranked[n..]);
      SortedSplit(ranked, n);
    } else {
      assert multiset(all) - multiset(ranked) == multiset{};
    }
  }

  /**
   * The query returns `min(n, matches)` matching records, nearest first, and every
   * matching record it leaves out is at least as far as each one it returns.
   */
  lemma NearestIsTopN(entries: seq<Entry>, query: seq<real>, filter: Option<int>, n: nat,
                      distance: (seq<real>, seq<real>) -> real)
    ensures var all := Hits(Matching(entries, filter), query, distance);
      var top := Nearest(entries, query, filter, n, distance);
      && |top| == (if |all| <= n then |all| else n)
      && SortedByDistance(top)
      && multiset(top) <= multiset(all)
      && (forall x, y :: x in multiset(all) - multiset(top) && y in top ==> y.distance <= x.distance)
  {
    var all := Hits(Matching(entries, filter), query, distance);
    TakeNearest(all, Rank(all), n);
  }

  /** A result with no filter returns records of any document; a filter restricts to one. */
  lemma NearestMatchesFilter(entries: seq<Entry>, query: seq<real>, documentId: Option<int>, n: nat,
                             distance: (seq<real>, seq<real>) -> real)
    ensures var top := Nearest(entries, query, WhereFilter(documentId), n, distance);
      documentId.Some? && documentId.value != 0 ==>
        forall k :: 0 <= k < |top| ==> top[k].entry.metadata.documentId == documentId.value
  {
    var f := WhereFilter(documentId);
    if f.Some? {
      var all := Hits(Matching(entries, f), query, distance);
      var top := Nearest(entries, query, f, n, distance);
      NearestIsTopN(entries, query, f, n, distance);
      forall k | 0 <= k < |top| ensures top[k].entry.metadata.documentId == documentId.value {
        assert top[k] in multiset(all);
        var i :| 0 <= i < |all| && all[i] == top[k];
      }
    }
  }

  /** The parallel lists of the first query's results. */
  function Unzipped(hs: seq<Hit>): (r: SearchResult)
    ensures |r.documents| == |hs| && |r.metadatas| == |hs| && |r.distances| == |hs|
    ensures forall k :: 0 <= k < |hs| ==>
      r.documents[k] == hs[k].entry.document && r.metadatas[k] == hs[k].entry.metadata
      && r.distances[k] == hs[k].distance
  {
    SearchResult(
      seq(|hs|, k requires 0 <= k < |hs| => hs[k].entry.document),
      seq(|hs|, k requires 0 <= k < |hs| => hs[k].entry.metadata),
      seq(|hs|, k requires 0 <= k < |hs| => hs[k].distance))
  }

  // ----- Deleting -----

  /** The entries not belonging to a document, in order. */
  function WithoutDocument(entries: seq<Entry>, documentId: int): (r: seq<Entry>)
    ensures forall k :: 0 <= k < |r| ==> r[k].metadata.documentId != documentId && r[k] in entries
    decreases |entries|
  {
    if entries == [] then []
    else
      var e := entries[|entries| - 1];
      WithoutDocument(entries[..|entries| - 1], documentId) + (if e.metadata.documentId != documentId then [e] else [])
  }

  /** Deleting a document keeps every other document's entries, in order. */
  lemma {:induction false} DeleteKeepsOthers(entries: seq<Entry>, d: int, other: int)
    requires other != d
    ensures OfDocument(WithoutDocument(entries, d), other) == OfDocument(entries, other)
    decreases |entries|
  {
    if entries != [] {
      var init := entries[..|entries| - 1];
      var e := entries[|entries| - 1];
      DeleteKeepsOthers(init, d, other);
      var w := WithoutDocument(init, d);
      if e.metadata.documentId != d {
        assert (w + [e])[..|w|] == w;
      } else {
        assert w + [] == w;
        assert OfDocument(init, other) + [] == OfDocument(init, other);
      }
    }
  }

  /** After deleting a document none of its entries is left. */
  lemma {:induction false} DeleteRemovesAll(entries: seq<Entry>, d: int)
    ensures OfDocument(WithoutDocument(entries, d), d) == []
    decreases |entries|
  {
    if entries != [] {
      var init := entries[..|entries| - 1];
      var e := entries[|entries| - 1];
      DeleteRemovesAll(init, d);
      var w := WithoutDocument(init, d);
      if e.metadata.documentId != d {
        assert (w + [e])[..|w|] == w;
      } else {
        assert w + [] == w;
      }
    }
  }

  /** A document without entries has no record in the collection. */
  lemma {:induction false} OfDocumentEmpty(entries: seq<Entry>, d: int)
    requires OfDocument(entries, d) == []
    ensures forall k :: 0 <= k < |entries| ==> entries[k].metadata.documentId != d
    decreases |entries|
  {
    if entries != [] {
      var init := entries[..|entries| - 1];
      var e := entries[|entries| - 1];
      assert OfDocument(entries, d) == OfDocument(init, d) + (if e.metadata.documentId == d then [e] else []);
      OfDocumentEmpty(init, d);
      assert forall k :: 0 <= k < |init| ==> entries[k] == init[k];
    }
  }

  /** Deleting a document no record belongs to keeps every record. */
  lemma {:induction false} WithoutAbsentDocument(entries: seq<Entry>, d: int)
    requires forall k :: 0 <= k < |entries| ==> entries[k].metadata.documentId != d
    ensures WithoutDocument(entries, d) == entries
    decreases |entries|
  {
    if entries != [] {
      var init := entries[..|entries| - 1];
      var e := entries[|entries| - 1];
      assert forall k :: 0 <= k < |init| ==> init[k] == entries[k];
      WithoutAbsentDocument(init, d);
      assert WithoutDocument(entries, d) == WithoutDocument(init, d) + [e];
      SplitLast(entries);
    }
  }

  /** Deleting a document that has no entries leaves the collection as it is. */
  lemma DeleteAbsentIsNoOp(entries: seq<Entry>, d: int)
    requires OfDocument(entries, d) == []
    ensures WithoutDocument(entries, d) == entries
  {
    OfDocumentEmpty(entries, d);
    WithoutAbsentDocument(entries, d);
  }

  // ----- The store -----

  /** The collection behind `VectorStore`, as a sequence of records in insertion order. */
  class VectorStore {
    var entries: seq<Entry>

    /** No two stored records share an id. */
    ghost predicate Valid()
      reads this
    {
      UniqueIds(entries)
    }

    /** A store over an empty collection. */
    constructor ()
      ensures entries == [] && Valid()
    {
      entries := [];
    }

    /**
     * `add_chunks`: nothing happens when `chunks` or `embeddings` is empty; the collection
     * refuses a call with as many embeddings as chunks missing; otherwise chunk `i` is
     * stored as `doc_{documentId}_chunk_{i}` with its text, embedding and metadata.
     */
    method AddChunks(documentId: int, chunks: seq<ChunkInput>, embeddings: seq<seq<real>>)
      returns (rejected: bool)
      requires Valid()
      modifies this
      ensures Valid()
      ensures rejected == AddRejected(chunks, embeddings)
      ensures entries == Added(old(entries), documentId, chunks, embeddings)
    {
      rejected := false;
      if chunks == [] || embeddings == [] {
        return;
      }
      if |chunks| != |embeddings| {
        rejected := true;
        return;
      }
      var records := NewEntries(documentId, chunks, embeddings);
      InsertedProperties(entries, records);
      entries := Inserted(entries, records);
    }

    /**
     * `search_similar`: the `nResults` records nearest to `query` under `distance`,
     * restricted to `documentId` when it is truthy.
     */
    method SearchSimilar(query: seq<real>, documentId: Option<int>, nResults: nat,
                         distance: (seq<real>, seq<real>) -> real)
      returns (r: SearchResult)
      ensures r == Unzipped(Nearest(entries, query, WhereFilter(documentId), nResults, distance))
      ensures |r.documents| <= nResults
    {
      var filter := WhereFilter(documentId);
      var hits := Nearest(entries, query, filter, nResults, distance);
      r := Unzipped(hits);
    }

    /** `delete_document_chunks`: drops the records of `documentId`, if any. */
    method DeleteDocumentChunks(documentId: int)
      requires Valid()
      modifies this
      ensures Valid()
      ensures entries == WithoutDocument(old(entries), documentId)
    {
      var ids := OfDocument(entries, documentId);
      if ids != [] {
        WithoutDocumentUnique(entries, documentId);
        entries := WithoutDocument(entries, documentId);
      } else {
        DeleteAbsentIsNoOp(entries, documentId);
      }
    }
  }

  /** Deleting keeps ids unique. */
  lemma {:induction false} WithoutDocumentUnique(entries: seq<Entry>, d: int)
    requires UniqueIds(entries)
    ensures UniqueIds(WithoutDocument(entries, d))
    decreases |entries|
  {
    if entries != [] {
      var init := entries[..|entries| - 1];
      var e := entries[|entries| - 1];
      WithoutDocumentUnique(init, d);
      var w := WithoutDocument(init, d);
      assert forall k :: 0 <= k < |w| ==> w[k] in init;
      assert forall k :: 0 <= k < |init| ==> init[k].id != e.id;
    }
  }
}
