/**
 * `rag_pipeline.py`: the embedding writer `store_embeddings` and the hybrid retriever
 * `retrieve`.
 *
 * The sentence encoder, the FAISS search and BM25 scoring are outside the model. What
 * `retrieve` takes from them enters as two plain sequences: the first row of the
 * similarity matrix FAISS returns for the query (`similarities[0]`) and the BM25 score
 * vector (`bm25_scores_raw`).
 */
module RagPipeline {
  import opened Wrappers
  import opened Text
  import opened Ranking
  import opened MeetingStore

  /** One element of the `summary_chunks` argument: a Python `str` or any other object. */
  datatype PyValue = PyStr(s: string) | PyOther

  /** The `summary_chunks` argument: a Python list, or an object of another type. */
  datatype ChunksArg = PyList(items: seq<PyValue>) | NotAList

  /** One record of `retrieve`'s result: `{"meeting_id", "context", "score"}`. */
  datatype Hit = Hit(meetingId: int, context: string, score: real)

  /** The exception `retrieve` lets escape. */
  datatype RetrieveError = TypeError

  /** A chunk `store_embeddings` keeps: a `str` whose `strip()` is non-empty. */
  predicate IsUsableChunk(v: PyValue) {
    v.PyStr? && Strip(v.s) != ""
  }

  /** `[str(c) for c in summary_chunks if isinstance(c, str) and c.strip()]`. */
  function UsableChunks(items: seq<PyValue>): (r: seq<string>)
    ensures |r| <= |items|
  {
    if |items| == 0 then []
    else
      var last := items[|items| - 1];
      UsableChunks(items[..|items| - 1]) + (if IsUsableChunk(last) then [last.s] else [])
  }

  /** The filter keeps exactly the usable strings: each kept one comes from the list, and none is lost. */
  lemma UsableChunksMembers(items: seq<PyValue>)
    ensures forall k :: 0 <= k < |UsableChunks(items)| ==> Strip(UsableChunks(items)[k]) != ""
    ensures forall k :: 0 <= k < |UsableChunks(items)| ==> PyStr(UsableChunks(items)[k]) in items
    ensures forall k :: 0 <= k < |items| && IsUsableChunk(items[k]) ==> items[k].s in UsableChunks(items)
  {
    UsableChunksSound(items);
    UsableChunksComplete(items);
  }

  /** Every kept chunk is a usable string of the list. */
  lemma {:induction false} UsableChunksSound(items: seq<PyValue>)
    ensures forall k :: 0 <= k < |UsableChunks(items)| ==> Strip(UsableChunks(items)[k]) != ""
    ensures forall k :: 0 <= k < |UsableChunks(items)| ==> PyStr(UsableChunks(items)[k]) in items
  {
    if |items| > 0 {
      var init := items[..|items| - 1];
      var last := items[|items| - 1];
      var prev := UsableChunks(init);
      var r := UsableChunks(items);
      UsableChunksSound(init);
      assert r == prev + (if IsUsableChunk(last) then [last.s] else []);
      forall k | 0 <= k < |r| ensures Strip(r[k]) != "" && PyStr(r[k]) in items {
        if k < |prev| {
          assert r[k] == prev[k];
          assert PyStr(prev[k]) in init;
          var j :| 0 <= j < |init| && init[j] == PyStr(prev[k]);
          assert items[j] == init[j];
        } else {
          assert items[|items| - 1] == PyStr(r[k]);
        }
      }
    }
  }

  /** Every usable string of the list is kept. */
  lemma {:induction false} UsableChunksComplete(items: seq<PyValue>)
    ensures forall k :: 0 <= k < |items| && IsUsableChunk(items[k]) ==> items[k].s in UsableChunks(items)
  {
    if |items| > 0 {
      var init := items[..|items| - 1];
      var last := items[|items| - 1];
      var prev := UsableChunks(init);
      var r := UsableChunks(items);
      UsableChunksComplete(init);
      assert r == prev + (if IsUsableChunk(last) then [last.s] else []);
      forall k | 0 <= k < |items| && IsUsableChunk(items[k]) ensures items[k].s in r {
        if k < |items| - 1 {
          assert init[k] == items[k];
          assert items[k].s in prev;
        } else {
          assert r[|r| - 1] == items[k].s;
        }
      }
    }
  }

  /** The filter keeps order: it maps a concatenation to the concatenation of its results. */
  lemma {:induction false} UsableChunksConcat(a: seq<PyValue>, b: seq<PyValue>)
    ensures UsableChunks(a + b) == UsableChunks(a) + UsableChunks(b)
    decreases |b|
  {
    if |b| == 0 {
      assert a + b == a;
    } else {
      var b' := b[..|b| - 1];
      assert (a + b)[..|a + b| - 1] == a + b';
      UsableChunksConcat(a, b');
    }
  }

  /** The filter on one element: kept exactly when it is usable. */
  lemma UsableChunksSingle(v: PyValue)
    ensures UsableChunks([v]) == if IsUsableChunk(v) then [v.s] else []
  {
    assert [v][..0] == [];
  }

  /** A list of Python strings. */
  function AsPyStrings(xs: seq<string>): (r: seq<PyValue>)
    ensures |r| == |xs|
    ensures forall k :: 0 <= k < |xs| ==> r[k] == PyStr(xs[k])
  {
    seq(|xs|, k requires 0 <= k < |xs| => PyStr(xs[k]))
  }

  /** A list of strings none of which is blank passes the filter unchanged. */
  lemma {:induction false} AllUsable(xs: seq<string>)
    requires forall k :: 0 <= k < |xs| ==> Strip(xs[k]) != ""
    ensures UsableChunks(AsPyStrings(xs)) == xs
  {
    if |xs| > 0 {
      var init := xs[..|xs| - 1];
      assert AsPyStrings(xs)[..|xs| - 1] == AsPyStrings(init);
      AllUsable(init);
      assert xs == init + [xs[|xs| - 1]];
    }
  }

  /**
   * `store_embeddings`: embeds the usable chunks and replaces the meeting's embedding row.
   * A missing, empty or non-list argument, or one with no usable chunk, changes nothing.
   */
  function StoreEmbeddings(st: Store, id: int, chunks: ChunksArg): (st': Store)
    ensures chunks.NotAList? ==> st' == st
    ensures chunks.PyList? && UsableChunks(chunks.items) == [] ==> st' == st
    ensures chunks.PyList? && UsableChunks(chunks.items) != [] ==>
      st' == st.(embeddings := st.embeddings[id := EmbeddingRow(UsableChunks(chunks.items))])
    ensures st'.meetings == st.meetings && st'.chats == st.chats && st'.nextId == st.nextId
    ensures forall other :: other != id ==>
      (other in st'.embeddings <==> other in st.embeddings)
      && (other in st.embeddings ==> st'.embeddings[other] == st.embeddings[other])
  {
    match chunks
    case NotAList => st
    case PyList(items) =>
      if |items| == 0 then st
      else
        var texts := UsableChunks(items);
        if |texts| == 0 then st
        else st.(embeddings := st.embeddings[id := EmbeddingRow(texts)])
  }

  /** `dense_scores[idx]`: the FAISS similarity at position `idx` of the returned row, or 0 past its end. */
  function DenseAt(similarities: seq<real>, idx: nat): real {
    if idx < |similarities| then similarities[idx] else 0.0
  }

  /** `bm25_scores[idx]`: the BM25 score of passage `idx`, or 0 past the end of the score vector. */
  function SparseAt(bm25: seq<real>, idx: nat): real {
    if idx < |bm25| then bm25[idx] else 0.0
  }

  /** `combined_scores`: one unweighted sum of the two signals per passage index. */
  function Fuse(similarities: seq<real>, bm25: seq<real>, n: nat): (c: seq<real>)
    ensures |c| == n
  {
    seq(n, idx requires 0 <= idx < n => DenseAt(similarities, idx) + SparseAt(bm25, idx))
  }

  /** `h` is the record of some passage of `chunks`, carrying that passage's fused score. */
  ghost predicate DrawnFrom(h: Hit, chunks: seq<string>, similarities: seq<real>, bm25: seq<real>) {
    exists idx :: 0 <= idx < |chunks| && h.context == chunks[idx]
      && h.score == DenseAt(similarities, idx) + SparseAt(bm25, idx)
  }

  /** The records `final_results` builds for the ranked passage indices `order`. */
  function HitsFor(id: int, chunks: seq<string>, scores: seq<real>, order: seq<nat>): (r: seq<Hit>)
    requires |scores| == |chunks|
    requires forall k :: 0 <= k < |order| ==> order[k] < |chunks|
    ensures |r| == |order|
    ensures forall k :: 0 <= k < |r| ==>
      r[k].meetingId == id && r[k].context == chunks[order[k]] && r[k].score == scores[order[k]]
  {
    seq(|order|, k requires 0 <= k < |order| => Hit(id, chunks[order[k]], scores[order[k]]))
  }

  /**
   * `retrieve(query, meeting_id, top_k)`. The query reaches the result only through
   * `similarities` (FAISS) and `bm25` (BM25Okapi), which are given.
   */
  function Retrieve(st: Store, id: int, topK: nat, similarities: seq<real>, bm25: seq<real>)
    : (r: Result<seq<Hit>, RetrieveError>)
    ensures id !in st.embeddings ==> r == Success([])
    ensures id !in st.meetings ==> r == Success([])
    ensures id in st.meetings && st.meetings[id].chunks.JsonNonList? ==> r == Success([])
    ensures r.Failure? <==> id in st.embeddings && id in st.meetings && st.meetings[id].chunks.Null?
    ensures r.Success? ==> |r.value| <= topK
    ensures id in st.embeddings && id in st.meetings && st.meetings[id].chunks.JsonList? ==>
      var chunks := st.meetings[id].chunks.items;
      && r.Success?
      && |r.value| == Min(topK, |chunks|)
      && (forall k :: 0 <= k < |r.value| ==> r.value[k].meetingId == id)
      && (forall k :: 0 <= k < |r.value| ==> DrawnFrom(r.value[k], chunks, similarities, bm25))
      && (forall i, j :: 0 <= i < j < |r.value| ==> r.value[i].score >= r.value[j].score)
  {
    match LoadEmbeddings(st, id)
    case None => Success([])
    case Some(_) =>
      if id !in st.meetings then Success([])
      else
        match st.meetings[id].chunks
        case Null => Failure(TypeError)
        case JsonNonList => Success([])
        case JsonList(chunks) =>
          var scores := Fuse(similarities, bm25, |chunks|);
          var order := TopK(scores, topK);
          var hits := HitsFor(id, chunks, scores, order);
          assert forall k :: 0 <= k < |hits| ==> DrawnFrom(hits[k], chunks, similarities, bm25) by {
            forall k | 0 <= k < |hits| ensures DrawnFrom(hits[k], chunks, similarities, bm25) {
              var idx := order[k];
              assert hits[k].context == chunks[idx];
            }
          }
          assert forall i, j :: 0 <= i < j < |hits| ==> hits[i].score >= hits[j].score by {
            forall i, j | 0 <= i < j < |hits| ensures hits[i].score >= hits[j].score {
              assert Ahead(scores, order[i], order[j]);
            }
          }
          Success(hits)
  }

  /**
   * The ranked records of `retrieve` are those of the top-`topK` prefix of the fused
   * ranking, whose order puts the higher combined score first and, on a tie, the lower
   * passage index first.
   */
  lemma RetrieveFollowsRanking(st: Store, id: int, topK: nat, similarities: seq<real>, bm25: seq<real>)
    requires id in st.embeddings && id in st.meetings && st.meetings[id].chunks.JsonList?
    ensures var chunks := st.meetings[id].chunks.items;
      var scores := Fuse(similarities, bm25, |chunks|);
      var order := TopK(scores, topK);
      && Retrieve(st, id, topK, similarities, bm25) == Success(HitsFor(id, chunks, scores, order))
      && (forall i, j :: 0 <= i < j < |order| && scores[order[i]] == scores[order[j]] ==> order[i] < order[j])
      && (forall a, b: nat :: a in order && b < |chunks| && b !in order ==> Ahead(scores, a, b))
  {
    var chunks := st.meetings[id].chunks.items;
    var scores := Fuse(similarities, bm25, |chunks|);
    var order := TopK(scores, topK);
    forall i, j | 0 <= i < j < |order| && scores[order[i]] == scores[order[j]]
      ensures order[i] < order[j]
    {
      assert Ahead(scores, order[i], order[j]);
    }
  }

  /** Once a meeting is deleted, retrieval for it yields no passages. */
  lemma RetrieveAfterDelete(st: Store, id: int, topK: nat, similarities: seq<real>, bm25: seq<real>)
    ensures Retrieve(DeleteMeeting(st, id), id, topK, similarities, bm25) == Success([])
  {
  }

  /** Fusion on two passages: dense (0.9, 0.1) and sparse (0.0, 0.5) give (0.9, 0.6), ranked 0 then 1. */
  lemma FusionExample()
    ensures Fuse([0.9, 0.1], [0.0, 0.5], 2) == [0.9, 0.6]
    ensures TopK([0.9, 0.6], 2) == [0, 1]
  {
    var scores := [0.9, 0.6];
    RankIsUnique(scores, [0, 1]);
  }

  /** Blank chunks are dropped before embedding: only `"valid text"` gets a row. */
  lemma EmptyChunksFiltered(st: Store)
    ensures StoreEmbeddings(st, 1, PyList([PyStr(""), PyStr("  "), PyStr("valid text")])).embeddings
      == st.embeddings[1 := EmbeddingRow(["valid text"])]
  {
    var items := [PyStr(""), PyStr("  "), PyStr("valid text")];
    assert Strip("") == "";
    assert Strip("  ") == "";
    StrippedIsOwnStrip("valid text", IsPySpace);
    UsableChunksSingle(items[0]);
    UsableChunksSingle(items[1]);
    UsableChunksSingle(items[2]);
    UsableChunksConcat([items[0]], [items[1]]);
    UsableChunksConcat([items[0], items[1]], [items[2]]);
    assert [items[0]] + [items[1]] == items[..2];
    assert items[..2] + [items[2]] == items;
  }
}
