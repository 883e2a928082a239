/**
 * The deterministic helpers of `summarise_pipeline` in `summariser.py`: the batch-size
 * table, batch slicing, bullet-point extraction, the `summary_chunks` dictionary and its
 * record formatting, and the final join.
 *
 * The language model (`text_gen_pipeline`) enters as a function from prompt to generated
 * text: decoding is greedy (`do_sample=False`), so each prompt determines its output.
 * The text splitter and the GPU memory query are not part of this model; their results
 * are parameters.
 */
module Summariser {
  import opened Wrappers
  import opened Text
  import opened Ranking

  /** The marker that precedes the model's answer in every summarisation prompt. */
  const Marker: string := "BULLET POINT SUMMARY:"

  /** `extract_bullet_points`: the stripped text after the first marker, or the whole text stripped. */
  function ExtractBulletPoints(text: string): (r: string)
    ensures IsStripped(r, IsPySpace)
    ensures IndexOf(text, Marker).None? ==> IsStripOf(r, text, IsPySpace)
    ensures IndexOf(text, Marker).Some? ==>
      IsStripOf(r, text[IndexOf(text, Marker).value + |Marker|..], IsPySpace)
  {
    if Contains(text, Marker) then
      var (head, _, remainder) := Partition(text, Marker);
      assert IndexOf(text, Marker) == Some(|head|) by {
        var i := IndexOf(text, Marker).value;
        assert !(i < |head|);
        assert !(|head| < i);
      }
      assert remainder == text[|head| + |Marker|..];
      StripSpec(remainder);
      Strip(remainder)
    else
      StripSpec(text);
      Strip(text)
  }

  /** Without the marker, extraction is plain stripping, and stripping again changes nothing. */
  lemma ExtractWithoutMarker(text: string)
    requires !Contains(text, Marker)
    ensures ExtractBulletPoints(text) == Strip(text)
    ensures ExtractBulletPoints(ExtractBulletPoints(text)) == ExtractBulletPoints(text)
  {
    StripSpec(text);
    StripContains(Strip(text), text, Marker, IsPySpace);
    StripIdempotent(text, IsPySpace);
  }

  /**
   * `get_optimal_batch_size`: 2 without CUDA; with CUDA 16, 8 or 4 as the free device
   * memory in bytes exceeds 10e9, exceeds 6e9, or does not.
   */
  function OptimalBatchSize(cuda: bool, freeMemory: int): (size: nat)
    ensures size == 2 || size == 4 || size == 8 || size == 16
    ensures !cuda ==> size == 2
    ensures cuda ==> 4 <= size
    ensures cuda && freeMemory > 10_000_000_000 ==> size == 16
    ensures cuda && 6_000_000_000 < freeMemory <= 10_000_000_000 ==> size == 8
    ensures cuda && freeMemory <= 6_000_000_000 ==> size == 4
  {
    if cuda then
      if freeMemory > 10_000_000_000 then 16
      else if freeMemory > 6_000_000_000 then 8
      else 4
    else 2
  }

  /** More free memory never gives a smaller batch. */
  lemma BatchSizeMonotone(cuda: bool, m1: int, m2: int)
    requires m1 <= m2
    ensures OptimalBatchSize(cuda, m1) <= OptimalBatchSize(cuda, m2)
  {
  }

  /** The sequences of `xss` laid end to end. */
  function Flatten<T>(xss: seq<seq<T>>): seq<T> {
    if |xss| == 0 then [] else xss[0] + Flatten(xss[1..])
  }

  /** The batches `xs[i : i + size]` for `i` in `range(from, len(xs), size)`. */
  function BatchesFrom<T>(xs: seq<T>, size: nat, from: nat): (r: seq<seq<T>>)
    requires size > 0
    ensures from >= |xs| <==> r == []
    decreases |xs| - from
  {
    if from >= |xs| then []
    else [xs[from..Min(from + size, |xs|)]] + BatchesFrom(xs, size, from + size)
  }

  /** The batches of `batch_summarize_chunks`. */
  function Batches<T>(xs: seq<T>, size: nat): seq<seq<T>>
    requires size > 0
  {
    BatchesFrom(xs, size, 0)
  }

  /** Batch `k` is the slice starting `k` steps of `size` after `from`. */
  lemma {:induction false} BatchesFromIndex<T>(xs: seq<T>, size: nat, from: nat, k: nat)
    requires size > 0 && k < |BatchesFrom(xs, size, from)|
    ensures from + k * size < |xs|
    ensures BatchesFrom(xs, size, from)[k] == xs[from + k * size..Min(from + k * size + size, |xs|)]
    decreases k
  {
    if k > 0 {
      BatchesFromIndex(xs, size, from + size, k - 1);
      assert from + k * size == from + size + (k - 1) * size;
    }
  }

  /** Batch `k` of the prompts is `prompts[k * size : k * size + size]`, as the loop over `range(0, n, size)` slices it. */
  lemma BatchesIndex<T>(xs: seq<T>, size: nat)
    requires size > 0
    ensures forall k :: 0 <= k < |Batches(xs, size)| ==>
      k * size < |xs| && Batches(xs, size)[k] == xs[k * size..Min(k * size + size, |xs|)]
  {
    forall k | 0 <= k < |Batches(xs, size)|
      ensures k * size < |xs| && Batches(xs, size)[k] == xs[k * size..Min(k * size + size, |xs|)]
    {
      BatchesFromIndex(xs, size, 0, k);
    }
  }

  /** There are `ceil(n / size)` batches, and every batch holds between 1 and `size` items. */
  lemma {:induction false} BatchesFromShape<T>(xs: seq<T>, size: nat, from: nat)
    requires size > 0 && from <= |xs|
    ensures |BatchesFrom(xs, size, from)| == (|xs| - from + size - 1) / size
    ensures forall k :: 0 <= k < |BatchesFrom(xs, size, from)| ==> 0 < |BatchesFrom(xs, size, from)[k]| <= size
    decreases |xs| - from
  {
    var r := BatchesFrom(xs, size, from);
    if from + size >= |xs| {
      if from < |xs| {
        assert |r| == 1 by {
          assert BatchesFrom(xs, size, from + size) == [];
        }
        assert (|xs| - from + size - 1) / size == 1 by {
          assert size <= |xs| - from + size - 1 < 2 * size;
        }
      } else {
        assert (size - 1) / size == 0;
      }
    } else {
      BatchesFromShape(xs, size, from + size);
      var n := |xs| - from - size + size - 1;
      assert (n + size) / size == n / size + 1 by {
        DivShift(n, size);
      }
    }
  }

  /** Adding the divisor to a non-negative numerator adds one to the quotient. */
  lemma DivShift(n: nat, d: nat)
    requires d > 0
    ensures (n + d) / d == n / d + 1
  {
    var q, m := n / d, n % d;
    var q1, m1 := (n + d) / d, (n + d) % d;
    assert d * q1 + m1 == d * q + m + d;
    var x := q1 - q - 1;
    assert d * x == m - m1 by {
      assert d * x == d * q1 - d * q - d;
    }
  }

  /** The batches laid end to end give back the prompts, so none is lost, repeated or reordered. */
  lemma {:induction false} BatchesFromFlatten<T>(xs: seq<T>, size: nat, from: nat)
    requires size > 0 && from <= |xs|
    ensures Flatten(BatchesFrom(xs, size, from)) == xs[from..]
    decreases |xs| - from
  {
    if from < |xs| {
      var next := Min(from + size, |xs|);
      if next < |xs| {
        BatchesFromFlatten(xs, size, next);
      } else {
        assert BatchesFrom(xs, size, next) == [];
      }
      assert xs[from..next] + xs[next..] == xs[from..];
    }
  }

  /** The batch partition of the prompts, as `batch_summarize_chunks` walks it. */
  lemma BatchesPartition<T>(xs: seq<T>, size: nat)
    requires size > 0
    ensures |Batches(xs, size)| == (|xs| + size - 1) / size
    ensures forall k :: 0 <= k < |Batches(xs, size)| ==> 0 < |Batches(xs, size)[k]| <= size
    ensures Flatten(Batches(xs, size)) == xs
  {
    BatchesFromShape(xs, size, 0);
    BatchesFromFlatten(xs, size, 0);
  }

  /**
   * `batch_summarize_chunks`: runs the model batch by batch and collects one generated
   * text per prompt.
   */
  method SummarizeInBatches(prompts: seq<string>, size: nat, generate: string -> string)
    returns (results: seq<string>)
    requires size > 0
    ensures |results| == |prompts|
    ensures forall k :: 0 <= k < |prompts| ==> results[k] == generate(prompts[k])
  {
    results := [];
    var i := 0;
    while i < |prompts|
      invariant i == |results| <= |prompts|
      invariant forall k :: 0 <= k < i ==> results[k] == generate(prompts[k])
      decreases |prompts| - i
    {
      var batch := prompts[i..Min(i + size, |prompts|)];
      var j := 0;
      while j < |batch|
        invariant 0 <= j <= |batch|
        invariant |results| == i + j
        invariant forall k :: 0 <= k < i + j ==> results[k] == generate(prompts[k])
      {
        results := results + [generate(batch[j])];
        j := j + 1;
      }
      i := i + |batch|;
    }
  }

  /** One key and value of the `summary_chunks` dictionary. */
  datatype Entry = Entry(chunk: string, summary: string)

  /** The slot of `chunk` in the dictionary, if it is a key. */
  function Slot(d: seq<Entry>, chunk: string): (r: Option<nat>)
    ensures r.Some? ==> r.value < |d| && d[r.value].chunk == chunk
    ensures r.None? ==> forall k :: 0 <= k < |d| ==> d[k].chunk != chunk
  {
    if |d| == 0 then None
    else if d[|d| - 1].chunk == chunk then Some(|d| - 1)
    else Slot(d[..|d| - 1], chunk)
  }

  /** Assigning `d[chunk] = summary` in a Python dictionary: an existing key keeps its slot, a new key goes last. */
  function Assign(d: seq<Entry>, chunk: string, summary: string): seq<Entry>
  {
    match Slot(d, chunk)
    case Some(i) => d[i := Entry(chunk, summary)]
    case None => d + [Entry(chunk, summary)]
  }

  /** The dictionary comprehension `{chunks[i]: summaries[i] for i in range(n)}`. */
  function ChunkDict(chunks: seq<string>, summaries: seq<string>, n: nat): seq<Entry>
    requires n <= |chunks| && n <= |summaries|
  {
    if n == 0 then [] else Assign(ChunkDict(chunks, summaries, n - 1), chunks[n - 1], summaries[n - 1])
  }

  /** The keys of `d`, in dictionary order. */
  function Keys(d: seq<Entry>): (r: seq<string>)
    ensures |r| == |d|
  {
    seq(|d|, k requires 0 <= k < |d| => d[k].chunk)
  }

  /** Reference: the distinct elements of `xs` in order of first appearance. */
  function Distinct(xs: seq<string>): seq<string> {
    if |xs| == 0 then []
    else
      var init := Distinct(xs[..|xs| - 1]);
      if xs[|xs| - 1] in init then init else init + [xs[|xs| - 1]]
  }

  /** Reference: the summary paired with the last occurrence of `chunk` among the first `n` chunks. */
  function LastValue(chunks: seq<string>, summaries: seq<string>, n: nat, chunk: string): string
    requires n <= |chunks| && n <= |summaries|
  {
    if n == 0 then ""
    else if chunks[n - 1] == chunk then summaries[n - 1]
    else LastValue(chunks, summaries, n - 1, chunk)
  }

  /** The dictionary agrees with the reference: first-seen key order, last value wins. */
  ghost predicate DictMatches(d: seq<Entry>, chunks: seq<string>, summaries: seq<string>, n: nat)
    requires n <= |chunks| && n <= |summaries|
  {
    && Keys(d) == Distinct(chunks[..n])
    && forall k :: 0 <= k < |d| ==> d[k].summary == LastValue(chunks, summaries, n, d[k].chunk)
  }

  /** No key occurs twice. */
  predicate UniqueKeys(d: seq<Entry>) {
    forall i, j :: 0 <= i < j < |d| ==> d[i].chunk != d[j].chunk
  }

  /** `Assign` overwrites the value of an existing key in place and appends a new key. */
  lemma AssignSpec(d: seq<Entry>, chunk: string, summary: string)
    requires UniqueKeys(d)
    ensures var r := Assign(d, chunk, summary);
      && Keys(r) == (if chunk in Keys(d) then Keys(d) else Keys(d) + [chunk])
      && (forall k :: 0 <= k < |d| ==> r[k].summary == if d[k].chunk == chunk then summary else d[k].summary)
      && (chunk !in Keys(d) ==> r[|d|].summary == summary)
  {
    var r := Assign(d, chunk, summary);
    match Slot(d, chunk)
    case Some(i) =>
      assert Keys(d)[i] == chunk;
      assert Keys(r) == Keys(d);
    case None =>
      assert chunk !in Keys(d);
      assert Keys(r) == Keys(d) + [chunk];
  }

  /** The keys of the comprehension are the distinct chunks in order of first appearance. */
  lemma {:induction false} ChunkDictKeys(chunks: seq<string>, summaries: seq<string>, n: nat)
    requires n <= |chunks| && n <= |summaries|
    ensures Keys(ChunkDict(chunks, summaries, n)) == Distinct(chunks[..n])
    ensures UniqueKeys(ChunkDict(chunks, summaries, n))
  {
    var d := ChunkDict(chunks, summaries, n);
    if n > 0 {
      var prev := ChunkDict(chunks, summaries, n - 1);
      ChunkDictKeys(chunks, summaries, n - 1);
      AssignSpec(prev, chunks[n - 1], summaries[n - 1]);
      var c := chunks[n - 1];
      var before := Distinct(chunks[..n - 1]);
      assert chunks[..n][..n - 1] == chunks[..n - 1];
      assert Distinct(chunks[..n]) == if c in before then before else before + [c];
    }
    assert UniqueKeys(d) by {
      DistinctNoDup(chunks[..n]);
      forall i, j | 0 <= i < j < |d| ensures d[i].chunk != d[j].chunk {
        assert Keys(d)[i] == d[i].chunk && Keys(d)[j] == d[j].chunk;
      }
    }
  }

  /** Each key of the comprehension carries the summary of the key's last appearance. */
  lemma {:induction false} ChunkDictValues(chunks: seq<string>, summaries: seq<string>, n: nat)
    requires n <= |chunks| && n <= |summaries|
    ensures var d := ChunkDict(chunks, summaries, n);
      forall k :: 0 <= k < |d| ==> d[k].summary == LastValue(chunks, summaries, n, d[k].chunk)
  {
    if n > 0 {
      var prev := ChunkDict(chunks, summaries, n - 1);
      var d := ChunkDict(chunks, summaries, n);
      ChunkDictValues(chunks, summaries, n - 1);
      ChunkDictKeys(chunks, summaries, n - 1);
      AssignSpec(prev, chunks[n - 1], summaries[n - 1]);
      forall k | 0 <= k < |d| ensures d[k].summary == LastValue(chunks, summaries, n, d[k].chunk) {
        assert Keys(d)[k] == d[k].chunk;
        if k < |prev| {
          assert Keys(prev)[k] == prev[k].chunk;
          assert d[k].chunk == prev[k].chunk;
          assert prev[k].summary == LastValue(chunks, summaries, n - 1, prev[k].chunk);
        } else {
          assert d[k].chunk == chunks[n - 1];
        }
      }
    }
  }

  /** The comprehension builds exactly the reference dictionary. */
  lemma ChunkDictMatches(chunks: seq<string>, summaries: seq<string>, n: nat)
    requires n <= |chunks| && n <= |summaries|
    ensures DictMatches(ChunkDict(chunks, summaries, n), chunks, summaries, n)
  {
    ChunkDictKeys(chunks, summaries, n);
    ChunkDictValues(chunks, summaries, n);
  }

  /** `Distinct` lists no element twice. */
  lemma {:induction false} DistinctNoDup(xs: seq<string>)
    ensures forall i, j :: 0 <= i < j < |Distinct(xs)| ==> Distinct(xs)[i] != Distinct(xs)[j]
  {
    if |xs| > 0 {
      DistinctNoDup(xs[..|xs| - 1]);
    }
  }

  /** `Distinct` lists every element of its input and nothing else. */
  lemma {:induction false} DistinctElements(xs: seq<string>)
    ensures forall x :: x in Distinct(xs) <==> x in xs
  {
    if |xs| > 0 {
      DistinctElements(xs[..|xs| - 1]);
      assert xs == xs[..|xs| - 1] + [xs[|xs| - 1]];
    }
  }

  /** The record `"Transcript: {chunk}\nSummary: {summary}"`. */
  function ChunkRecord(chunk: string, summary: string): (r: string)
    ensures |r| == |"Transcript: "| + |chunk| + |"\nSummary: "| + |summary|
    ensures OccursAt(r, chunk, |"Transcript: "|)
    ensures r[..|"Transcript: "|] == "Transcript: "
    ensures OccursAt(r, "\nSummary: ", |"Transcript: "| + |chunk|)
    ensures r[|r| - |summary|..] == summary
  {
    var r := "Transcript: " + chunk + "\nSummary: " + summary;
    assert r[|"Transcript: "|..|"Transcript: "| + |chunk|] == chunk;
    assert r[|"Transcript: "| + |chunk|..|"Transcript: "| + |chunk| + |"\nSummary: "|] == "\nSummary: ";
    r
  }

  /**
   * The `summary_chunks` list `summarise_pipeline` returns: one record per distinct chunk
   * text, in order of first appearance, carrying the summary of its last appearance.
   */
  function SummaryRecords(chunks: seq<string>, summaries: seq<string>): (r: seq<string>)
    requires |chunks| <= |summaries|
    ensures |r| == |Distinct(chunks)|
    ensures forall k :: 0 <= k < |r| ==>
      r[k] == ChunkRecord(Distinct(chunks)[k], LastValue(chunks, summaries, |chunks|, Distinct(chunks)[k]))
  {
    var d := ChunkDict(chunks, summaries, |chunks|);
    ChunkDictMatches(chunks, summaries, |chunks|);
    assert chunks[..|chunks|] == chunks;
    assert forall k :: 0 <= k < |d| ==> d[k].chunk == Keys(d)[k];
    seq(|d|, k requires 0 <= k < |d| => ChunkRecord(d[k].chunk, d[k].summary))
  }

  /** Every chunk of the input has its record, carrying the summary of its last appearance. */
  lemma SummaryRecordsCover(chunks: seq<string>, summaries: seq<string>, c: string)
    requires |chunks| <= |summaries|
    requires c in chunks
    ensures ChunkRecord(c, LastValue(chunks, summaries, |chunks|, c)) in SummaryRecords(chunks, summaries)
  {
    DistinctElements(chunks);
    var k :| 0 <= k < |Distinct(chunks)| && Distinct(chunks)[k] == c;
    assert SummaryRecords(chunks, summaries)[k] == ChunkRecord(c, LastValue(chunks, summaries, |chunks|, c));
  }

  /** `"\n".join(final_summaries_clean).strip()`. */
  function FinalSummary(cleaned: seq<string>): (r: string)
    ensures IsStripOf(r, Join(cleaned, "\n"), IsPySpace)
  {
    StripSpec(Join(cleaned, "\n"));
    Strip(Join(cleaned, "\n"))
  }

  /** The first character of a join is the first character of its first piece. */
  lemma JoinHead(xs: seq<string>, sep: string)
    requires |xs| > 0 && |xs[0]| > 0
    ensures |Join(xs, sep)| > 0 && Join(xs, sep)[0] == xs[0][0]
  {
  }

  /** The last character of a join is the last character of its last piece. */
  lemma {:induction false} JoinTail(xs: seq<string>, sep: string)
    requires |xs| > 0 && |xs[|xs| - 1]| > 0
    ensures var j := Join(xs, sep); |j| > 0 && j[|j| - 1] == xs[|xs| - 1][|xs[|xs| - 1]| - 1]
    decreases |xs|
  {
    if |xs| > 1 {
      JoinTail(xs[1..], sep);
      assert xs[1..][|xs[1..]| - 1] == xs[|xs| - 1];
    }
  }

  /**
   * When the cleaned summaries are stripped (as `extract_bullet_points` leaves them) and the
   * first and last are non-empty, the final `strip()` removes nothing.
   */
  lemma FinalSummaryIsJoin(cleaned: seq<string>)
    requires |cleaned| > 0 && cleaned[0] != "" && cleaned[|cleaned| - 1] != ""
    requires forall k :: 0 <= k < |cleaned| ==> IsStripped(cleaned[k], IsPySpace)
    ensures FinalSummary(cleaned) == Join(cleaned, "\n")
  {
    JoinOfStrippedEnds(cleaned, "\n");
    StrippedIsOwnStrip(Join(cleaned, "\n"), IsPySpace);
  }

  /** A join whose outer pieces are non-empty and stripped is itself stripped. */
  lemma JoinOfStrippedEnds(xs: seq<string>, sep: string)
    requires |xs| > 0 && xs[0] != "" && xs[|xs| - 1] != ""
    requires IsStripped(xs[0], IsPySpace) && IsStripped(xs[|xs| - 1], IsPySpace)
    ensures IsStripped(Join(xs, sep), IsPySpace)
  {
    JoinHead(xs, sep);
    JoinTail(xs, sep);
  }

  /** No string that begins with a non-whitespace character strips to nothing. */
  lemma NotBlankWhenHeadKept(s: string)
    requires |s| > 0 && !IsPySpace(s[0])
    ensures Strip(s) != ""
  {
    StripSpec(s);
  }

  /** Every chunk record survives the blank-chunk filter of `store_embeddings`. */
  lemma RecordNotBlank(chunk: string, summary: string)
    ensures Strip(ChunkRecord(chunk, summary)) != ""
  {
    var r := ChunkRecord(chunk, summary);
    assert r[0] == r[..|"Transcript: "|][0] == 'T';
    NotBlankWhenHeadKept(r);
  }

  /** The prompt template of the first stage, one per transcript chunk. */
  const ChunkPromptHead: string := "Summarize the following text in concise bullet points. \nReturn ONLY the bullet points without repeating the text:\n\nTEXT:\n"

  /** The prompt template of the second stage, one per piece of the combined summary. */
  const FinalPromptHead: string := "Summarize the following text in concise bullet points.\nReturn ONLY the bullet points without repeating the text:\n\nTEXT:\n"

  /** A summarisation prompt: the template head, the text, then the marker on its own line. */
  function Prompt(head: string, text: string): string {
    head + text + "\n\n" + Marker + "\n"
  }

  /** The model's greedy output for each prompt, in prompt order. */
  function GenerateAll(prompts: seq<string>, generate: string -> string): (r: seq<string>)
    ensures |r| == |prompts|
  {
    seq(|prompts|, k requires 0 <= k < |prompts| => generate(prompts[k]))
  }

  /** `batch_summarize_chunks` returns the same outputs whatever the batch size. */
  method SummarizeAnyBatchSize(prompts: seq<string>, size: nat, generate: string -> string)
    returns (results: seq<string>)
    requires size > 0
    ensures results == GenerateAll(prompts, generate)
  {
    results := SummarizeInBatches(prompts, size, generate);
  }

  /** `extract_bullet_points` over every output. */
  function CleanAll(outputs: seq<string>): (r: seq<string>)
    ensures |r| == |outputs|
    ensures forall k :: 0 <= k < |r| ==> IsStripped(r[k], IsPySpace)
  {
    seq(|outputs|, k requires 0 <= k < |outputs| => ExtractBulletPoints(outputs[k]))
  }

  /** The two-stage result of `summarise_pipeline`. */
  datatype Summarised = Summarised(finalSummary: string, records: seq<string>)

  /**
   * `summarise_pipeline(transcript)`. The text splitters of the two stages enter as
   * `splitChunks` and `splitFinal`, the model as `generate`.
   */
  function SummarisePipeline(transcript: string, splitChunks: string -> seq<string>,
                             splitFinal: string -> seq<string>, generate: string -> string): (r: Summarised)
    ensures IsStripped(r.finalSummary, IsPySpace)
    ensures |r.records| == |Distinct(splitChunks(transcript))|
    ensures forall k :: 0 <= k < |r.records| ==> Strip(r.records[k]) != ""
  {
    var docs := splitChunks(transcript);
    var cleaned := CleanAll(GenerateAll(seq(|docs|, k requires 0 <= k < |docs| => Prompt(ChunkPromptHead, docs[k])), generate));
    var finalDocs := splitFinal(Join(cleaned, "\n"));
    var finalCleaned := CleanAll(GenerateAll(seq(|finalDocs|, k requires 0 <= k < |finalDocs| => Prompt(FinalPromptHead, finalDocs[k])), generate));
    var records := SummaryRecords(docs, cleaned);
    assert forall k :: 0 <= k < |records| ==> Strip(records[k]) != "" by {
      forall k | 0 <= k < |records| ensures Strip(records[k]) != "" {
        var chunk := Distinct(docs)[k];
        RecordNotBlank(chunk, LastValue(docs, cleaned, |docs|, chunk));
      }
    }
    Summarised(FinalSummary(finalCleaned), records)
  }
}
