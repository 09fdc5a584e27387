/** `DocumentSummarizer` of Backend/src/document_summarization.py: the
    character chunker, the map-then-reduce summary over an LLM, and the two
    parsers that turn the LLM's text into lists. */
module DocumentSummarization {
  import opened Values
  import opened PyText

  /** `self.llm.generate_response(prompt, max_tokens=...)`: a model whose
      definition is not part of this one, taken as a function. */
  type Llm = (string, int) -> string

  /** One call made to the model. */
  datatype Call = Call(prompt: string, maxTokens: int)

  // ------------------------------------------------------------ chunking

  /** The characters `_chunk_text` accepts as a sentence or paragraph end. */
  const Boundaries: string := ".!?\n"

  /** How far past the nominal end of a chunk the boundary search looks. */
  const SearchWidth: nat := 100

  /** The index of the first boundary in `text[from:to]`. */
  function FirstBoundary(text: string, from: nat, to: nat): (r: Option<nat>)
    requires from <= to <= |text|
    ensures r.Some? ==> from <= r.value < to
    decreases (to as int) - (from as int)
  {
    if from == to then None
    else if text[from] in Boundaries then Some(from)
    else FirstBoundary(text, from + 1, to)
  }

  /** Where the boundary search for a chunk starting at `start` stops:
      100 characters past the nominal end, or the end of the text. */
  function SearchEnd(text: string, start: nat, maxChunkSize: nat): nat {
    var nominal := start + maxChunkSize;
    if nominal + SearchWidth <= |text| then nominal + SearchWidth else |text|
  }

  /** The end of the chunk starting at `start`: `start + max_chunk_size`,
      moved to just past the first boundary among the next 100 characters
      when the text goes on. */
  function ChunkEnd(text: string, start: nat, maxChunkSize: nat): (e: nat)
    ensures start + maxChunkSize <= e <= start + maxChunkSize + SearchWidth
  {
    var nominal := start + maxChunkSize;
    if nominal < |text| then
      match FirstBoundary(text, nominal, SearchEnd(text, start, maxChunkSize))
      case Some(b) => b + 1
      case None => nominal
    else nominal
  }

  /** The stripped window `text[start:end]`. */
  function Window(text: string, start: nat, maxChunkSize: nat): string {
    Strip(Slice(text, start, ChunkEnd(text, start, maxChunkSize)))
  }

  /** A window is kept only when something is left after stripping. */
  function Kept(chunk: string): seq<string> {
    if chunk != [] then [chunk] else []
  }

  /** `next` moves every start forward. */
  ghost predicate Advances(next: nat -> nat) {
    forall s: nat :: next(s) > s
  }

  /** What a window loop over `n` positions collects from `start` on: the
      pieces of the starts it visits, each start followed by `next` of it. */
  function Walk<T>(n: nat, start: nat, next: nat -> nat, piece: nat -> seq<T>): seq<T>
    requires Advances(next)
    decreases n - start
  {
    if start >= n then [] else piece(start) + Walk(n, next(start), next, piece)
  }

  /** The next window starts `overlap` characters before the end of this
      one, so starts advance by at least `max_chunk_size - overlap` and at
      most 100 characters more. */
  function NextStart(text: string, maxChunkSize: nat, overlap: nat): (next: nat -> nat)
    requires overlap < maxChunkSize
    ensures forall s: nat :: s + (maxChunkSize - overlap) <= next(s) <= s + (maxChunkSize - overlap) + SearchWidth
    ensures Advances(next)
  {
    (s: nat) => ChunkEnd(text, s, maxChunkSize) - overlap
  }

  /** The chunk a window contributes. */
  function Piece(text: string, maxChunkSize: nat): nat -> seq<string> {
    (s: nat) => Kept(Window(text, s, maxChunkSize))
  }

  /** The chunks `_chunk_text` produces from `start` on. */
  function ChunksFrom(text: string, start: nat, maxChunkSize: nat, overlap: nat): seq<string>
    requires overlap < maxChunkSize
  {
    Walk(|text|, start, NextStart(text, maxChunkSize, overlap), Piece(text, maxChunkSize))
  }

  /** `_chunk_text(text, max_chunk_size, overlap)` */
  function CharChunks(text: string, maxChunkSize: nat, overlap: nat): seq<string>
    requires overlap < maxChunkSize
  {
    ChunksFrom(text, 0, maxChunkSize, overlap)
  }

  /** `_chunk_text`: the window loop with its boundary search. */
  method ChunkText(text: string, maxChunkSize: nat, overlap: nat) returns (chunks: seq<string>)
    requires overlap < maxChunkSize
    ensures chunks == CharChunks(text, maxChunkSize, overlap)
  {
    chunks := [];
    var start: nat := 0;
    ghost var next := NextStart(text, maxChunkSize, overlap);
    ghost var piece := Piece(text, maxChunkSize);
    ghost var all := Walk(|text|, 0, next, piece);
    while start < |text|
      invariant all == chunks + Walk(|text|, start, next, piece)
      decreases |text| - start
    {
      var end := FindChunkEnd(text, start, maxChunkSize);
      var chunk := Strip(Slice(text, start, end));
      WalkRound(all, chunks, |text|, start, next, piece);
      ghost var before := chunks;
      if chunk != [] {
        chunks := chunks + [chunk];
        assert piece(start) == [chunk];
      } else {
        assert piece(start) == [];
        assert chunks == before + [];
      }
      var nextStart := end - overlap;
      assert nextStart == next(start);
      start := nextStart;
      if start >= |text| {
        break;
      }
    }
  }

  /** The boundary search of `_chunk_text` for the chunk starting at `start`. */
  method FindChunkEnd(text: string, start: nat, maxChunkSize: nat) returns (end: nat)
    ensures end == ChunkEnd(text, start, maxChunkSize)
  {
    end := start + maxChunkSize;
    if end < |text| {
      var nominal := end;
      var limit := if SearchWidth < |text| - nominal then SearchWidth else |text| - nominal;
      assert nominal + limit == SearchEnd(text, start, maxChunkSize);
      for i := 0 to limit
        invariant end == nominal
        invariant forall k :: nominal <= k < nominal + i ==> text[k] !in Boundaries
      {
        if text[nominal + i] in Boundaries {
          BoundaryAt(text, nominal, nominal + limit, nominal + i);
          end := nominal + i + 1;
          break;
        }
      }
      if end == nominal {
        NoBoundary(text, nominal, nominal + limit);
      }
    }
  }

  /** One round of a window loop, as its invariant sees it. */
  lemma WalkRound<T>(all: seq<T>, done: seq<T>, n: nat, start: nat, next: nat -> nat, piece: nat -> seq<T>)
    requires Advances(next) && start < n
    requires all == done + Walk(n, start, next, piece)
    ensures all == (done + piece(start)) + Walk(n, next(start), next, piece)
  {
    var rest := Walk(n, next(start), next, piece);
    assert Walk(n, start, next, piece) == piece(start) + rest;
    assert done + (piece(start) + rest) == (done + piece(start)) + rest;
  }

  /** `ChunksFrom` unfolded once. */
  lemma ChunksStep(text: string, start: nat, maxChunkSize: nat, overlap: nat)
    requires overlap < maxChunkSize && start < |text|
    ensures ChunksFrom(text, start, maxChunkSize, overlap)
            == Kept(Window(text, start, maxChunkSize))
               + ChunksFrom(text, ChunkEnd(text, start, maxChunkSize) - overlap, maxChunkSize, overlap)
  {
  }

  /** The search meets its first boundary at `b`. */
  lemma {:induction false} BoundaryAt(text: string, from: nat, to: nat, b: nat)
    requires from <= b < to <= |text|
    requires text[b] in Boundaries
    requires forall k :: from <= k < b ==> text[k] !in Boundaries
    ensures FirstBoundary(text, from, to) == Some(b)
    decreases b - from
  {
    if from < b {
      BoundaryAt(text, from + 1, to, b);
    }
  }

  /** The search runs out without a boundary. */
  lemma {:induction false} NoBoundary(text: string, from: nat, to: nat)
    requires from <= to <= |text|
    requires forall k :: from <= k < to ==> text[k] !in Boundaries
    ensures FirstBoundary(text, from, to) == None
    decreases (to as int) - (from as int)
  {
    if from < to {
      NoBoundary(text, from + 1, to);
    }
  }

  /** The first boundary is a boundary with none before it, and no answer
      means none in the whole range. */
  lemma {:induction false} FirstBoundarySpec(text: string, from: nat, to: nat)
    requires from <= to <= |text|
    ensures var r := FirstBoundary(text, from, to);
            r.Some? ==> text[r.value] in Boundaries
                        && forall k :: from <= k < r.value ==> text[k] !in Boundaries
    ensures var r := FirstBoundary(text, from, to);
            r.None? ==> forall k :: from <= k < to ==> text[k] !in Boundaries
    decreases (to as int) - (from as int)
  {
    if from < to && text[from] !in Boundaries {
      FirstBoundarySpec(text, from + 1, to);
    }
  }

  /** A chunk's end lies between `max_chunk_size` and `max_chunk_size + 100`
      characters after its start.  It moves past the nominal end exactly
      when one of the next 100 characters (as far as the text goes) is a
      boundary, and then to just after the first one. */
  lemma ChunkEndSpec(text: string, start: nat, maxChunkSize: nat)
    ensures var nominal := start + maxChunkSize;
            var e := ChunkEnd(text, start, maxChunkSize);
            nominal <= e <= nominal + SearchWidth
            && (e > nominal ==>
                  e <= |text| && text[e - 1] in Boundaries
                  && forall k :: nominal <= k < e - 1 ==> text[k] !in Boundaries)
            && (e == nominal ==>
                  forall k :: nominal <= k < |text| && k < nominal + SearchWidth ==> text[k] !in Boundaries)
  {
    var nominal := start + maxChunkSize;
    if nominal < |text| {
      FirstBoundarySpec(text, nominal, SearchEnd(text, start, maxChunkSize));
    }
  }

  /** A window, once stripped, is left alone by another strip. */
  lemma WindowStripped(text: string, start: nat, maxChunkSize: nat)
    ensures Strip(Window(text, start, maxChunkSize)) == Window(text, start, maxChunkSize)
  {
    StripIdempotent(Slice(text, start, ChunkEnd(text, start, maxChunkSize)));
  }

  /** `c` is a non-empty stripped window of a start in `[start, |text|)`. */
  ghost predicate WindowAfter(text: string, start: nat, maxChunkSize: nat, c: string) {
    c != [] && exists s: nat :: start <= s < |text| && c == Window(text, s, maxChunkSize)
  }

  /** `x` comes from the piece of some start in `[start, n)`. */
  ghost predicate FromPiece<T>(n: nat, start: nat, piece: nat -> seq<T>, x: T) {
    exists s: nat :: start <= s < n && x in piece(s)
  }

  /** Everything a walk collects comes from the piece of a start it visits. */
  lemma {:induction false} WalkFromPieces<T>(n: nat, start: nat, next: nat -> nat, piece: nat -> seq<T>)
    requires Advances(next)
    ensures forall x :: x in Walk(n, start, next, piece) ==> FromPiece(n, start, piece, x)
    decreases n - start
  {
    if start < n {
      assert next(start) > start;
      WalkFromPieces(n, next(start), next, piece);
      forall x | x in Walk(n, start, next, piece) ensures FromPiece(n, start, piece, x) {
        if x !in piece(start) {
          assert x in Walk(n, next(start), next, piece);
          var s: nat :| next(start) <= s < n && x in piece(s);
          assert start <= s;
        }
      }
    }
  }

  /** Every chunk is non-empty and is the stripped window of a start the
      loop visits, at or after `start` and inside the text. */
  lemma ChunksAreWindows(text: string, start: nat, maxChunkSize: nat, overlap: nat)
    requires overlap < maxChunkSize
    ensures forall c :: c in ChunksFrom(text, start, maxChunkSize, overlap) ==>
              WindowAfter(text, start, maxChunkSize, c)
  {
    var piece := Piece(text, maxChunkSize);
    WalkFromPieces(|text|, start, NextStart(text, maxChunkSize, overlap), piece);
    forall c | c in ChunksFrom(text, start, maxChunkSize, overlap)
      ensures WindowAfter(text, start, maxChunkSize, c)
    {
      var s: nat :| start <= s < |text| && c in piece(s);
      assert c in Kept(Window(text, s, maxChunkSize));
    }
  }

  /** Every chunk is a non-empty, stripped text. */
  lemma ChunksClean(text: string, maxChunkSize: nat, overlap: nat)
    requires overlap < maxChunkSize
    ensures forall c :: c in CharChunks(text, maxChunkSize, overlap) ==> c != [] && Strip(c) == c
  {
    ChunksAreWindows(text, 0, maxChunkSize, overlap);
    forall c | c in CharChunks(text, maxChunkSize, overlap) ensures Strip(c) == c {
      var s: nat :| s < |text| && c == Window(text, s, maxChunkSize);
      WindowStripped(text, s, maxChunkSize);
    }
  }

  /** A window holds at most `max_chunk_size + 100` characters. */
  lemma WindowSize(text: string, s: nat, maxChunkSize: nat)
    ensures |Window(text, s, maxChunkSize)| <= maxChunkSize + SearchWidth
  {
    SliceWithin(text, s, ChunkEnd(text, s, maxChunkSize));
  }

  /** Every window of blank text strips to nothing. */
  lemma BlankWindow(text: string, start: nat, maxChunkSize: nat)
    requires IsBlank(text)
    ensures Window(text, start, maxChunkSize) == []
  {
    var w := Slice(text, start, ChunkEnd(text, start, maxChunkSize));
    forall k | 0 <= k < |w| ensures IsSpace(w[k]) {
      assert w[k] == text[SliceBound(|text|, start) + k];
    }
    StripEmptyIffBlank(w);
  }

  /** Blank text gives no chunk. */
  lemma {:induction false} BlankTextNoChunks(text: string, start: nat, maxChunkSize: nat, overlap: nat)
    requires overlap < maxChunkSize
    requires IsBlank(text)
    ensures ChunksFrom(text, start, maxChunkSize, overlap) == []
    decreases |text| - start
  {
    if start < |text| {
      var next := ChunkEnd(text, start, maxChunkSize) - overlap;
      assert start < next;
      BlankTextNoChunks(text, next, maxChunkSize, overlap);
      BlankWindow(text, start, maxChunkSize);
      ChunksStep(text, start, maxChunkSize, overlap);
    }
  }


  // ------------------------------------------------------------ summaries

  const NoTextMessage: string := "No text content found to summarize."

  /* The fixed text around each prompt's input, kept in constants so that
     proofs see a prompt as a whole. */
  const SummaryIntro: string := "Summarize the following text clearly and concisely, focusing on the main ideas, key concepts, and important information:\n\n"
  const SummaryOutro: string := "\n\nProvide a comprehensive summary that captures the essential points."
  const FinalIntro: string := "Create a comprehensive and coherent summary from these partial summaries. Organize the information logically and ensure all important concepts are included:\n\n"
  const FinalOutro: string := "\n\nProvide a well-structured final summary."

  /** The prompt of `_summarize_chunk`. */
  function ChunkPrompt(chunk: string): string {
    SummaryIntro + chunk + SummaryOutro
  }

  /** The prompt of `_create_final_summary`. */
  function FinalPrompt(combined: string): string {
    FinalIntro + combined + FinalOutro
  }

  /** `_summarize_chunk` and `_create_final_summary`: the model's answer to
      a prompt, stripped. */
  function Answer(llm: Llm, prompt: string, maxTokens: int): string {
    Strip(llm(prompt, maxTokens))
  }

  /** The default overlap `summarize_text` chunks with. */
  const Overlap: nat := 200

  /** The inputs for which `summarize_text` ends: blank or short text, or a
      chunk size above the chunker's overlap. */
  predicate SummaryEnds(text: string, maxChunkSize: int) {
    Strip(text) == [] || |text| <= maxChunkSize || Overlap < maxChunkSize
  }

  /** What the reduce step receives: the joined summaries, cut to the chunk size. */
  function FinalInput(combined: string, maxChunkSize: nat): (r: string)
    ensures |r| <= maxChunkSize
  {
    if |combined| <= maxChunkSize then combined else combined[..maxChunkSize]
  }

  /** A run of `summarize_text`: the summary and the model calls in order. */
  datatype Run = Run(summary: string, calls: seq<Call>)

  /** The summaries of the map step, stripped once more as the loop does. */
  function ChunkSummaries(llm: Llm, chunks: seq<string>, maxTokens: int): seq<string>
    decreases |chunks|
  {
    if chunks == [] then []
    else ChunkSummaries(llm, chunks[..|chunks| - 1], maxTokens)
         + [Strip(Answer(llm, ChunkPrompt(chunks[|chunks| - 1]), maxTokens))]
  }

  /** The calls of the map step. */
  function ChunkCalls(chunks: seq<string>, maxTokens: int): seq<Call>
    decreases |chunks|
  {
    if chunks == [] then []
    else ChunkCalls(chunks[..|chunks| - 1], maxTokens) + [Call(ChunkPrompt(chunks[|chunks| - 1]), maxTokens)]
  }

  /** `summarize_text(text, max_chunk_size, max_tokens)` */
  function Summary(llm: Llm, text: string, maxChunkSize: int, maxTokens: int): Run
    requires SummaryEnds(text, maxChunkSize)
  {
    if Strip(text) == [] then Run(NoTextMessage, [])
    else if |text| <= maxChunkSize then
      Run(Answer(llm, ChunkPrompt(text), maxTokens), [Call(ChunkPrompt(text), maxTokens)])
    else MapReduce(llm, text, maxChunkSize, maxTokens)
  }

  /** The long-text branch of `summarize_text`: summarize each chunk with
      half the token budget (Python's `//`, which for a divisor of 2 agrees
      with Dafny's `/`), then summarize their joined summaries. */
  function MapReduce(llm: Llm, text: string, maxChunkSize: nat, maxTokens: int): Run
    requires Overlap < maxChunkSize
  {
    var chunks := CharChunks(text, maxChunkSize, Overlap);
    var finalText := FinalInput(Join(ChunkSummaries(llm, chunks, maxTokens / 2), "\n"), maxChunkSize);
    Run(Answer(llm, FinalPrompt(finalText), maxTokens),
        ChunkCalls(chunks, maxTokens / 2) + [Call(FinalPrompt(finalText), maxTokens)])
  }

  /** `summarize_text`: blank and short text first, then the map loop over
      the chunks and the reduce call. */
  method SummarizeText(llm: Llm, text: string, maxChunkSize: int, maxTokens: int) returns (summary: string, calls: seq<Call>)
    requires SummaryEnds(text, maxChunkSize)
    ensures Run(summary, calls) == Summary(llm, text, maxChunkSize, maxTokens)
  {
    if Strip(text) == [] {
      return NoTextMessage, [];
    }
    if |text| <= maxChunkSize {
      summary := Answer(llm, ChunkPrompt(text), maxTokens);
      calls := [Call(ChunkPrompt(text), maxTokens)];
      return;
    }
    var chunks := ChunkText(text, maxChunkSize, Overlap);
    var summaries;
    summaries, calls := SummarizeChunks(llm, chunks, maxTokens / 2);
    var combined := Join(summaries, "\n");
    var finalText := if |combined| <= maxChunkSize then combined else combined[..maxChunkSize];
    summary := Answer(llm, FinalPrompt(finalText), maxTokens);
    calls := calls + [Call(FinalPrompt(finalText), maxTokens)];
  }

  /** The map loop of `summarize_text`. */
  method SummarizeChunks(llm: Llm, chunks: seq<string>, maxTokens: int) returns (summaries: seq<string>, calls: seq<Call>)
    ensures summaries == ChunkSummaries(llm, chunks, maxTokens)
    ensures calls == ChunkCalls(chunks, maxTokens)
  {
    summaries, calls := [], [];
    for i := 0 to |chunks|
      invariant summaries == ChunkSummaries(llm, chunks[..i], maxTokens)
      invariant calls == ChunkCalls(chunks[..i], maxTokens)
    {
      assert chunks[..i + 1][..i] == chunks[..i];
      var summary := Answer(llm, ChunkPrompt(chunks[i]), maxTokens);
      calls := calls + [Call(ChunkPrompt(chunks[i]), maxTokens)];
      summaries := summaries + [Strip(summary)];
    }
    assert chunks[..|chunks|] == chunks;
  }

  /** Call `i` of the map step summarizes chunk `i`. */
  lemma {:induction false} ChunkCallsAt(chunks: seq<string>, maxTokens: int)
    ensures |ChunkCalls(chunks, maxTokens)| == |chunks|
    ensures forall i :: 0 <= i < |chunks| ==> ChunkCalls(chunks, maxTokens)[i] == Call(ChunkPrompt(chunks[i]), maxTokens)
    decreases |chunks|
  {
    if chunks != [] {
      var init := chunks[..|chunks| - 1];
      ChunkCallsAt(init, maxTokens);
      forall i | 0 <= i < |init| ensures init[i] == chunks[i] { }
    }
  }

  /** Blank text is answered with the fixed message, without calling the model. */
  lemma BlankTextNotSummarized(llm: Llm, text: string, maxChunkSize: int, maxTokens: int)
    requires IsBlank(text)
    ensures SummaryEnds(text, maxChunkSize)
    ensures Summary(llm, text, maxChunkSize, maxTokens) == Run(NoTextMessage, [])
  {
    StripEmptyIffBlank(text);
  }

  /** Text that fits in one chunk is summarized by exactly one call on the
      whole text, with the full token budget. */
  lemma ShortTextOneCall(llm: Llm, text: string, maxChunkSize: int, maxTokens: int)
    requires !IsBlank(text) && |text| <= maxChunkSize
    ensures SummaryEnds(text, maxChunkSize)
    ensures Summary(llm, text, maxChunkSize, maxTokens)
            == Run(Strip(llm(ChunkPrompt(text), maxTokens)), [Call(ChunkPrompt(text), maxTokens)])
  {
    StripEmptyIffBlank(text);
  }

  /** Longer text costs one call per chunk, each on that chunk with half the
      token budget rounded down, then one final call on at most
      `max_chunk_size` characters with the full budget; the summary is
      that call's answer. */
  lemma LongTextMapReduce(llm: Llm, text: string, maxChunkSize: int, maxTokens: int)
    requires !IsBlank(text) && |text| > maxChunkSize && Overlap < maxChunkSize
    ensures SummaryEnds(text, maxChunkSize)
    ensures var run := Summary(llm, text, maxChunkSize, maxTokens);
            var chunks := CharChunks(text, maxChunkSize, Overlap);
            |run.calls| == |chunks| + 1
            && (forall i :: 0 <= i < |chunks| ==>
                  run.calls[i].prompt == ChunkPrompt(chunks[i])
                  && 2 * run.calls[i].maxTokens <= maxTokens < 2 * run.calls[i].maxTokens + 2)
            && exists finalText: string :: |finalText| <= maxChunkSize
                 && run.calls[|chunks|] == Call(FinalPrompt(finalText), maxTokens)
                 && run.summary == Strip(llm(FinalPrompt(finalText), maxTokens))
  {
    StripEmptyIffBlank(text);
    MapReduceCalls(llm, text, maxChunkSize, maxTokens);
  }

  /** The calls of the long-text branch. */
  lemma MapReduceCalls(llm: Llm, text: string, maxChunkSize: nat, maxTokens: int)
    requires Overlap < maxChunkSize
    ensures var run := MapReduce(llm, text, maxChunkSize, maxTokens);
            var chunks := CharChunks(text, maxChunkSize, Overlap);
            |run.calls| == |chunks| + 1
            && (forall i :: 0 <= i < |chunks| ==>
                  run.calls[i].prompt == ChunkPrompt(chunks[i])
                  && 2 * run.calls[i].maxTokens <= maxTokens < 2 * run.calls[i].maxTokens + 2)
            && exists finalText: string :: |finalText| <= maxChunkSize
                 && run.calls[|chunks|] == Call(FinalPrompt(finalText), maxTokens)
                 && run.summary == Strip(llm(FinalPrompt(finalText), maxTokens))
  {
    var chunks := CharChunks(text, maxChunkSize, Overlap);
    var half := maxTokens / 2;
    var finalText := FinalInput(Join(ChunkSummaries(llm, chunks, half), "\n"), maxChunkSize);
    var mapCalls := ChunkCalls(chunks, half);
    ChunkCallsAt(chunks, half);
    var run := MapReduce(llm, text, maxChunkSize, maxTokens);
    assert run.calls == mapCalls + [Call(FinalPrompt(finalText), maxTokens)];
    assert run.calls[|chunks|] == Call(FinalPrompt(finalText), maxTokens);
  }

  // ------------------------------------------------------------ parsers

  /** The mark of a bulleted line, which the concept parser skips. */
  const DashPrefix: string := "-"

  /** The characters `extract_key_concepts` strips from the front of a line. */
  const NumberingChars: string := "0123456789.- "

  /** A response line the concept parser keeps: not blank, not a dash
      item, and something left after the numbering. */
  predicate IsConceptLine(line: string) {
    var t := Strip(line);
    t != [] && !StartsWith(t, DashPrefix) && LStripChars(t, NumberingChars) != []
  }

  function ConceptText(line: string): string {
    LStripChars(Strip(line), NumberingChars)
  }

  /** `extract_key_concepts` after the model call: every kept line, cut to `max_concepts`. */
  function Concepts(response: string, maxConcepts: int): seq<string> {
    Slice(FilterMap(Split(response, '\n'), IsConceptLineFn(), ConceptTextFn()), 0, maxConcepts)
  }

  function IsConceptLineFn(): string -> bool {
    line => IsConceptLine(line)
  }

  function ConceptTextFn(): string -> string {
    line => ConceptText(line)
  }

  /** The line loop of `extract_key_concepts`. */
  method ParseConcepts(response: string, maxConcepts: int) returns (concepts: seq<string>)
    ensures concepts == Concepts(response, maxConcepts)
  {
    var lines := Split(response, '\n');
    var kept: seq<string> := [];
    ghost var keep, text := IsConceptLineFn(), ConceptTextFn();
    for i := 0 to |lines|
      invariant kept == FilterMap(lines[..i], keep, text)
    {
      assert lines[..i + 1] == lines[..i] + [lines[i]];
      FilterMapSnoc(lines[..i], lines[i], keep, text);
      var line := Strip(lines[i]);
      if line != [] && !StartsWith(line, DashPrefix) {
        line := LStripChars(line, NumberingChars);
        if line != [] {
          assert keep(lines[i]) && text(lines[i]) == line;
          kept := kept + [line];
        } else {
          assert !keep(lines[i]);
        }
      } else {
        assert !keep(lines[i]);
      }
    }
    assert lines[..|lines|] == lines;
    concepts := Slice(kept, 0, maxConcepts);
  }

  const ConceptIntro: string := "Analyze the following text and extract the "
  const ConceptMiddle: string := " most important concepts, topics, or themes that would be suitable for creating quiz questions:\n\n"
  const ConceptOutro: string := "\n\nList each concept on a separate line, focusing on:\n- Key definitions and terminology\n- Important facts and figures\n- Main processes or procedures\n- Critical relationships between ideas\n- Fundamental principles or theories"

  /** The prompt of `extract_key_concepts`. */
  function ConceptPrompt(text: string, maxConcepts: int): string {
    ConceptIntro + IntToString(maxConcepts) + ConceptMiddle + text + ConceptOutro
  }

  /** `extract_key_concepts(text, max_concepts)` */
  method ExtractKeyConcepts(llm: Llm, text: string, maxConcepts: int) returns (concepts: seq<string>)
    ensures concepts == Concepts(llm(ConceptPrompt(text, maxConcepts), 300), maxConcepts)
  {
    var response := llm(ConceptPrompt(text, maxConcepts), 300);
    concepts := ParseConcepts(response, maxConcepts);
  }

  /** The first `max_concepts` concepts the response holds, or all of them
      when there are fewer, each taken from a response line in line order: a line that, stripped, is not blank and does not start
      with '-', with its leading digits, dots, dashes and spaces removed,
      and never empty. */
  lemma ConceptsSpec(response: string, maxConcepts: int)
    ensures var lines := Split(response, '\n');
            var pos := KeptPositions(lines, IsConceptLineFn());
            var cs := Concepts(response, maxConcepts);
            (0 <= maxConcepts ==> |cs| <= maxConcepts)
            && |cs| <= |pos|
            && (forall k :: 0 <= k < |cs| ==>
                  pos[k] < |lines| && cs[k] == LStripChars(Strip(lines[pos[k]]), NumberingChars)
                  && Strip(lines[pos[k]]) != [] && !StartsWith(Strip(lines[pos[k]]), DashPrefix)
                  && cs[k] != [] && cs[k][0] !in NumberingChars)
            && (forall k, l :: 0 <= k < l < |cs| ==> pos[k] < pos[l])
            && (forall p :: 0 <= p < |lines| && IsConceptLine(lines[p]) ==> p in pos)
            && (0 <= maxConcepts ==> |cs| == if maxConcepts < |pos| then maxConcepts else |pos|)
  {
    var lines := Split(response, '\n');
    var all := FilterMap(lines, IsConceptLineFn(), ConceptTextFn());
    FilterMapAt(lines, IsConceptLineFn(), ConceptTextFn());
    var cs := Concepts(response, maxConcepts);
    assert |cs| <= |all| && forall k :: 0 <= k < |cs| ==> cs[k] == all[k];
    if 0 <= maxConcepts {
      SliceWithin(all, 0, maxConcepts);
    }
    forall k | 0 <= k < |cs| ensures cs[k] != [] && cs[k][0] !in NumberingChars {
      LStripCharsShape(Strip(lines[KeptPositions(lines, IsConceptLineFn())[k]]), NumberingChars);
    }
  }

  /** The phrase a learning objective mentions, in any letter case. */
  const WillBeAbleTo: string := "will be able to"
  /** The word a learning objective may start with instead. */
  const StudentsWord: string := "Students"

  /** A line the objectives parser keeps. */
  predicate IsObjectiveLine(line: string) {
    var t := Strip(line);
    t != [] && (Contains(Lower(t), WillBeAbleTo) || StartsWith(t, StudentsWord))
  }

  function IsObjectiveLineFn(): string -> bool {
    line => IsObjectiveLine(line)
  }

  function StripFn(): string -> string {
    line => Strip(line)
  }

  /** `generate_learning_objectives` after the model call. */
  function Objectives(response: string, maxObjectives: int): seq<string> {
    Slice(FilterMap(Split(response, '\n'), IsObjectiveLineFn(), StripFn()), 0, maxObjectives)
  }

  /** The line loop of `generate_learning_objectives`. */
  method ParseObjectives(response: string, maxObjectives: int) returns (objectives: seq<string>)
    ensures objectives == Objectives(response, maxObjectives)
  {
    var lines := Split(response, '\n');
    var kept: seq<string> := [];
    ghost var keep, strip := IsObjectiveLineFn(), StripFn();
    for i := 0 to |lines|
      invariant kept == FilterMap(lines[..i], keep, strip)
    {
      assert lines[..i + 1] == lines[..i] + [lines[i]];
      FilterMapSnoc(lines[..i], lines[i], keep, strip);
      var line := Strip(lines[i]);
      if line != [] && (Contains(Lower(line), WillBeAbleTo) || StartsWith(line, StudentsWord)) {
        assert keep(lines[i]) && strip(lines[i]) == line;
        kept := kept + [line];
      } else {
        assert !keep(lines[i]);
      }
    }
    assert lines[..|lines|] == lines;
    objectives := Slice(kept, 0, maxObjectives);
  }

  const ObjectivesIntro: string := "Based on the following text, create "
  const ObjectivesMiddle: string := " clear learning objectives that students should achieve after studying this content:\n\n"
  const ObjectivesOutro: string := "\n\nFormat each objective as: 'Students will be able to...'\nFocus on measurable outcomes using action verbs like:\n- Define, Explain, Describe, Identify\n- Calculate, Solve, Apply, Analyze\n- Compare, Evaluate, Synthesize, Create"

  /** The prompt of `generate_learning_objectives`. */
  function ObjectivesPrompt(text: string, maxObjectives: int): string {
    ObjectivesIntro + IntToString(maxObjectives) + ObjectivesMiddle + text + ObjectivesOutro
  }

  /** `generate_learning_objectives(text, max_objectives)` */
  method GenerateLearningObjectives(llm: Llm, text: string, maxObjectives: int) returns (objectives: seq<string>)
    ensures objectives == Objectives(llm(ObjectivesPrompt(text, maxObjectives), 400), maxObjectives)
  {
    var response := llm(ObjectivesPrompt(text, maxObjectives), 400);
    objectives := ParseObjectives(response, maxObjectives);
  }

  /** The first `max_objectives` qualifying lines, or all of them when
      there are fewer: each a stripped, non-blank response line, in line order, that mentions "will be able to" in any
      letter case or starts with "Students". */
  lemma ObjectivesSpec(response: string, maxObjectives: int)
    ensures var lines := Split(response, '\n');
            var pos := KeptPositions(lines, IsObjectiveLineFn());
            var os := Objectives(response, maxObjectives);
            (0 <= maxObjectives ==> |os| <= maxObjectives)
            && |os| <= |pos|
            && (forall k :: 0 <= k < |os| ==>
                  pos[k] < |lines| && os[k] == Strip(lines[pos[k]]) && os[k] != []
                  && (Contains(Lower(os[k]), WillBeAbleTo) || StartsWith(os[k], StudentsWord)))
            && (forall k, l :: 0 <= k < l < |os| ==> pos[k] < pos[l])
            && (forall p :: 0 <= p < |lines| && IsObjectiveLine(lines[p]) ==> p in pos)
            && (0 <= maxObjectives ==> |os| == if maxObjectives < |pos| then maxObjectives else |pos|)
  {
    var lines := Split(response, '\n');
    var all := FilterMap(lines, IsObjectiveLineFn(), StripFn());
    FilterMapAt(lines, IsObjectiveLineFn(), StripFn());
    var os := Objectives(response, maxObjectives);
    assert |os| <= |all| && forall k :: 0 <= k < |os| ==> os[k] == all[k];
    if 0 <= maxObjectives {
      SliceWithin(all, 0, maxObjectives);
    }
  }
}
