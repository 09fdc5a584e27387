/** `chunk_text` of Backend/src/utils/helpers.py: split a text into words and
    cut the word list into windows `words[start:start + max_length]`, each
    window starting `max_length - overlap` words after the previous one. */
module Helpers {
  import opened PyText

  /** The arguments for which the chunking loop ends: no words at all (the
      loop body never runs), or a positive step `max_length - overlap`. */
  predicate ChunkingEnds(words: seq<string>, maxLength: int, overlap: int) {
    words == [] || overlap < maxLength
  }

  /** `" ".join(words[start:start + max_length])` as a function of `start`. */
  function ChunkFn(words: seq<string>, maxLength: int): nat -> string {
    (start: nat) => Join(Slice(words, start, start + maxLength), " ")
  }

  /** `[f(p) for p in range(start, n, step)]`: the values of `f` at the
      positions a loop visits that starts at `start`, advances by `step` and
      stops once past `n`. */
  function StepsFrom<T>(n: nat, start: nat, step: int, f: nat -> T): seq<T>
    requires n == 0 || step > 0
    decreases n - start
  {
    if start >= n then [] else [f(start)] + StepsFrom(n, start + step, step, f)
  }

  /** The chunk list for a word list. */
  function WordChunks(words: seq<string>, maxLength: int, overlap: int): seq<string>
    requires ChunkingEnds(words, maxLength, overlap)
  {
    StepsFrom(|words|, 0, maxLength - overlap, ChunkFn(words, maxLength))
  }

  /** `chunk_text(text, max_length, overlap)`: `text.split()`, then the windowing loop. */
  method ChunkText(text: string, maxLength: int, overlap: int) returns (chunks: seq<string>)
    requires ChunkingEnds(Words(text), maxLength, overlap)
    ensures chunks == WordChunks(Words(text), maxLength, overlap)
  {
    var words := Words(text);
    chunks := ChunkWordList(words, maxLength, overlap);
  }

  /** The windowing loop of `chunk_text` over the word list. */
  method ChunkWordList(words: seq<string>, maxLength: int, overlap: int) returns (chunks: seq<string>)
    requires ChunkingEnds(words, maxLength, overlap)
    ensures chunks == WordChunks(words, maxLength, overlap)
  {
    chunks := [];
    var start := 0;
    ghost var all := WordChunks(words, maxLength, overlap);
    ghost var f := ChunkFn(words, maxLength);
    while start < |words|
      invariant 0 <= start
      invariant all == chunks + StepsFrom(|words|, start, maxLength - overlap, f)
      decreases |words| - start
    {
      var chunk := Join(Slice(words, start, start + maxLength), " ");
      StepsRound(all, chunks, chunk, |words|, start, maxLength - overlap, f);
      chunks := chunks + [chunk];
      start := start + (maxLength - overlap);
    }
  }

  /** One round of a stepping loop, as the loop's invariant sees it: the
      value at `start` moves from the pending part to the done part, and
      once past `n` nothing is pending. */
  lemma StepsRound<T>(all: seq<T>, done: seq<T>, x: T, n: nat, start: nat, step: int, f: nat -> T)
    requires step > 0 && start < n && x == f(start)
    requires all == done + StepsFrom(n, start, step, f)
    ensures all == (done + [x]) + StepsFrom(n, start + step, step, f)
    ensures n <= start + step ==> all == done + [x]
  {
    var rest := StepsFrom(n, start + step, step, f);
    assert StepsFrom(n, start, step, f) == [x] + rest;
    assert done + ([x] + rest) == (done + [x]) + rest;
    if n <= start + step {
      assert rest == [];
    }
  }

  // ------------------------------------------------------------ properties

  /** Blank text gives no chunk, and any other text at least one. */
  lemma BlankTextNoChunks(text: string, maxLength: int, overlap: int)
    requires ChunkingEnds(Words(text), maxLength, overlap)
    ensures WordChunks(Words(text), maxLength, overlap) == [] <==> IsBlank(text)
  {
    WordsEmptyIffBlank(text);
  }

  /** A stepping loop visits `ceil((n - start) / step)` positions: the
      least count of steps that carries `start` past `n`. */
  lemma {:induction false} StepsCount<T>(n: nat, start: nat, step: int, f: nat -> T)
    requires step > 0
    ensures var c := |StepsFrom(n, start, step, f)|;
            if start >= n then c == 0
            else 0 < c && (c - 1) * step < n - start <= c * step
    decreases n - start
  {
    if start < n {
      StepsCount(n, start + step, step, f);
      var c' := |StepsFrom(n, start + step, step, f)|;
      assert |StepsFrom(n, start, step, f)| == c' + 1;
      if start + step < n {
        MulSucc(c' - 1, step);
        MulSucc(c', step);
      }
    }
  }

  lemma MulSucc(k: int, step: int)
    ensures (k + 1) * step == k * step + step
  {
  }

  /** There are `ceil(n / step)` chunks for `n` words and step
      `max_length - overlap`: none for no words, otherwise the least count
      whose steps reach past the last word. */
  lemma ChunkCount(words: seq<string>, maxLength: int, overlap: int)
    requires overlap < maxLength
    ensures var c := |WordChunks(words, maxLength, overlap)|;
            (c == 0 <==> words == [])
            && (words != [] ==> (c - 1) * (maxLength - overlap) < |words| <= c * (maxLength - overlap))
  {
    StepsCount(|words|, 0, maxLength - overlap, ChunkFn(words, maxLength));
  }

  /** Value `k` of a stepping loop is `f` at `start + k * step`. */
  lemma {:induction false} StepsAt<T>(n: nat, start: nat, step: int, f: nat -> T, k: nat)
    requires step > 0
    requires k < |StepsFrom(n, start, step, f)|
    ensures start + k * step >= 0
    ensures StepsFrom(n, start, step, f)[k] == f(start + k * step)
    decreases k
  {
    if k == 0 {
      assert k * step == 0;
    } else {
      StepsAt(n, start + step, step, f, k - 1);
      MulSucc(k - 1, step);
    }
  }

  /** Chunk `k` is the space-join of `words[k * step:k * step + max_length]`
      with `step = max_length - overlap`. */
  lemma ChunkAt(words: seq<string>, maxLength: int, overlap: int, k: nat)
    requires overlap < maxLength
    requires k < |WordChunks(words, maxLength, overlap)|
    ensures 0 <= k * (maxLength - overlap)
    ensures WordChunks(words, maxLength, overlap)[k]
            == Join(Slice(words, k * (maxLength - overlap), k * (maxLength - overlap) + maxLength), " ")
  {
    StepsAt(|words|, 0, maxLength - overlap, ChunkFn(words, maxLength), k);
  }

  /** Splitting chunk `k` again gives back exactly the words of its window,
      and so at most `max_length` words when `max_length` is not negative. */
  lemma ChunkWords(words: seq<string>, maxLength: int, overlap: int, k: nat)
    requires AllWords(words)
    requires overlap < maxLength
    requires k < |WordChunks(words, maxLength, overlap)|
    ensures 0 <= k * (maxLength - overlap)
    ensures Words(WordChunks(words, maxLength, overlap)[k])
            == Slice(words, k * (maxLength - overlap), k * (maxLength - overlap) + maxLength)
    ensures 0 <= maxLength ==> |Words(WordChunks(words, maxLength, overlap)[k])| <= maxLength
  {
    var start := k * (maxLength - overlap);
    ChunkAt(words, maxLength, overlap, k);
    AllWordsSlice(words, start, start + maxLength);
    WordsOfJoin(Slice(words, start, start + maxLength));
    if 0 <= maxLength {
      SliceWithin(words, start, start + maxLength);
    }
  }

  /** `j // step` */
  function FloorDiv(j: nat, step: nat): (q: nat)
    requires step > 0
    ensures q * step <= j < q * step + step
  {
    if j < step then 0
    else
      var q' := FloorDiv(j - step, step);
      MulSucc(q', step);
      q' + 1
  }

  /** With a non-negative overlap no word is skipped: word `j` lies in the
      window of chunk `j // (max_length - overlap)`. */
  lemma EveryWordCovered(words: seq<string>, maxLength: int, overlap: int, j: nat)
    requires 0 <= overlap < maxLength
    requires j < |words|
    ensures var k := FloorDiv(j, maxLength - overlap);
            k < |WordChunks(words, maxLength, overlap)|
            && k * (maxLength - overlap) <= j < k * (maxLength - overlap) + maxLength
  {
    var step := maxLength - overlap;
    var k := FloorDiv(j, step);
    var c := |WordChunks(words, maxLength, overlap)|;
    ChunkCount(words, maxLength, overlap);
    if k >= c {
      MulMono(c, k, step);
      assert false;
    }
  }

  lemma {:induction false} MulMono(a: nat, b: nat, step: nat)
    requires a <= b
    ensures a * step <= b * step
    decreases b - a
  {
    if a < b {
      MulMono(a + 1, b, step);
      MulSucc(a, step);
    }
  }

  /** The while loop of `chunk_text` run from `start` for at most `rounds`
      rounds, whatever the sign of the step: the chunks it has appended and
      the `start` it has reached. */
  function Rounds(words: seq<string>, maxLength: int, overlap: int, start: int, rounds: nat): (seq<string>, int)
    decreases rounds
  {
    if rounds == 0 || start >= |words| then ([], start)
    else
      var next := Rounds(words, maxLength, overlap, start + (maxLength - overlap), rounds - 1);
      ([Join(Slice(words, start, start + maxLength), " ")] + next.0, next.1)
  }

  /** With `max_length <= overlap` the loop never ends on a text with a word:
      however many rounds run, each one appends a chunk and leaves `start`
      below the word count, so the loop condition still holds. */
  lemma {:induction false} NoProgressWithoutStep(words: seq<string>, maxLength: int, overlap: int, start: int, rounds: nat)
    requires words != [] && maxLength <= overlap && start <= 0
    ensures |Rounds(words, maxLength, overlap, start, rounds).0| == rounds
    ensures Rounds(words, maxLength, overlap, start, rounds).1 < |words|
    decreases rounds
  {
    if rounds > 0 {
      NoProgressWithoutStep(words, maxLength, overlap, start + (maxLength - overlap), rounds - 1);
    }
  }

  /** With a positive step the loop has finished within `|words|` rounds,
      and what it appended is the chunk list. */
  lemma {:induction false} RoundsFinish(words: seq<string>, maxLength: int, overlap: int, start: nat, rounds: nat)
    requires overlap < maxLength && start + rounds >= |words|
    ensures Rounds(words, maxLength, overlap, start, rounds).0
            == StepsFrom(|words|, start, maxLength - overlap, ChunkFn(words, maxLength))
    ensures Rounds(words, maxLength, overlap, start, rounds).1 >= |words|
    decreases rounds
  {
    if start < |words| {
      var next := start + (maxLength - overlap);
      RoundsFinish(words, maxLength, overlap, next, rounds - 1);
    }
  }
}
